/**
 * Reconciliation: stage a generation, validate it, activate it, publish and
 * reload it, and go back to the last good one when that fails. The validator
 * and the reloader may fail in any way; what they did is part of each attempt.
 */
module Reconciliation {
  import opened Wrappers
  import opened Generations

  /** The `current` entry that the server reads: nothing, an old real directory, or a link to a generation. */
  datatype Current = Nothing | Directory | Link(id: string)

  datatype Site = Site(store: Store, current: Current)

  /**
   * What became of a call to the reloader. Publishing may fail before the link is
   * renamed into place, by then having `cleared` a real directory out of the way.
   */
  datatype Reload = Reloaded | PublishFailed(cleared: bool) | ReloadFailed

  datatype Attempt = Attempt(files: Files, fault: nat, valid: bool, reload: Reload, rollback: Reload)

  datatype Outcome =
    | Refused
    | Unchanged(id: string)
    | NotStaged(error: StageError)
    | Invalid(id: string)
    | Applied(id: string, previous: Option<string>)
    | RolledBack(id: string, clean: bool)
    | Stranded(id: string)

  function Publish(current: Current, id: string, r: Reload): Current {
    if !r.PublishFailed? then Link(id)
    else if r.cleared && current.Directory? then Nothing
    else current
  }

  function Apply(site: Site, id: string, a: Attempt): (Site, Outcome)
    requires id in site.store.generations
  {
    var previous := site.store.active;
    var published := Publish(site.current, id, a.reload);
    if a.reload.Reloaded? then
      (Site(site.store.(active := Some(id)), published), Applied(id, previous))
    else if previous.None? then
      (Site(site.store.(active := None, failed := site.store.failed[id := "reload failed"]), published), RolledBack(id, true))
    else if previous.value !in site.store.generations then
      (Site(site.store.(active := Some(id)), published), Stranded(id))
    else
      var clean := a.rollback.Reloaded?;
      var diagnostic := if clean then "reload failed" else "reload failed; rollback reload failed";
      (Site(site.store.(failed := site.store.failed[id := diagnostic]), Publish(published, previous.value, a.rollback)),
       RolledBack(id, clean))
  }

  function Reconciled(digest: string -> string, site: Site, a: Attempt): (Site, Outcome) {
    match GenerationId(digest, a.files)
    case None => (site, Refused)
    case Some(id) =>
      if site.store.active == Some(id) then (site, Unchanged(id)) else
        match Stage(site.store, id, a.files, a.fault)
        case Err(e) => (site, NotStaged(e))
        case Ok(staged) =>
          if !a.valid then (Site(staged.(failed := staged.failed[id := "validation failed"]), site.current), Invalid(id))
          else Apply(Site(staged, site.current), id, a)
  }

  /*** The reconciler ***/

  class Reconciler {
    const store: GenerationStore
    const digest: string -> string
    var current: Current

    constructor (store: GenerationStore, digest: string -> string, current: Current)
      ensures this.store == store && this.digest == digest && this.current == current
    {
      this.store, this.digest, this.current := store, digest, current;
    }

    function State(): Site
      reads this, store
    {
      Site(store.State(), current)
    }

    /** The reloader: publishes a generation, then asks the server to reload. */
    method ReloadGeneration(id: string, r: Reload) returns (ok: bool)
      modifies this`current
      ensures ok == r.Reloaded? && current == Publish(old(current), id, r)
    {
      if r.PublishFailed? {
        if r.cleared && current.Directory? {
          current := Nothing;
        }
        return false;
      }
      current := Link(id);
      return r.Reloaded?;
    }

    method Reconcile(a: Attempt) returns (outcome: Outcome)
      modifies this`current, store
      ensures (State(), outcome) == Reconciled(digest, old(State()), a)
    {
      hide GenerationId, Build;
      var named := ComputeGenerationId(digest, a.files);
      if named.None? {
        return Refused;
      }
      var id := named.value;
      if store.active == Some(id) {
        return Unchanged(id);
      }
      var staged := store.StageFiles(id, a.files, a.fault);
      if staged.Err? {
        return NotStaged(staged.error);
      }
      if !a.valid {
        store.RecordFailure(id, "validation failed");
        return Invalid(id);
      }
      outcome := ActivateAndReload(id, a);
    }

    method ActivateAndReload(id: string, a: Attempt) returns (outcome: Outcome)
      requires id in store.generations
      modifies this`current, store
      ensures (State(), outcome) == Apply(old(State()), id, a)
    {
      var previous := store.active;
      var _ := store.Activate(id);
      var reloaded := ReloadGeneration(id, a.reload);
      if reloaded {
        return Applied(id, previous);
      }
      var diagnostic := "reload failed";
      if previous.None? {
        store.ClearActive();
      } else {
        var restored := store.Activate(previous.value);
        if !restored {
          return Stranded(id);
        }
        var again := ReloadGeneration(previous.value, a.rollback);
        if !again {
          diagnostic := "reload failed; rollback reload failed";
        }
      }
      store.RecordFailure(id, diagnostic);
      outcome := RolledBack(id, diagnostic == "reload failed");
    }
  }

  /*** One attempt ***/

  /** The active generation, if any, has been staged. */
  predicate Sound(site: Site) {
    site.store.active.Some? ==> site.store.active.value in site.store.generations
  }

  /** An attempt that does not apply leaves the active generation; one that never got to the reloader leaves `current` too. */
  lemma FailureKeepsActive(digest: string -> string, site: Site, a: Attempt)
    requires Sound(site)
    ensures
      var (post, outcome) := Reconciled(digest, site, a);
      && Sound(post)
      && !outcome.Stranded?
      && post.store.active == (if outcome.Applied? then Some(outcome.id) else site.store.active)
      && (outcome.Refused? || outcome.Unchanged? || outcome.NotStaged? || outcome.Invalid? ==> post.current == site.current)
      && (outcome.Refused? || outcome.Unchanged? || outcome.NotStaged? ==> post == site)
      && (outcome.Applied? ==> post.current == Link(outcome.id))
  {
    hide GenerationId, Build;
  }

  /** After a failed reload with a generation to go back to, `current` leads to it if the second publication succeeds. */
  lemma RollbackRestoresCurrent(digest: string -> string, site: Site, a: Attempt)
    requires Sound(site) && site.store.active.Some? && !a.rollback.PublishFailed?
    ensures
      var (post, outcome) := Reconciled(digest, site, a);
      outcome.RolledBack? ==> post.store.active == site.store.active && post.current == Link(site.store.active.value)
  {
    hide GenerationId, Build;
  }

  /** `current` leads to the active generation, and is absent if there is none. */
  predicate InStep(site: Site) {
    site.current == if site.store.active.Some? then Link(site.store.active.value) else Nothing
  }

  /** The files are named, not those already active, and are or can be staged. */
  predicate CanBeStaged(digest: string -> string, site: Site, a: Attempt) {
    var id := GenerationId(digest, a.files);
    id.Some? && site.store.active != id && (id.value in site.store.generations || Build(a.files, a.fault).Ok?)
  }

  /** A valid candidate is published, its reload fails, and nothing is published in its place. */
  predicate LeavesCandidate(digest: string -> string, site: Site, a: Attempt) {
    && CanBeStaged(digest, site, a)
    && a.valid && a.reload.ReloadFailed?
    && (site.store.active.None? || a.rollback.PublishFailed?)
  }

  /** What becomes of an attempt, for every way in which its steps can go. */
  lemma OutcomeExactly(digest: string -> string, site: Site, a: Attempt)
    requires Sound(site)
    ensures
      var id, outcome, staged := GenerationId(digest, a.files), Reconciled(digest, site, a).1, CanBeStaged(digest, site, a);
      && (outcome.Refused? <==> id.None?)
      && (outcome.Unchanged? <==> id.Some? && site.store.active == id)
      && (outcome.NotStaged? <==> id.Some? && site.store.active != id && !staged)
      && (outcome.Invalid? <==> staged && !a.valid)
      && (outcome.Applied? <==> staged && a.valid && a.reload.Reloaded?)
      && (outcome.RolledBack? <==> staged && a.valid && !a.reload.Reloaded?)
      && (outcome.Unchanged? || outcome.Invalid? || outcome.Applied? || outcome.RolledBack? ==> Some(outcome.id) == id)
      && (outcome.Applied? ==> outcome.previous == site.store.active)
      && (outcome.RolledBack? ==> (outcome.clean <==> site.store.active.None? || a.rollback.Reloaded?))
  {
    hide GenerationId, Build;
  }

  /** What an attempt leaves on disk: one more directory if it could be staged, and a note of each failure after that. */
  lemma AttemptLeaves(digest: string -> string, site: Site, a: Attempt)
    requires Sound(site)
    ensures
      var (post, outcome) := Reconciled(digest, site, a);
      var id, was := GenerationId(digest, a.files), site.store;
      && post.store.generations ==
         (if CanBeStaged(digest, site, a) && id.value !in was.generations then was.generations[id.value := Build(a.files, a.fault).value]
          else was.generations)
      && post.store.failed ==
         match outcome {
           case Invalid(g) => was.failed[g := "validation failed"]
           case RolledBack(g, clean) => was.failed[g := if clean then "reload failed" else "reload failed; rollback reload failed"]
           case _ => was.failed
         }
  {
    hide GenerationId, Build;
  }

  /** Publishing makes the link, even if the reload then fails; if it fails itself, a real directory may have been cleared away. */
  predicate Published(was: Current, id: string, r: Reload, now: Current) {
    if r.PublishFailed? then now == (if was.Directory? && r.cleared then Nothing else was) else now == Link(id)
  }

  /** The candidate was published, and after it what had been active, if anything had. */
  ghost predicate PublishedBack(site: Site, a: Attempt, id: string, now: Current) {
    exists between ::
      && Published(site.current, id, a.reload, between)
      && if site.store.active.None? then now == between else Published(between, site.store.active.value, a.rollback, now)
  }

  /** Where `current` leads after an attempt: where it did, to the generation applied, or back to the previous one. */
  lemma LinkLeft(digest: string -> string, site: Site, a: Attempt)
    requires Sound(site)
    ensures
      var (post, outcome) := Reconciled(digest, site, a);
      && (outcome.Applied? ==> post.current == Link(outcome.id))
      && (!outcome.Applied? && !outcome.RolledBack? ==> post.current == site.current)
      && (outcome.RolledBack? ==> PublishedBack(site, a, outcome.id, post.current))
  {
    hide GenerationId, Build;
    var (post, outcome) := Reconciled(digest, site, a);
    if outcome.RolledBack? {
      assert Published(site.current, outcome.id, a.reload, Publish(site.current, outcome.id, a.reload));
    }
  }

  /** `current` goes out of step with `ACTIVE` exactly when a rejected candidate is left published. */
  lemma InStepUnlessCandidateLeft(digest: string -> string, site: Site, a: Attempt)
    requires Sound(site) && InStep(site)
    ensures InStep(Reconciled(digest, site, a).0) <==> !LeavesCandidate(digest, site, a)
  {
    hide GenerationId, Build;
  }

  /** The first generation whose reload fails stays published with no generation active. */
  lemma FirstFailureLeavesCandidate(digest: string -> string, files: Files)
    requires Build(files, |files| + 2).Ok? && GenerationId(digest, files).Some?
    ensures
      var (post, _) := Reconciled(digest, Site(EMPTY_STORE, Nothing), Attempt(files, |files| + 2, true, ReloadFailed, Reloaded));
      post.store.active == None && post.current == Link(GenerationId(digest, files).value)
  {
    hide GenerationId, Build;
  }

  /*** Whole runs ***/

  function Run(digest: string -> string, current: Current, attempts: seq<Attempt>): Site {
    if attempts == [] then Site(EMPTY_STORE, current)
    else Reconciled(digest, Run(digest, current, attempts[..|attempts| - 1]), attempts[|attempts| - 1]).0
  }

  function OutcomeOf(digest: string -> string, current: Current, attempts: seq<Attempt>): Outcome
    requires attempts != []
  {
    Reconciled(digest, Run(digest, current, attempts[..|attempts| - 1]), attempts[|attempts| - 1]).1
  }

  /** The generation that the last successful attempt applied. */
  function LastApplied(digest: string -> string, current: Current, attempts: seq<Attempt>): Option<string> {
    if attempts == [] then None
    else
      var outcome := OutcomeOf(digest, current, attempts);
      if outcome.Applied? then Some(outcome.id) else LastApplied(digest, current, attempts[..|attempts| - 1])
  }

  /** This attempt staged or found the generation, validated it and reloaded it. */
  predicate Vetted(digest: string -> string, a: Attempt, id: string) {
    GenerationId(digest, a.files) == Some(id) && a.valid && a.reload.Reloaded?
  }

  lemma AppliedIsVetted(digest: string -> string, site: Site, a: Attempt)
    ensures
      var (post, outcome) := Reconciled(digest, site, a);
      outcome.Applied? ==> Vetted(digest, a, outcome.id) && outcome.id in post.store.generations
  {
    hide GenerationId, Build;
  }

  lemma StagedStays(digest: string -> string, site: Site, a: Attempt, id: string)
    requires id in site.store.generations
    ensures
      var post := Reconciled(digest, site, a).0;
      id in post.store.generations && post.store.generations[id] == site.store.generations[id]
  {
    hide GenerationId, Build;
  }

  /**
   * After any run, whatever the validator and the reloader did, ACTIVE names the generation of the last
   * attempt that applied, if there was one; it is staged, and that attempt validated and reloaded it.
   */
  lemma {:induction false} ActiveIsLastApplied(digest: string -> string, current: Current, attempts: seq<Attempt>)
    ensures
      var site := Run(digest, current, attempts);
      && Sound(site)
      && site.store.active == LastApplied(digest, current, attempts)
      && (site.store.active.Some? ==> exists a :: a in attempts && Vetted(digest, a, site.store.active.value))
  {
    if attempts != [] {
      hide Reconciled, Vetted;
      var before, a := attempts[..|attempts| - 1], attempts[|attempts| - 1];
      ActiveIsLastApplied(digest, current, before);
      FailureKeepsActive(digest, Run(digest, current, before), a);
      AppliedIsVetted(digest, Run(digest, current, before), a);
      assert a in attempts && forall b :: b in before ==> b in attempts;
    }
  }

  /** A generation once staged is never changed or removed. */
  lemma {:induction false} StagedNeverChanges(
      digest: string -> string, current: Current, before: seq<Attempt>, more: seq<Attempt>, id: string)
    requires id in Run(digest, current, before).store.generations
    ensures
      var post := Run(digest, current, before + more);
      id in post.store.generations && post.store.generations[id] == Run(digest, current, before).store.generations[id]
  {
    hide Reconciled;
    if more == [] {
      assert before + more == before;
    } else {
      var all, last := before + more, more[|more| - 1];
      StagedNeverChanges(digest, current, before, more[..|more| - 1], id);
      assert all[..|all| - 1] == before + more[..|more| - 1] && all[|all| - 1] == last;
      StagedStays(digest, Run(digest, current, before + more[..|more| - 1]), last, id);
    }
  }

  /** This directory was built, whole, from the files of this attempt. */
  predicate BuiltBy(digest: string -> string, a: Attempt, id: string, tree: Tree) {
    GenerationId(digest, a.files) == Some(id) && Build(a.files, a.fault) == Ok(tree)
  }

  lemma StagedByAttempt(digest: string -> string, site: Site, a: Attempt, id: string)
    requires id in Reconciled(digest, site, a).0.store.generations
    ensures
      var post := Reconciled(digest, site, a).0;
      || (id in site.store.generations && post.store.generations[id] == site.store.generations[id])
      || BuiltBy(digest, a, id, post.store.generations[id])
  {
    hide GenerationId, Build;
  }

  lemma {:induction false} StagedWhole(digest: string -> string, current: Current, attempts: seq<Attempt>, id: string)
    requires id in Run(digest, current, attempts).store.generations
    ensures exists a :: a in attempts && BuiltBy(digest, a, id, Run(digest, current, attempts).store.generations[id])
  {
    hide Reconciled, BuiltBy;
    if attempts != [] {
      var before, a := attempts[..|attempts| - 1], attempts[|attempts| - 1];
      var site := Run(digest, current, before);
      StagedByAttempt(digest, site, a, id);
      assert a in attempts && forall b :: b in before ==> b in attempts;
      if !BuiltBy(digest, a, id, Run(digest, current, attempts).store.generations[id]) {
        StagedWhole(digest, current, before, id);
      }
    }
  }

  /** The digest tells these two sets of files apart if their framings differ. */
  predicate NoCollision(digest: string -> string, a: Files, b: Files) {
    digest(Framing(a)) == digest(Framing(b)) ==> Framing(a) == Framing(b)
  }

  /**
   * Content addressing: after any run over files without NUL whose digests do not collide, the directory
   * that a set of files is named by, if it is there, holds those files, if they can be held at all.
   */
  lemma StagedHoldsItsFiles(digest: string -> string, current: Current, attempts: seq<Attempt>, files: Files)
    requires GenerationId(digest, files).Some?
    requires GenerationId(digest, files).value in Run(digest, current, attempts).store.generations
    requires NulFree(files) && forall a :: a in attempts ==> NulFree(a.files) && NoCollision(digest, a.files, files)
    ensures Holds(Run(digest, current, attempts).store.generations[GenerationId(digest, files).value], files) <==> Consistent(files)
  {
    hide Run, Framing, Build, Holds, Consistent, NulFree;
    var id := GenerationId(digest, files).value;
    StagedWhole(digest, current, attempts, id);
    var a :| a in attempts && BuiltBy(digest, a, id, Run(digest, current, attempts).store.generations[id]);
    FramingReadsBack(files);
    FramingReadsBack(a.files);
    assert NoCollision(digest, a.files, files);
    BuiltExactly(files, a.fault);
  }
}
