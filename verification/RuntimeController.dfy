/**
 * The runtime controller: takes the lease, reconciles the filesystem, mirrors
 * the outcome in the database, and gives the lease back.
 */
module RuntimeController {
  import opened Wrappers
  import opened Generations
  import opened Reconciliation
  import opened Leases
  import opened RuntimeTables

  const LEASE: string := "nginx-reconcile"
  const LEASE_SECONDS: int := 120

  /** One row of the append-only log of attempts. */
  datatype Entry = Entry(generation: string, previous: Option<string>, changed: bool, applied: bool, diagnostic: Option<string>)

  datatype Control = Control(site: Site, rows: Rows, log: seq<Entry>, leases: Leases)

  datatype Verdict = LeaseHeld(holder: string) | Unsafe | Failed(diagnostic: string) | Succeeded(changed: bool)

  function Diagnostic(o: Outcome): string {
    match o
    case NotStaged(UnsafePath) => "unsafe generated path"
    case NotStaged(WriteFailed) => "write failed"
    case Invalid(_) => "validation failed"
    case RolledBack(_, clean) => if clean then "reload failed" else "reload failed; rollback reload failed"
    case Stranded(_) => "generation does not exist"
    case _ => ""
  }

  predicate IsApplied(o: Outcome) {
    o.Applied? || o.Unchanged?
  }

  /** What an outcome has recorded; `active` is what the manifest says by then. */
  function EntryOf(generation: string, o: Outcome, active: Option<string>): Entry {
    match o
    case Applied(_, previous) => Entry(generation, previous, true, true, None)
    case Unchanged(_) => Entry(generation, Some(generation), false, true, None)
    case _ => Entry(generation, active, true, false, Some(Diagnostic(o)))
  }

  function Persisted(rows: Rows, e: Entry, files: Files, now: int): Rows {
    var values := Values(e.previous, files, if e.applied then "active" else "failed", false, e.diagnostic);
    var recorded := Record(rows, e.generation, values);
    if !e.applied then recorded
    else
      match Activated(recorded, e.generation, now)
      case None => recorded
      case Some(active) => active
  }

  function Reconcile(digest: string -> string, st: Control, holder: string, a: Attempt, now: int): (Control, Verdict) {
    var (leased, lease) := Acquire(st.leases, LEASE, holder, Some(LEASE_SECONDS), now);
    if !lease.acquired then (st, LeaseHeld(lease.holder)) else
      var (site, outcome) := Reconciled(digest, st.site, a);
      var (released, _) := Release(leased, LEASE, holder);
      match GenerationId(digest, a.files)
      case None => (st.(site := site, leases := released), Unsafe)
      case Some(id) =>
        var e := EntryOf(id, outcome, site.store.active);
        (Control(site, Persisted(st.rows, e, a.files, now), st.log + [e], released),
         if e.applied then Succeeded(e.changed) else Failed(Diagnostic(outcome)))
  }

  /** The `stage` operation: renders and stages without activating; a failure raises before the table is touched. */
  function StageOnly(digest: string -> string, st: Control, files: Files, fault: nat): Control {
    match GenerationId(digest, files)
    case None => st
    case Some(id) =>
      match Stage(st.site.store, id, files, fault)
      case Err(_) => st
      case Ok(store) => st.(site := st.site.(store := store), rows := Staged(st.rows, id, files))
  }

  class Controller {
    const reconciler: Reconciler
    const generations: GenerationTable
    const leases: LeaseStore
    const holder: string
    var log: seq<Entry>

    constructor (reconciler: Reconciler, generations: GenerationTable, leases: LeaseStore, holder: string)
      ensures this.reconciler == reconciler && this.generations == generations && this.leases == leases
      ensures this.holder == holder && log == []
    {
      this.reconciler, this.generations, this.leases, this.holder := reconciler, generations, leases, holder;
      log := [];
    }

    function State(): Control
      reads this, reconciler, reconciler.store, generations, leases
    {
      Control(reconciler.State(), generations.rows, log, leases.rows)
    }

    method Persist(e: Entry, files: Files, now: int)
      modifies this`log, generations
      ensures log == old(log) + [e] && generations.rows == Persisted(old(generations.rows), e, files, now)
    {
      hide Record, Activated;
      generations.RecordRow(e.generation, Values(e.previous, files, if e.applied then "active" else "failed", false, e.diagnostic));
      if e.applied {
        var _ := generations.ActivateRow(e.generation, now);
      }
      log := log + [e];
    }

    method ReconcileFiles(a: Attempt, now: int) returns (verdict: Verdict)
      modifies this`log, reconciler, reconciler.store, generations, leases
      ensures (State(), verdict) == Reconcile(reconciler.digest, old(State()), holder, a, now)
    {
      hide Reconciled, GenerationId, Persisted, Acquire, Release;
      var lease := leases.AcquireLease(LEASE, holder, Some(LEASE_SECONDS), now);
      if !lease.acquired {
        Denied(old(leases.rows), LEASE, holder, Some(LEASE_SECONDS), now);
        return LeaseHeld(lease.holder);
      }
      var outcome := reconciler.Reconcile(a);
      var id := ComputeGenerationId(reconciler.digest, a.files);
      if id.None? {
        var _ := leases.ReleaseLease(LEASE, holder);
        return Unsafe;
      }
      var e := EntryOf(id.value, outcome, reconciler.store.active);
      Persist(e, a.files, now);
      var _ := leases.ReleaseLease(LEASE, holder);
      verdict := if e.applied then Succeeded(e.changed) else Failed(Diagnostic(outcome));
    }

    method StageGeneration(files: Files, fault: nat)
      modifies reconciler.store, generations
      ensures State() == StageOnly(reconciler.digest, old(State()), files, fault)
    {
      hide GenerationId, Stage, Staged;
      var id := ComputeGenerationId(reconciler.digest, files);
      if id.None? {
        return;
      }
      var staged := reconciler.store.StageFiles(id.value, files, fault);
      if staged.Err? {
        return;
      }
      var _ := generations.StageRow(id.value, files);
    }
  }

  lemma Denied(leases: Leases, name: string, holder: string, ttl: Option<int>, now: int)
    ensures !Acquire(leases, name, holder, ttl, now).1.acquired ==> Acquire(leases, name, holder, ttl, now).0 == leases
  {
  }

  /*** The database mirrors the filesystem ***/

  /** At most one generation is active in the table, and it is the one the manifest names. */
  predicate Mirrors(st: Control) {
    Sound(st.site) && Distinct(st.rows) && ActiveIs(st.rows, st.site.store.active)
  }

  /** The generation of the last entry that says it was applied. */
  function LastLogged(log: seq<Entry>): Option<string> {
    if log == [] then None
    else if log[|log| - 1].applied then Some(log[|log| - 1].generation)
    else LastLogged(log[..|log| - 1])
  }

  predicate LogTells(st: Control) {
    LastLogged(st.log) == st.site.store.active
  }

  lemma AppliedIds(digest: string -> string, site: Site, a: Attempt)
    requires Sound(site)
    ensures
      var (post, o) := Reconciled(digest, site, a);
      && (GenerationId(digest, a.files).None? <==> o.Refused?)
      && (o.Applied? || o.Unchanged? ==> GenerationId(digest, a.files) == post.store.active == Some(o.id))
      && (!IsApplied(o) && GenerationId(digest, a.files).Some? ==> post.store.active != GenerationId(digest, a.files))
  {
    hide GenerationId, Build;
  }

  /** What the table shows as active once an entry is written: a failure takes its own generation off. */
  function ShownAfter(was: Option<string>, e: Entry): Option<string> {
    if e.applied then Some(e.generation) else if was == Some(e.generation) then None else was
  }

  lemma PersistShows(rows: Rows, e: Entry, files: Files, now: int, was: Option<string>)
    requires Distinct(rows) && ActiveIs(rows, was)
    ensures
      var post := Persisted(rows, e, files, now);
      Distinct(post) && ActiveIs(post, ShownAfter(was, e))
  {
    hide Record, Activated, Distinct, ActiveIs;
    var v := Values(e.previous, files, if e.applied then "active" else "failed", false, e.diagnostic);
    RecordKeepsDistinct(rows, e.generation, v);
    if e.applied {
      ActivateMovesActive(Record(rows, e.generation, v), e.generation, now);
    } else if was == Some(e.generation) {
      RecordTakesActive(rows, e.generation, v);
    } else {
      RecordKeepsActive(rows, e.generation, v, was);
    }
  }

  /**
   * Whether a reconcile applies, finds nothing to do, or fails and rolls back, the table goes on
   * mirroring the manifest, and the log's last applied entry goes on naming what is active.
   */
  lemma ReconcileKeepsMirror(digest: string -> string, st: Control, holder: string, a: Attempt, now: int)
    requires Mirrors(st) && LogTells(st)
    ensures
      var post := Reconcile(digest, st, holder, a, now).0;
      Mirrors(post) && LogTells(post)
  {
    hide Reconciled, GenerationId, Persisted, Acquire, Release, Distinct, ActiveIs, Sound;
    FailureKeepsActive(digest, st.site, a);
    AppliedIds(digest, st.site, a);
    var (site, outcome) := Reconciled(digest, st.site, a);
    match GenerationId(digest, a.files)
    case None =>
    case Some(id) =>
      var e := EntryOf(id, outcome, site.store.active);
      PersistShows(st.rows, e, a.files, now, st.site.store.active);
      assert (st.log + [e])[..|st.log|] == st.log;
  }

  /** What the outcome of an attempt has logged. */
  function Logged(o: Outcome, id: string, active: Option<string>): Entry {
    match o
    case Unchanged(_) => Entry(id, Some(id), false, true, None)
    case Applied(_, _) => Entry(id, active, true, true, None)
    case _ => Entry(id, active, true, false, Some(Diagnostic(o)))
  }

  /**
   * The row an outcome leaves. One that applied is active from now on, and what was active is its previous;
   * but an attempt that found nothing to do leaves its active generation without a previous one.
   */
  function RowLeft(o: Outcome, id: string, active: Option<string>, files: Files, was: Option<Row>, now: int): Row {
    match o
    case Unchanged(_) => Row(id, None, files, "active", true, None, Some(now))
    case Applied(_, _) => Row(id, active, files, "active", true, None, Some(now))
    case _ => Row(id, active, files, "failed", false, Some(Diagnostic(o)), if was.Some? then was.value.activatedAt else None)
  }

  lemma PersistWrites(rows: Rows, e: Entry, files: Files, now: int, active: Option<string>, other: string)
    requires Distinct(rows) && ActiveIs(rows, active) && (!e.applied ==> active != Some(e.generation))
    ensures
      var post, was := Persisted(rows, e, files, now), RowOf(rows, e.generation);
      && RowOf(post, e.generation) ==
         Some(if e.applied
              then Row(e.generation, if active == Some(e.generation) then None else active, files, "active", true, e.diagnostic, Some(now))
              else Row(e.generation, e.previous, files, "failed", false, e.diagnostic, if was.Some? then was.value.activatedAt else None))
      && (other != e.generation ==>
            RowOf(post, other) ==
              match RowOf(rows, other) { case None => None case Some(row) => Some(if e.applied then row.(isActive := false) else row) })
  {
    hide Record, Activated, Distinct, ActiveIs, RowOf;
    var v := Values(e.previous, files, if e.applied then "active" else "failed", false, e.diagnostic);
    var recorded := Record(rows, e.generation, v);
    RecordWrites(rows, e.generation, v, other);
    RecordKeepsDistinct(rows, e.generation, v);
    if e.applied {
      if active == Some(e.generation) {
        RecordTakesActive(rows, e.generation, v);
        ActivateWrites(recorded, e.generation, now, None, other);
      } else {
        RecordKeepsActive(rows, e.generation, v, active);
        ActivateWrites(recorded, e.generation, now, active, other);
      }
    }
  }

  /** What a reconcile that has the lease tells its caller, logs and writes, for every outcome; a failure on disk is noted in the same words. */
  lemma AttemptRecorded(digest: string -> string, st: Control, holder: string, a: Attempt, now: int, id: string, other: string)
    requires Mirrors(st) && GenerationId(digest, a.files) == Some(id)
    requires Acquire(st.leases, LEASE, holder, Some(LEASE_SECONDS), now).1.acquired
    ensures
      var (post, verdict) := Reconcile(digest, st, holder, a, now);
      var outcome, active := Reconciled(digest, st.site, a).1, st.site.store.active;
      && verdict == (if outcome.Applied? then Succeeded(true) else if outcome.Unchanged? then Succeeded(false) else Failed(Diagnostic(outcome)))
      && post.log == st.log + [Logged(outcome, id, active)]
      && RowOf(post.rows, id) == Some(RowLeft(outcome, id, active, a.files, RowOf(st.rows, id), now))
      && (other != id ==>
            RowOf(post.rows, other) ==
              match RowOf(st.rows, other) { case None => None case Some(row) => Some(if IsApplied(outcome) then row.(isActive := false) else row) })
      && (outcome.Invalid? || outcome.RolledBack? ==>
            id in post.site.store.failed && post.site.store.failed[id] == Diagnostic(outcome))
  {
    hide Reconciled, GenerationId, Persisted, Release, Distinct, ActiveIs, Sound, RowOf, CanBeStaged, Diagnostic;
    FailureKeepsActive(digest, st.site, a);
    AppliedIds(digest, st.site, a);
    AttemptLeaves(digest, st.site, a);
    OutcomeExactly(digest, st.site, a);
    var (site, outcome) := Reconciled(digest, st.site, a);
    DiagnosticIsNote(outcome);
    PersistWrites(st.rows, EntryOf(id, outcome, site.store.active), a.files, now, st.site.store.active, other);
  }

  lemma DiagnosticIsNote(o: Outcome)
    ensures o.Invalid? ==> Diagnostic(o) == "validation failed"
    ensures o.RolledBack? ==> Diagnostic(o) == if o.clean then "reload failed" else "reload failed; rollback reload failed"
  {
  }

  /** What staging leaves: the directory and the row of the files if they could be staged, and otherwise nothing new. */
  lemma StageLeaves(digest: string -> string, st: Control, files: Files, fault: nat, other: string)
    requires Distinct(st.rows)
    ensures
      var post, id, was := StageOnly(digest, st, files, fault), GenerationId(digest, files), st.site.store.generations;
      var staged := id.Some? && (id.value in was || Build(files, fault).Ok?);
      && (!staged ==> post == st)
      && (staged ==>
            && post == st.(site := post.site, rows := post.rows) && post.site == st.site.(store := post.site.store)
            && post.site.store ==
               st.site.store.(generations := if id.value in was then was else was[id.value := Build(files, fault).value])
            && RowOf(post.rows, id.value) ==
               Some(match RowOf(st.rows, id.value) {
                 case None => Row(id.value, None, files, "staged", false, None, None)
                 case Some(row) => if row.isActive then row else row.(files := files, state := "staged")
               })
            && (other != id.value ==> RowOf(post.rows, other) == RowOf(st.rows, other)))
  {
    hide GenerationId, Build, Staged, RowOf, Distinct;
    var id := GenerationId(digest, files);
    if id.Some? {
      StageWrites(st.rows, id.value, files, other);
    }
  }

  lemma StageKeepsMirror(digest: string -> string, st: Control, files: Files, fault: nat)
    requires Mirrors(st) && LogTells(st)
    ensures Mirrors(StageOnly(digest, st, files, fault)) && LogTells(StageOnly(digest, st, files, fault))
  {
    hide GenerationId, Build, Staged, Distinct, ActiveIs, LastLogged;
    if GenerationId(digest, files).Some? {
      StageKeepsActive(st.rows, GenerationId(digest, files).value, files, st.site.store.active);
    }
  }

  datatype Event =
    | Reconciling(holder: string, attempt: Attempt, now: int)
    | Staging(files: Files, fault: nat)
    | Leasing(call: Call)

  function Step(digest: string -> string, st: Control, e: Event): Control {
    match e
    case Reconciling(holder, attempt, now) => Reconcile(digest, st, holder, attempt, now).0
    case Staging(files, fault) => StageOnly(digest, st, files, fault)
    case Leasing(call) => st.(leases := After(st.leases, call))
  }

  function Run(digest: string -> string, current: Current, events: seq<Event>): Control {
    if events == [] then Control(Site(EMPTY_STORE, current), [], [], map[])
    else Step(digest, Run(digest, current, events[..|events| - 1]), events[|events| - 1])
  }

  /** In every run of reconciles, by any holders, with staging and lease calls between them, the table mirrors the manifest. */
  lemma {:induction false} RunKeepsMirror(digest: string -> string, current: Current, events: seq<Event>)
    ensures Mirrors(Run(digest, current, events)) && LogTells(Run(digest, current, events))
  {
    if events != [] {
      hide Reconcile, StageOnly, Mirrors, LogTells;
      var before, e := events[..|events| - 1], events[|events| - 1];
      var st := Run(digest, current, before);
      RunKeepsMirror(digest, current, before);
      match e
      case Reconciling(holder, attempt, now) => ReconcileKeepsMirror(digest, st, holder, attempt, now);
      case Staging(files, fault) => StageKeepsMirror(digest, st, files, fault);
      case Leasing(call) => LeasesKeepMirror(st, After(st.leases, call));
    }
  }

  lemma LeasesKeepMirror(st: Control, leases: Leases)
    requires Mirrors(st) && LogTells(st)
    ensures Mirrors(st.(leases := leases)) && LogTells(st.(leases := leases))
  {
  }

  /** While another holder's lease runs, a reconcile changes nothing at all. */
  lemma HeldLeaseBlocksReconcile(digest: string -> string, st: Control, holder: string, a: Attempt, now: int)
    ensures
      var (post, verdict) := Reconcile(digest, st, holder, a, now);
      var blocked := LEASE in st.leases && st.leases[LEASE].holder != holder && st.leases[LEASE].expiresAt > now;
      && (verdict.LeaseHeld? <==> blocked)
      && (blocked ==> post == st && verdict.holder == st.leases[LEASE].holder)
      && (!blocked ==> post.leases == st.leases - {LEASE})
      && (!blocked && GenerationId(digest, a.files).None? ==> post == st.(leases := st.leases - {LEASE}) && verdict == Unsafe)
  {
    hide Reconciled, GenerationId, Persisted;
    UnnamedIsRefused(digest, st.site, a);
  }

  lemma UnnamedIsRefused(digest: string -> string, site: Site, a: Attempt)
    ensures GenerationId(digest, a.files).None? ==> Reconciled(digest, site, a) == (site, Refused)
  {
    hide GenerationId;
  }
}
