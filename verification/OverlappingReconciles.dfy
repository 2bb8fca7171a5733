/**
 * Reconciles that overlap. Taking the lease, changing the files and writing the
 * outcome to the database are three steps, and when a lease runs out between
 * them, another holder comes in.
 */
module OverlappingReconciles {
  import opened Wrappers
  import opened Generations
  import opened Reconciliation
  import opened Leases
  import opened RuntimeTables
  import opened RuntimeController

  /** A reconcile under way, its lease granted until `until`; once the files are changed, the entry it has still to write. */
  datatype Work = Work(attempt: Attempt, until: int, entry: Option<Entry>)

  /** `changes` has the entries in the order in which the files were changed; the log has them as they were written. */
  datatype System = System(control: Control, changes: seq<Entry>, flight: map<string, Work>)

  /** The lease is taken. A controller reconciles once at a time. */
  function Take(s: System, holder: string, a: Attempt, now: int): System {
    if holder in s.flight then s else
      var (leases, lease) := Acquire(s.control.leases, LEASE, holder, Some(LEASE_SECONDS), now);
      if !lease.acquired then s
      else s.(control := s.control.(leases := leases), flight := s.flight[holder := Work(a, lease.expiresAt, None)])
  }

  /** The reconcile is over, and its lease given back if it is still this holder's. */
  function Leave(s: System, holder: string): System {
    s.(control := s.control.(leases := Release(s.control.leases, LEASE, holder).0), flight := s.flight - {holder})
  }

  /** The files are changed, as far as the attempt goes. */
  function Change(digest: string -> string, s: System, holder: string): System {
    if holder !in s.flight || s.flight[holder].entry.Some? then s else
      var w := s.flight[holder];
      var (site, outcome) := Reconciled(digest, s.control.site, w.attempt);
      var changed := s.(control := s.control.(site := site));
      match GenerationId(digest, w.attempt.files)
      case None => Leave(changed, holder)
      case Some(id) =>
        var e := EntryOf(id, outcome, site.store.active);
        changed.(changes := s.changes + [e], flight := s.flight[holder := w.(entry := Some(e))])
  }

  /** The outcome is written to the database. */
  function Write(s: System, holder: string, now: int): System {
    if holder !in s.flight || s.flight[holder].entry.None? then s else
      var w, c := s.flight[holder], s.control;
      var e := w.entry.value;
      Leave(s.(control := c.(rows := Persisted(c.rows, e, w.attempt.files, now), log := c.log + [e])), holder)
  }

  datatype Move =
    | Taking(holder: string, attempt: Attempt, now: int)
    | Changing(holder: string)
    | Writing(holder: string, now: int)
    | Staging(files: Files, fault: nat)
    | Leasing(call: Call)

  function Step(digest: string -> string, s: System, m: Move): System {
    match m
    case Taking(holder, attempt, now) => Take(s, holder, attempt, now)
    case Changing(holder) => Change(digest, s, holder)
    case Writing(holder, now) => Write(s, holder, now)
    case Staging(files, fault) => s.(control := StageOnly(digest, s.control, files, fault))
    case Leasing(call) => s.(control := s.control.(leases := After(s.control.leases, call)))
  }

  function Begin(current: Current): System {
    System(Control(Site(EMPTY_STORE, current), [], [], map[]), [], map[])
  }

  function Run(digest: string -> string, current: Current, moves: seq<Move>): System {
    if moves == [] then Begin(current)
    else Step(digest, Run(digest, current, moves[..|moves| - 1]), moves[|moves| - 1])
  }

  /** Three steps with nothing between them are the one step of `RuntimeController`. */
  lemma AloneIsReconcile(digest: string -> string, s: System, holder: string, a: Attempt, now: int)
    requires holder !in s.flight
    ensures
      var post := Write(Change(digest, Take(s, holder, a, now), holder), holder, now);
      post.control == Reconcile(digest, s.control, holder, a, now).0 && post.flight == s.flight
  {
    hide Reconciled, GenerationId, Persisted;
    Denied(s.control.leases, LEASE, holder, Some(LEASE_SECONDS), now);
    var taken := Take(s, holder, a, now);
    if holder in taken.flight {
      assert taken.flight - {holder} == s.flight;
      var changed := Change(digest, taken, holder);
      assert changed.flight - {holder} == s.flight;
    }
  }

  /*** What the table shows ***/

  /** What a table shows as active when these entries have been written to it. */
  function Shown(entries: seq<Entry>): Option<string> {
    if entries == [] then None else ShownAfter(Shown(entries[..|entries| - 1]), entries[|entries| - 1])
  }

  /** The table shows what was written, in that order; the manifest is what would be shown if it had been written as it was done. */
  predicate Tells(s: System) {
    && Sound(s.control.site)
    && Distinct(s.control.rows) && ActiveIs(s.control.rows, Shown(s.control.log))
    && Shown(s.changes) == s.control.site.store.active
  }

  lemma ShownOneMore(entries: seq<Entry>, e: Entry)
    ensures Shown(entries + [e]) == ShownAfter(Shown(entries), e)
  {
    assert (entries + [e])[..|entries|] == entries;
  }

  lemma ChangeTells(digest: string -> string, s: System, holder: string)
    requires Tells(s)
    ensures Tells(Change(digest, s, holder))
  {
    hide Reconciled, GenerationId, Sound, Distinct, ActiveIs, Shown;
    if holder in s.flight && s.flight[holder].entry.None? {
      var a := s.flight[holder].attempt;
      FailureKeepsActive(digest, s.control.site, a);
      AppliedIds(digest, s.control.site, a);
      var (site, outcome) := Reconciled(digest, s.control.site, a);
      var id := GenerationId(digest, a.files);
      if id.Some? {
        ShownOneMore(s.changes, EntryOf(id.value, outcome, site.store.active));
      }
    }
  }

  lemma WriteTells(s: System, holder: string, now: int)
    requires Tells(s)
    ensures Tells(Write(s, holder, now))
  {
    hide Persisted, Sound, Distinct, ActiveIs, Shown;
    if holder in s.flight && s.flight[holder].entry.Some? {
      var w := s.flight[holder];
      PersistShows(s.control.rows, w.entry.value, w.attempt.files, now, Shown(s.control.log));
      ShownOneMore(s.control.log, w.entry.value);
    }
  }

  lemma StageTells(digest: string -> string, s: System, files: Files, fault: nat)
    requires Tells(s)
    ensures Tells(s.(control := StageOnly(digest, s.control, files, fault)))
  {
    hide GenerationId, Build, Staged, Distinct, ActiveIs, Shown;
    if GenerationId(digest, files).Some? {
      StageKeepsActive(s.control.rows, GenerationId(digest, files).value, files, Shown(s.control.log));
    }
  }

  lemma TakeTells(s: System, holder: string, a: Attempt, now: int)
    requires Tells(s)
    ensures Tells(Take(s, holder, a, now))
  {
  }

  lemma StepTells(digest: string -> string, s: System, m: Move)
    requires Tells(s)
    ensures Tells(Step(digest, s, m))
  {
    hide Take, Change, Write, StageOnly, Shown, Sound, Distinct, ActiveIs;
    match m
    case Taking(holder, a, now) => TakeTells(s, holder, a, now);
    case Changing(holder) => ChangeTells(digest, s, holder);
    case Writing(holder, now) => WriteTells(s, holder, now);
    case Staging(files, fault) => StageTells(digest, s, files, fault);
    case Leasing(_) =>
  }

  /**
   * In every run, whatever leases run out and however reconciles overlap, the table mirrors the manifest
   * if and only if the outcomes, as they were written, show what they show as they were done.
   */
  lemma {:induction false} MirrorsExactly(digest: string -> string, current: Current, moves: seq<Move>)
    ensures
      var s := Run(digest, current, moves);
      Tells(s) && (Mirrors(s.control) <==> Shown(s.control.log) == Shown(s.changes))
  {
    hide Step, Distinct, ActiveIs;
    var s := Run(digest, current, moves);
    if moves == [] {
      NothingShown();
    } else {
      MirrorsExactly(digest, current, moves[..|moves| - 1]);
      StepTells(digest, Run(digest, current, moves[..|moves| - 1]), moves[|moves| - 1]);
    }
    OneActive(s.control.rows, Shown(s.control.log), s.control.site.store.active);
  }

  lemma NothingShown()
    ensures Distinct([]) && ActiveIs([], None)
  {
  }

  /*** In time ***/

  /** Nobody asks for a lease when that of a reconcile under way has run out, nor under its name. */
  predicate InTime(s: System, m: Move) {
    match m
    case Taking(_, _, now) => forall h :: h in s.flight ==> now < s.flight[h].until
    case Leasing(call) =>
      forall h :: h in s.flight ==> call.now < s.flight[h].until && !(call.name == LEASE && call.holder == h)
    case _ => true
  }

  predicate AllInTime(digest: string -> string, current: Current, moves: seq<Move>) {
    forall i :: 0 <= i < |moves| ==> InTime(Run(digest, current, moves[..i]), moves[i])
  }

  /** Each reconcile under way has the lease, so there is one at most; what it has done and not written is all that is not written. */
  predicate Alone(s: System) {
    && (forall h :: h in s.flight ==> LEASE in s.control.leases && s.control.leases[LEASE] == Lease(h, s.flight[h].until))
    && (forall h :: h in s.flight && s.flight[h].entry.Some? ==> s.changes == s.control.log + [s.flight[h].entry.value])
    && ((forall h :: h in s.flight ==> s.flight[h].entry.None?) ==> s.changes == s.control.log)
  }

  lemma TakeAlone(s: System, holder: string, a: Attempt, now: int)
    requires Alone(s) && InTime(s, Taking(holder, a, now))
    ensures Alone(Take(s, holder, a, now))
  {
  }

  lemma ChangeAlone(digest: string -> string, s: System, holder: string)
    requires Alone(s)
    ensures Alone(Change(digest, s, holder))
  {
    hide Reconciled, GenerationId;
    if holder in s.flight && s.flight[holder].entry.None? {
      assert forall h :: h in s.flight ==> h == holder;
      var post := Change(digest, s, holder);
      assert holder in post.flight ==> post.flight[holder].entry.Some?;
    }
  }

  lemma WriteAlone(s: System, holder: string, now: int)
    requires Alone(s)
    ensures Alone(Write(s, holder, now))
  {
    hide Persisted;
    if holder in s.flight {
      assert forall h :: h in s.flight ==> h == holder;
    }
  }

  lemma LeasingAlone(s: System, call: Call)
    requires Alone(s) && InTime(s, Move.Leasing(call))
    ensures Alone(s.(control := s.control.(leases := After(s.control.leases, call))))
  {
    forall h | h in s.flight
      ensures LEASE in After(s.control.leases, call) && After(s.control.leases, call)[LEASE] == Lease(h, s.flight[h].until)
    {
      LeaseKept(s.control.leases, call, LEASE, Lease(h, s.flight[h].until));
    }
  }

  lemma StageAlone(digest: string -> string, s: System, files: Files, fault: nat)
    requires Alone(s)
    ensures Alone(s.(control := StageOnly(digest, s.control, files, fault)))
  {
    hide GenerationId, Stage, Staged;
  }

  lemma StepAlone(digest: string -> string, s: System, m: Move)
    requires Alone(s) && InTime(s, m)
    ensures Alone(Step(digest, s, m))
  {
    hide Alone, Take, Change, Write, StageOnly, After;
    match m
    case Taking(holder, a, now) => TakeAlone(s, holder, a, now);
    case Changing(holder) => ChangeAlone(digest, s, holder);
    case Writing(holder, now) => WriteAlone(s, holder, now);
    case Staging(files, fault) => StageAlone(digest, s, files, fault);
    case Leasing(call) => LeasingAlone(s, call);
  }

  lemma {:induction false} AloneInTime(digest: string -> string, current: Current, moves: seq<Move>)
    requires AllInTime(digest, current, moves)
    ensures Alone(Run(digest, current, moves))
  {
    if moves != [] {
      hide Step, Alone, InTime;
      var n := |moves| - 1;
      assert forall i :: 0 <= i < n ==> moves[..n][..i] == moves[..i];
      AloneInTime(digest, current, moves[..n]);
      StepAlone(digest, Run(digest, current, moves[..n]), moves[n]);
    }
  }

  /** If nobody outstays a lease, there is never more than one reconcile under way, and whenever there is none the table mirrors the manifest. */
  lemma InTimeMirrors(digest: string -> string, current: Current, moves: seq<Move>)
    requires AllInTime(digest, current, moves)
    ensures
      var s := Run(digest, current, moves);
      && (forall h, k :: h in s.flight && k in s.flight ==> h == k)
      && (s.flight == map[] ==> s.changes == s.control.log && Mirrors(s.control))
  {
    hide Run, AllInTime, Mirrors, Shown;
    AloneInTime(digest, current, moves);
    MirrorsExactly(digest, current, moves);
  }

  /*** Overtaken ***/

  /** A failure is never of the generation that is active. */
  predicate Honest(was: Option<string>, e: Entry) {
    !e.applied ==> was != Some(e.generation)
  }

  /** Writing two entries the other way round shows the same unless the second applied, and the first failed on the same generation or applied another. */
  lemma OrderShows(was: Option<string>, first: Entry, second: Entry)
    requires Honest(was, first) && Honest(ShownAfter(was, first), second)
    ensures
      ShownAfter(ShownAfter(was, second), first) == ShownAfter(ShownAfter(was, first), second)
      <==> !second.applied || (first.applied <==> first.generation == second.generation)
  {
  }

  lemma Changed(digest: string -> string, s: System, holder: string) returns (e: Entry)
    requires Tells(s) && holder in s.flight && s.flight[holder].entry.None?
    requires GenerationId(digest, s.flight[holder].attempt.files).Some?
    ensures
      var post := Change(digest, s, holder);
      && post.flight == s.flight[holder := s.flight[holder].(entry := Some(e))]
      && post.changes == s.changes + [e]
      && post.control == s.control.(site := post.control.site)
      && Tells(post)
      && Honest(Shown(s.changes), e) && post.control.site.store.active == ShownAfter(Shown(s.changes), e)
      && Some(e.generation) == GenerationId(digest, s.flight[holder].attempt.files)
  {
    hide Reconciled, GenerationId, Sound, Distinct, ActiveIs, Shown;
    var a := s.flight[holder].attempt;
    FailureKeepsActive(digest, s.control.site, a);
    AppliedIds(digest, s.control.site, a);
    var (site, outcome) := Reconciled(digest, s.control.site, a);
    e := EntryOf(GenerationId(digest, a.files).value, outcome, site.store.active);
    ShownOneMore(s.changes, e);
  }

  /** Two outcomes written one after the other, to a table that shows `was`. */
  lemma Written(s: System, one: string, other: string, now: int, later: int)
    requires Tells(s) && one != other && one in s.flight && other in s.flight
    requires s.flight[one].entry.Some? && s.flight[other].entry.Some?
    ensures
      var post := Write(Write(s, one, now), other, later);
      var shown := ShownAfter(ShownAfter(Shown(s.control.log), s.flight[one].entry.value), s.flight[other].entry.value);
      Mirrors(post.control) <==> shown == s.control.site.store.active
  {
    hide Persisted, Sound, Distinct, ActiveIs, Shown;
    var between := Write(s, one, now);
    var post := Write(between, other, later);
    WriteTells(s, one, now);
    WriteTells(between, other, later);
    ShownOneMore(s.control.log, s.flight[one].entry.value);
    ShownOneMore(between.control.log, s.flight[other].entry.value);
    OneActive(post.control.rows, Shown(post.control.log), post.control.site.store.active);
  }

  /**
   * A reconcile changes the files, its lease runs out, and another holder reconciles before it has written.
   * If it writes first after all, the table mirrors the manifest. If it writes last, the table does if and only if
   * the other failed, or both applied the same generation, or it failed itself and on another generation.
   */
  lemma OvertakenExactly(
      digest: string -> string, s: System, slow: string, a: Attempt, now: int, quick: string, b: Attempt, later: int)
    requires Tells(s) && Mirrors(s.control) && slow != quick && slow !in s.flight && quick !in s.flight
    requires GenerationId(digest, a.files).Some? && GenerationId(digest, b.files).Some?
    requires Acquire(s.control.leases, LEASE, slow, Some(LEASE_SECONDS), now).1.acquired && later >= now + LEASE_SECONDS
    ensures
      var overtaken := Change(digest, Take(Change(digest, Take(s, slow, a, now), slow), quick, b, later), quick);
      && slow in overtaken.flight && overtaken.flight[slow].entry.Some?
      && quick in overtaken.flight && overtaken.flight[quick].entry.Some?
      && Mirrors(Write(Write(overtaken, slow, later), quick, later).control)
      && var first, second := overtaken.flight[slow].entry.value, overtaken.flight[quick].entry.value;
         (Mirrors(Write(Write(overtaken, quick, later), slow, later).control)
          <==> !second.applied || (first.applied <==> GenerationId(digest, a.files) == GenerationId(digest, b.files)))
  {
    hide Change, Write, GenerationId, Distinct, ActiveIs, Sound, Shown;
    var taken := Take(s, slow, a, now);
    var first := Changed(digest, taken, slow);
    var changed := Change(digest, taken, slow);
    var again := Take(changed, quick, b, later);
    var second := Changed(digest, again, quick);
    var overtaken := Change(digest, again, quick);
    OneActive(s.control.rows, Shown(s.control.log), s.control.site.store.active);
    OrderShows(Shown(s.control.log), first, second);
    Written(overtaken, slow, quick, later, later);
    Written(overtaken, quick, slow, later, later);
  }

  /** A valid attempt on files that can be staged and reloaded is applied. */
  predicate Applies(digest: string -> string, a: Attempt) {
    GenerationId(digest, a.files).Some? && Build(a.files, a.fault).Ok? && a.valid && a.reload.Reloaded?
  }

  lemma ApplyingChange(digest: string -> string, s: System, holder: string)
    requires holder in s.flight && s.flight[holder].entry.None? && Applies(digest, s.flight[holder].attempt)
    ensures
      var post := Change(digest, s, holder);
      holder in post.flight && post.flight[holder].entry.Some? && post.flight[holder].entry.value.applied
  {
    hide GenerationId, Build;
  }

  /** The table does not always mirror the manifest: of two good reconciles, the first outstays its lease and writes last. */
  lemma OvertakenBreaks(digest: string -> string, current: Current, slow: string, a: Attempt, quick: string, b: Attempt)
    requires slow != quick && Applies(digest, a) && Applies(digest, b)
    requires GenerationId(digest, a.files) != GenerationId(digest, b.files)
    ensures
      var changed := Change(digest, Take(Begin(current), slow, a, 0), slow);
      var overtaken := Change(digest, Take(changed, quick, b, LEASE_SECONDS), quick);
      !Mirrors(Write(Write(overtaken, quick, LEASE_SECONDS), slow, LEASE_SECONDS).control)
  {
    hide Change, Write, GenerationId, Build, Distinct, ActiveIs, Shown, Mirrors, Tells;
    MirrorsExactly(digest, current, []);
    BeginMirrors(current);
    var taken := Take(Begin(current), slow, a, 0);
    TakeTells(Begin(current), slow, a, 0);
    ApplyingChange(digest, taken, slow);
    var _ := Changed(digest, taken, slow);
    var again := Take(Change(digest, taken, slow), quick, b, LEASE_SECONDS);
    TakeTells(Change(digest, taken, slow), quick, b, LEASE_SECONDS);
    ApplyingChange(digest, again, quick);
    var _ := Changed(digest, again, quick);
    OvertakenExactly(digest, Begin(current), slow, a, 0, quick, b, LEASE_SECONDS);
  }

  lemma BeginMirrors(current: Current)
    ensures Mirrors(Begin(current).control)
  {
  }
}
