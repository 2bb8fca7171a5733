/** Timed leases: a name is held by one holder until its grant expires or is released. */
module Leases {
  import opened Wrappers

  datatype Lease = Lease(holder: string, expiresAt: int)

  type Leases = map<string, Lease>

  const DEFAULT_TTL: int := 60

  /** A lease lasts at least a second; a missing or zero duration means the default. */
  function Duration(ttl: Option<int>): (d: int)
    ensures d >= 1
    ensures ttl.Some? && ttl.value >= 1 ==> d == ttl.value
    ensures ttl.None? || ttl.value == 0 ==> d == DEFAULT_TTL
    ensures ttl.Some? && ttl.value < 0 ==> d == 1
  {
    var seconds := if ttl.None? || ttl.value == 0 then DEFAULT_TTL else ttl.value;
    if seconds < 1 then 1 else seconds
  }

  datatype AcquireResult = AcquireResult(acquired: bool, holder: string, expiresAt: int)

  function Acquire(leases: Leases, name: string, holder: string, ttl: Option<int>, now: int): (Leases, AcquireResult) {
    if name in leases && leases[name].expiresAt > now && leases[name].holder != holder then
      (leases, AcquireResult(false, leases[name].holder, leases[name].expiresAt))
    else
      var expires := now + Duration(ttl);
      (leases[name := Lease(holder, expires)], AcquireResult(true, holder, expires))
  }

  /** The clock is read once to see whether the lease still runs, and again to extend it. */
  function Renew(leases: Leases, name: string, holder: string, ttl: Option<int>, now: int, later: int): (Leases, Option<int>) {
    if name !in leases || leases[name].holder != holder || leases[name].expiresAt <= now then (leases, None)
    else
      var expires := later + Duration(ttl);
      (leases[name := Lease(holder, expires)], Some(expires))
  }

  function Release(leases: Leases, name: string, holder: string): (Leases, bool) {
    if name in leases && leases[name].holder == holder then (leases - {name}, true) else (leases, false)
  }

  class LeaseStore {
    var rows: Leases

    constructor ()
      ensures rows == map[]
    {
      rows := map[];
    }

    method AcquireLease(name: string, holder: string, ttl: Option<int>, now: int) returns (r: AcquireResult)
      modifies this
      ensures (rows, r) == Acquire(old(rows), name, holder, ttl, now)
    {
      var found := if name in rows then Some(rows[name]) else None;
      if found.Some? && found.value.expiresAt > now && found.value.holder != holder {
        return AcquireResult(false, found.value.holder, found.value.expiresAt);
      }
      var expires := now + Duration(ttl);
      rows := rows[name := Lease(holder, expires)];
      r := AcquireResult(true, holder, expires);
    }

    method RenewLease(name: string, holder: string, ttl: Option<int>, now: int, later: int) returns (r: Option<int>)
      modifies this
      ensures (rows, r) == Renew(old(rows), name, holder, ttl, now, later)
    {
      var found := if name in rows && rows[name].holder == holder then Some(rows[name]) else None;
      if found.None? || found.value.expiresAt <= now {
        return None;
      }
      var expires := later + Duration(ttl);
      rows := rows[name := found.value.(expiresAt := expires)];
      r := Some(expires);
    }

    method ReleaseLease(name: string, holder: string) returns (released: bool)
      modifies this
      ensures (rows, released) == Release(old(rows), name, holder)
    {
      released := name in rows && rows[name].holder == holder;
      if released {
        rows := rows - {name};
      }
    }
  }

  /*** Whole runs ***/

  datatype Call =
    | AcquireCall(name: string, holder: string, ttl: Option<int>, now: int)
    | RenewCall(name: string, holder: string, ttl: Option<int>, now: int, later: int)
    | ReleaseCall(name: string, holder: string, now: int)

  function After(leases: Leases, call: Call): Leases {
    match call
    case AcquireCall(name, holder, ttl, now) => Acquire(leases, name, holder, ttl, now).0
    case RenewCall(name, holder, ttl, now, later) => Renew(leases, name, holder, ttl, now, later).0
    case ReleaseCall(name, holder, _) => Release(leases, name, holder).0
  }

  /** The state before the call at `n`, from any table to start with. */
  function Before(start: Leases, calls: seq<Call>, n: nat): Leases
    requires n <= |calls|
  {
    if n == 0 then start else After(Before(start, calls, n - 1), calls[n - 1])
  }

  /** When the grant of a call runs out; `None` if it grants nothing. */
  function Grant(leases: Leases, call: Call): Option<int> {
    match call
    case AcquireCall(name, holder, ttl, now) =>
      var r := Acquire(leases, name, holder, ttl, now).1;
      if r.acquired then Some(r.expiresAt) else None
    case RenewCall(name, holder, ttl, now, later) => Renew(leases, name, holder, ttl, now, later).1
    case ReleaseCall(_, _, _) => None
  }

  function Done(call: Call): int {
    if call.RenewCall? then call.later else call.now
  }

  predicate ClockRuns(calls: seq<Call>) {
    && (forall i :: 0 <= i < |calls| ==> calls[i].now <= Done(calls[i]))
    && (forall i, j :: 0 <= i < j < |calls| ==> Done(calls[i]) <= calls[j].now)
  }

  /** The call at `i` is the last that grants the name to its holder before `j`, and it has not been released since. */
  predicate LatestGrant(start: Leases, calls: seq<Call>, i: nat, j: nat)
    requires i < j <= |calls|
  {
    && Grant(Before(start, calls, i), calls[i]).Some?
    && forall k :: i < k < j && calls[k].name == calls[i].name && calls[k].holder == calls[i].holder ==>
         !calls[k].ReleaseCall? && Grant(Before(start, calls, k), calls[k]).None?
  }

  predicate RunsFor(leases: Leases, name: string, holder: string, now: int) {
    name in leases && leases[name].holder == holder && now < leases[name].expiresAt
  }

  /**
   * An acquisition is refused exactly while another holder's lease runs, and a renewal exactly unless its
   * own does; each lasts for its duration, from when it was asked for or from the second reading.
   */
  lemma GrantExactly(leases: Leases, call: Call)
    ensures call.AcquireCall? ==>
              && (Grant(leases, call).None? <==> exists other :: other != call.holder && RunsFor(leases, call.name, other, call.now))
              && (Grant(leases, call).Some? ==> Grant(leases, call).value == call.now + Duration(call.ttl))
    ensures call.RenewCall? ==>
              && (Grant(leases, call).Some? <==> RunsFor(leases, call.name, call.holder, call.now))
              && (Grant(leases, call).Some? ==> Grant(leases, call).value == call.later + Duration(call.ttl))
    ensures call.ReleaseCall? ==> Grant(leases, call).None?
  {
    if call.name in leases {
      assert RunsFor(leases, call.name, leases[call.name].holder, call.now) <==> call.now < leases[call.name].expiresAt;
    }
  }

  /** A call leaves the leases of other names alone; its own is what it grants, or goes if its holder releases it, or stays. */
  lemma AfterExactly(leases: Leases, call: Call)
    ensures After(leases, call) ==
      if Grant(leases, call).Some? then leases[call.name := Lease(call.holder, Grant(leases, call).value)]
      else if call.ReleaseCall? && call.name in leases && leases[call.name].holder == call.holder then leases - {call.name}
      else leases
  {
  }

  /** An unexpired lease outlives any call that neither grants it to its holder anew nor is its release. */
  lemma LeaseKept(leases: Leases, call: Call, name: string, lease: Lease)
    requires name in leases && leases[name] == lease && call.now < lease.expiresAt
    requires call.name == name && call.holder == lease.holder ==> !call.ReleaseCall? && Grant(leases, call).None?
    ensures name in After(leases, call) && After(leases, call)[name] == lease
  {
  }

  /** After a call that grants a name, its row is that grant. */
  lemma GrantWritten(leases: Leases, call: Call)
    requires Grant(leases, call).Some?
    ensures
      var at := After(leases, call);
      call.name in at && at[call.name] == Lease(call.holder, Grant(leases, call).value)
  {
  }

  /** A call that grants nothing writes no other lease into a row. */
  lemma NothingWritten(leases: Leases, call: Call, name: string)
    requires call.name == name ==> Grant(leases, call).None?
    ensures name in After(leases, call) ==> name in leases && After(leases, call)[name] == leases[name]
  {
  }

  /** Until its latest grant expires or is released, the name stays with its holder. */
  lemma {:induction false} HeldUntilExpiry(start: Leases, calls: seq<Call>, i: nat, j: nat)
    requires i < j <= |calls| && ClockRuns(calls) && LatestGrant(start, calls, i, j)
    requires forall k :: i < k < j ==> calls[k].now < Grant(Before(start, calls, i), calls[i]).value
    ensures
      var c, at := calls[i], Before(start, calls, j);
      c.name in at && at[c.name] == Lease(c.holder, Grant(Before(start, calls, i), c).value)
    decreases j
  {
    hide Grant, After;
    var c := calls[i];
    if j > i + 1 {
      assert LatestGrant(start, calls, i, j - 1);
      HeldUntilExpiry(start, calls, i, j - 1);
      LeaseKept(Before(start, calls, j - 1), calls[j - 1], c.name, Lease(c.holder, Grant(Before(start, calls, i), c).value));
    } else {
      GrantWritten(Before(start, calls, i), c);
    }
  }

  /** While a holder's latest grant is unexpired and unreleased, no other holder acquires or renews the name. */
  lemma MutualExclusion(start: Leases, calls: seq<Call>, i: nat, j: nat)
    requires i < j < |calls| && ClockRuns(calls) && LatestGrant(start, calls, i, j)
    requires calls[j].name == calls[i].name && calls[j].holder != calls[i].holder
    requires calls[j].now < Grant(Before(start, calls, i), calls[i]).value
    ensures Grant(Before(start, calls, j), calls[j]).None?
    ensures Before(start, calls, j + 1) == Before(start, calls, j)
  {
    forall k | i < k < j
      ensures calls[k].now < Grant(Before(start, calls, i), calls[i]).value
    {
      assert calls[k].now <= Done(calls[k]) <= calls[j].now;
    }
    HeldUntilExpiry(start, calls, i, j);
  }

  /** The last call at or after `i` and before `j` that grants the name, to anyone. */
  predicate LastGrantOfName(start: Leases, calls: seq<Call>, i: nat, j: nat)
    requires i < j <= |calls|
  {
    && Grant(Before(start, calls, i), calls[i]).Some?
    && forall k :: i < k < j && calls[k].name == calls[i].name ==> Grant(Before(start, calls, k), calls[k]).None?
  }

  /** Whoever was granted the name last is the only one who can still be in its row. */
  lemma {:induction false} RowIsLastGrant(start: Leases, calls: seq<Call>, i: nat, j: nat)
    requires i < j <= |calls| && LastGrantOfName(start, calls, i, j)
    ensures
      var c, at := calls[i], Before(start, calls, j);
      c.name in at ==> at[c.name] == Lease(c.holder, Grant(Before(start, calls, i), c).value)
    decreases j
  {
    hide Grant, After;
    if j > i + 1 {
      assert LastGrantOfName(start, calls, i, j - 1);
      RowIsLastGrant(start, calls, i, j - 1);
      NothingWritten(Before(start, calls, j - 1), calls[j - 1], calls[i].name);
    } else {
      GrantWritten(Before(start, calls, i), calls[i]);
    }
  }

  /** Once the name has been granted to another holder, what its former holder renews or releases changes nothing. */
  lemma SupersededChangesNothing(start: Leases, calls: seq<Call>, i: nat, j: nat)
    requires i < j < |calls| && LastGrantOfName(start, calls, i, j)
    requires calls[j].name == calls[i].name && calls[j].holder != calls[i].holder && !calls[j].AcquireCall?
    ensures Before(start, calls, j + 1) == Before(start, calls, j)
    ensures Grant(Before(start, calls, j), calls[j]).None?
  {
    RowIsLastGrant(start, calls, i, j);
  }

  lemma GrantedWhenFree(leases: Leases, call: Call)
    requires call.AcquireCall? && (call.name in leases ==> leases[call.name].expiresAt <= call.now)
    ensures Grant(leases, call) == Some(call.now + Duration(call.ttl))
  {
  }

  /** When the last grant of a name has expired, any holder can acquire it. */
  lemma FreeAfterExpiry(start: Leases, calls: seq<Call>, i: nat, j: nat)
    requires i < j < |calls| && LastGrantOfName(start, calls, i, j)
    requires calls[j].name == calls[i].name && calls[j].AcquireCall?
    requires calls[j].now >= Grant(Before(start, calls, i), calls[i]).value
    ensures Grant(Before(start, calls, j), calls[j]) == Some(calls[j].now + Duration(calls[j].ttl))
  {
    RowIsLastGrant(start, calls, i, j);
    hide Grant, After, Before;
    GrantedWhenFree(Before(start, calls, j), calls[j]);
  }
}
