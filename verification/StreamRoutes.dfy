/** The table of streams: every create and update asks first whether its port is free. */
module StreamRoutes {
  import opened Wrappers
  import opened RoutingClaims

  datatype StreamError = BadPort | BadTargetPort | BadTarget | PortInUse | NotFound

  /** What a caller sends for a new stream. */
  datatype Draft = Draft(port: int, protocol: Protocol, target: string, targetPort: int, enabled: bool)

  /** What a caller sends to change one; what is missing stays. */
  datatype Patch = Patch(
    port: Option<int>, protocol: Option<Protocol>, target: Option<string>, targetPort: Option<int>, enabled: Option<bool>)

  function Or<T>(o: Option<T>, otherwise: T): T {
    if o.Some? then o.value else otherwise
  }

  function Merged(s: Stream, p: Patch): Draft {
    Draft(Or(p.port, s.port), Or(p.protocol, s.protocol), Or(p.target, s.target), Or(p.targetPort, s.targetPort),
          Or(p.enabled, s.enabled))
  }

  /** A value that is sent replaces the stream's, and one that is not leaves it. */
  lemma MergedExactly(s: Stream, p: Patch)
    ensures
      var d := Merged(s, p);
      && (match p.port { case Some(port) => d.port == port case None => d.port == s.port })
      && (match p.protocol { case Some(protocol) => d.protocol == protocol case None => d.protocol == s.protocol })
      && (match p.target { case Some(target) => d.target == target case None => d.target == s.target })
      && (match p.targetPort { case Some(port) => d.targetPort == port case None => d.targetPort == s.targetPort })
      && (match p.enabled { case Some(enabled) => d.enabled == enabled case None => d.enabled == s.enabled })
  {
  }

  function Row(id: int, d: Draft): Stream {
    Stream(id, d.port, d.protocol, d.target, d.targetPort, d.enabled)
  }

  predicate IsPort(n: int) {
    1 <= n <= 65535
  }

  /** Some row other than the excluded one holds the port for a conflicting protocol. */
  predicate InUse(rows: seq<Stream>, port: int, protocol: Protocol, exclude: Option<int>) {
    exists i :: 0 <= i < |rows| && rows[i].port == port && rows[i].protocol in Conflicts(protocol) && Some(rows[i].id) != exclude
  }

  /** `targets` stands for the rules a target host has to meet. */
  function Validate(targets: string -> bool, rows: seq<Stream>, d: Draft, exclude: Option<int>): Option<StreamError> {
    if !IsPort(d.port) then Some(BadPort)
    else if !IsPort(d.targetPort) then Some(BadTargetPort)
    else if !targets(d.target) then Some(BadTarget)
    else if InUse(rows, d.port, d.protocol, exclude) then Some(PortInUse)
    else None
  }

  /** The reason given is the first that applies, of the port, the target's port, the target and the port being in use. */
  predicate RefusedFor(targets: string -> bool, d: Draft, post: seq<Stream>, e: StreamError) {
    match e
    case BadPort => !(1 <= d.port <= 65535)
    case BadTargetPort => 1 <= d.port <= 65535 && !(1 <= d.targetPort <= 65535)
    case BadTarget => 1 <= d.port <= 65535 && 1 <= d.targetPort <= 65535 && !targets(d.target)
    case PortInUse => 1 <= d.port <= 65535 && 1 <= d.targetPort <= 65535 && targets(d.target) && !AllApart(post)
    case NotFound => false
  }

  function Find(rows: seq<Stream>, id: int): (i: Option<nat>)
    ensures i.Some? ==> i.value < |rows| && rows[i.value].id == id
    ensures i.None? ==> forall k :: 0 <= k < |rows| ==> rows[k].id != id
  {
    var ids := seq(|rows|, k requires 0 <= k < |rows| => rows[k].id);
    assert forall k :: 0 <= k < |rows| ==> ids[k] == rows[k].id;
    LastIndex(ids, id)
  }

  predicate DistinctIds(rows: seq<Stream>) {
    forall i, j :: 0 <= i < j < |rows| ==> rows[i].id != rows[j].id
  }

  /*** The table ***/

  class StreamTable {
    const targets: string -> bool
    var rows: seq<Stream>
    var nextId: int

    constructor (targets: string -> bool)
      ensures this.targets == targets && rows == [] && nextId == 1 && Valid()
    {
      this.targets := targets;
      rows, nextId := [], 1;
    }

    predicate Valid()
      reads this
    {
      Acceptable(rows, nextId)
    }

    /** Accepts exactly the streams that could be open beside all that are in the table. */
    method Create(d: Draft) returns (r: Result<int, StreamError>)
      requires Valid()
      modifies this
      ensures Valid()
      ensures r.Ok? <==> IsPort(d.port) && IsPort(d.targetPort) && targets(d.target) && AllApart(old(rows) + [Row(old(nextId), d)])
      ensures r.Ok? ==> r.value == old(nextId) && rows == old(rows) + [Row(r.value, d)] && nextId == old(nextId) + 1
      ensures r.Err? ==> RefusedFor(targets, d, old(rows) + [Row(old(nextId), d)], r.error) && rows == old(rows) && nextId == old(nextId)
    {
      FreeForNew(rows, nextId, d);
      var problem := Validate(targets, rows, d, None);
      if problem.Some? {
        return Err(problem.value);
      }
      rows := rows + [Row(nextId, d)];
      nextId := nextId + 1;
      return Ok(nextId - 1);
    }

    /** A change is accepted exactly when the stream as changed could be open beside all the others. */
    method Update(id: int, p: Patch) returns (r: Result<(), StreamError>)
      requires Valid()
      modifies this`rows
      ensures Valid()
      ensures r == Err(NotFound) <==> Find(old(rows), id).None?
      ensures Find(old(rows), id).Some? ==>
        var i := Find(old(rows), id).value;
        var changed := Merged(old(rows)[i], p);
        var post := old(rows)[i := Row(id, changed)];
        && (r.Ok? <==> IsPort(changed.port) && IsPort(changed.targetPort) && targets(changed.target) && AllApart(post))
        && (r.Err? ==> RefusedFor(targets, changed, post, r.error))
        && rows == if r.Ok? then post else old(rows)
      ensures r.Err? ==> rows == old(rows)
    {
      var found := Find(rows, id);
      if found.None? {
        return Err(NotFound);
      }
      var changed := Merged(rows[found.value], p);
      FreeForChange(rows, nextId, found.value, changed);
      var problem := Validate(targets, rows, changed, Some(id));
      if problem.Some? {
        return Err(problem.value);
      }
      rows := rows[found.value := Row(id, changed)];
      return Ok(());
    }

    method SetEnabled(id: int, enabled: bool) returns (ok: bool)
      requires Valid()
      modifies this`rows
      ensures Valid() && ok == Find(old(rows), id).Some?
      ensures rows == if ok then var i := Find(old(rows), id).value; old(rows)[i := old(rows)[i].(enabled := enabled)] else old(rows)
    {
      var found := Find(rows, id);
      if found.None? {
        return false;
      }
      rows := rows[found.value := rows[found.value].(enabled := enabled)];
      return true;
    }

    method Delete(id: int) returns (ok: bool)
      requires Valid()
      modifies this`rows
      ensures Valid() && ok == Find(old(rows), id).Some?
      ensures rows == if ok then var i := Find(old(rows), id).value; old(rows)[..i] + old(rows)[i + 1..] else old(rows)
    {
      var found := Find(rows, id);
      if found.None? {
        return false;
      }
      rows := rows[..found.value] + rows[found.value + 1..];
      return true;
    }
  }

  /*** What the table keeps ***/

  predicate Acceptable(rows: seq<Stream>, nextId: int) {
    AllApart(rows) && DistinctIds(rows) && forall i :: 0 <= i < |rows| ==> rows[i].id < nextId
  }

  lemma ConflictsAreMutual(p: Protocol, q: Protocol)
    ensures p in Conflicts(q) <==> q in Conflicts(p)
  {
  }

  lemma FreeForNew(rows: seq<Stream>, nextId: int, d: Draft)
    requires Acceptable(rows, nextId)
    ensures !InUse(rows, d.port, d.protocol, None) <==> AllApart(rows + [Row(nextId, d)])
  {
    var post := rows + [Row(nextId, d)];
    if AllApart(post) {
      forall i | 0 <= i < |rows|
        ensures Apart(rows[i], Row(nextId, d))
      {
        assert Apart(post[i], post[|rows|]);
      }
    }
  }

  lemma FreeForChange(rows: seq<Stream>, nextId: int, i: nat, d: Draft)
    requires Acceptable(rows, nextId) && i < |rows|
    ensures !InUse(rows, d.port, d.protocol, Some(rows[i].id)) <==> AllApart(rows[i := Row(rows[i].id, d)])
    ensures AllApart(rows[i := Row(rows[i].id, d)]) ==> Acceptable(rows[i := Row(rows[i].id, d)], nextId)
  {
    var row := Row(rows[i].id, d);
    var post := rows[i := row];
    forall k | 0 <= k < |rows| && k != i
      ensures Apart(rows[k], row) <==> Apart(row, rows[k])
    {
      ConflictsAreMutual(rows[k].protocol, row.protocol);
    }
    if AllApart(post) {
      forall k | 0 <= k < |rows| && k != i
        ensures Apart(rows[k], row)
      {
        if k < i {
          assert Apart(post[k], post[i]);
        } else {
          assert Apart(post[i], post[k]);
        }
      }
    }
  }

  datatype Call =
    | CreateCall(draft: Draft)
    | UpdateCall(id: int, patch: Patch)
    | EnableCall(id: int, enabled: bool)
    | DeleteCall(id: int)

  /** Whatever calls a new table has served, and whatever they asked for, the inventory accepts its streams. */
  method Serve(targets: string -> bool, calls: seq<Call>) returns (table: StreamTable)
    ensures fresh(table) && AllApart(table.rows) && NoTwice(PortClaims(table.rows))
  {
    table := new StreamTable(targets);
    for k := 0 to |calls|
      invariant fresh(table) && table.Valid()
    {
      match calls[k]
      case CreateCall(draft) => var _ := table.Create(draft);
      case UpdateCall(id, patch) => var _ := table.Update(id, patch);
      case EnableCall(id, enabled) => var _ := table.SetEnabled(id, enabled);
      case DeleteCall(id) => var _ := table.Delete(id);
    }
    ExpansionAgreesWithConflicts(table.rows);
  }
}
