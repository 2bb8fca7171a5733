/**
 * Certificates as material on disk and metadata in a table, changed together:
 * each operation does its steps in order and undoes the earlier ones when a
 * later one fails. A call names the one step of it that fails, without effect;
 * the compensating steps succeed.
 */
module CertificateManager {
  import opened Wrappers
  import opened CertificateMaterial

  /** The columns of one certificate's metadata. */
  type Record = map<string, string>

  type Records = map<int, Record>

  datatype Trouble =
    | NoTrouble
    | CreateFails
    | DetachFails
    | PutFails(fault: Fault)
    | UpdateFails
    | DeleteFails
    | CommitFails

  function PutFault(trouble: Trouble): Fault {
    if trouble.PutFails? then trouble.fault else NoFault
  }

  datatype Failure = NotFound | Conflict | StepFailed

  /** Every row has every column. */
  predicate Whole(rows: Records, columns: Record) {
    forall id :: id in rows ==> rows[id].Keys == columns.Keys
  }

  /** What exists for one certificate: its material and its metadata. */
  datatype Holding = Holding(material: Option<Material>, metadata: Option<Record>)

  function HoldingOf(entries: Entries, rows: Records, id: int): Holding {
    Holding(LiveOf(entries, id), if id in rows then Some(rows[id]) else None)
  }

  lemma MergedIsWhole(current: Record, payload: Record, columns: Record)
    requires current.Keys == columns.Keys && payload.Keys <= columns.Keys
    ensures (current + payload).Keys == columns.Keys
    ensures current + payload + current == current
  {
  }

  /** A certificate has material exactly when it has a record. */
  ghost predicate Paired(entries: Entries, rows: Records) {
    forall id :: id in rows <==> Live(id) in entries
  }

  /** The random suffix of an operation has not been used by anything still there. */
  predicate Unused(entries: Entries, nonce: nat) {
    forall e :: e in entries && (e.Staging? || e.Quarantine?) ==> e.nonce != nonce
  }

  /** An operation on one certificate that leaves it with both or with neither leaves all of them so. */
  lemma PairedAfter(id: int, entries: Entries, rows: Records, post: Entries, after: Records)
    requires Paired(entries, rows) && SameOthers(id, entries, post) && rows - {id} == after - {id}
    requires id in after <==> Live(id) in post
    ensures Paired(post, after)
  {
    forall j
      ensures j in after <==> Live(j) in post
    {
      if j != id {
        assert j in rows - {id} <==> j in after - {id};
        assert Live(j).id != id;
      }
    }
  }

  datatype Operation =
    | Uploading(pending: Record, active: Record, b: Bundle)
    | Reuploading(id: int, payload: Record, b: Bundle)
    | Renewing(id: int, payload: Record, b: Bundle)
    | Deleting(id: int, inUse: set<int>)
  {
    /** The payloads name only columns of the table. */
    predicate Fits(columns: Record) {
      match this
      case Uploading(pending, active, _) => pending.Keys <= columns.Keys && active.Keys <= columns.Keys
      case Reuploading(_, payload, _) => payload.Keys <= columns.Keys
      case Renewing(_, payload, _) => payload.Keys <= columns.Keys
      case Deleting(_, _) => true
    }
  }

  class Manager {
    const store: MaterialStore
    /** The columns of the table with their defaults. */
    const columns: Record
    var rows: Records
    var nextId: int

    constructor (store: MaterialStore, columns: Record)
      ensures this.store == store && this.columns == columns && rows == map[] && nextId == 1 && Valid()
    {
      this.store, this.columns := store, columns;
      rows, nextId := map[], 1;
    }

    predicate Valid()
      reads this
    {
      && Whole(rows, columns)
      && nextId >= 1
      && (forall id :: id in rows ==> 1 <= id < nextId)
    }

    /*** The table ***/

    method CreateResource(payload: Record, fails: bool) returns (id: Option<int>)
      requires Valid() && payload.Keys <= columns.Keys
      modifies this
      ensures Valid() && id == (if fails then None else Some(old(nextId)))
      ensures nextId == old(nextId) + if fails then 0 else 1
      ensures rows == if fails then old(rows) else old(rows)[old(nextId) := columns + payload]
    {
      if fails {
        return None;
      }
      rows := rows[nextId := columns + payload];
      id := Some(nextId);
      nextId := nextId + 1;
    }

    /** Writes the current record with the payload over it; false if there is no record, or the write fails. */
    method UpdateResource(id: int, payload: Record, fails: bool) returns (ok: bool)
      requires Valid() && payload.Keys <= columns.Keys
      modifies this`rows
      ensures Valid() && ok == (!fails && id in old(rows))
      ensures rows == if ok then old(rows)[id := old(rows)[id] + payload] else old(rows)
    {
      if id !in rows || fails {
        return false;
      }
      MergedIsWhole(rows[id], payload, columns);
      rows := rows[id := rows[id] + payload];
      return true;
    }

    method DeleteResource(id: int, fails: bool) returns (ok: bool)
      requires Valid()
      modifies this`rows
      ensures Valid() && ok == (!fails && id in old(rows))
      ensures rows == if ok then old(rows) - {id} else old(rows)
    {
      if id !in rows || fails {
        return false;
      }
      rows := rows - {id};
      return true;
    }

    /*** Uploading and requesting ***/

    /**
     * A new certificate: its record is created as pending, its material is put, and it is made active.
     * Both exist in the end or neither does, and the identifier is spent only if the record was created.
     */
    method UploadNew(pending: Record, active: Record, b: Bundle, nonce: nat, trouble: Trouble)
      returns (r: Result<int, Failure>)
      requires Valid() && pending.Keys <= columns.Keys && active.Keys <= columns.Keys
      requires Staging(nextId, nonce) !in store.entries
      modifies this, store
      ensures Valid()
      ensures r.Ok? ==>
        && r.value == old(nextId) && nextId == old(nextId) + 1
        && rows == old(rows)[r.value := columns + pending + active]
        && LiveOf(store.entries, r.value) == Some(MaterialOf(b))
      ensures r.Err? ==>
        && rows == old(rows)
        && (if trouble.CreateFails? then store.entries == old(store.entries) else LiveOf(store.entries, old(nextId)) == None)
      ensures SameOthers(old(nextId), old(store.entries), store.entries)
      ensures NamedBy(old(store.entries), store.entries, nonce)
      ensures
        var put := PutSucceeds(old(store.entries), old(nextId), PutFault(trouble));
        r.Ok? <==> !trouble.CreateFails? && !trouble.UpdateFails? && put
    {
      hide MaterialOf, Whole, AfterPut, PutSucceeds, SameOthers, NamedBy;
      Unchanged(store.entries, nextId);
      PutOrRemoved(store.entries, nextId, b, PutFault(trouble), nonce);
      var created := CreateResource(pending, trouble.CreateFails?);
      if created.None? {
        return Err(StepFailed);
      }
      var put := store.Put(created.value, nonce, b, PutFault(trouble));
      if put {
        var activated := UpdateResource(created.value, active, trouble.UpdateFails?);
        if activated {
          return Ok(created.value);
        }
      }
      var _ := store.Delete(created.value);
      var _ := DeleteResource(created.value, false);
      return Err(StepFailed);
    }

    /**
     * New material for an existing certificate. Both are new if it succeeds; if it fails both are as they
     * were, except exactly when the old material could not be removed after the new one was in place.
     */
    method UploadAgain(id: int, payload: Record, b: Bundle, nonce: nat, trouble: Trouble)
      returns (r: Result<Record, Failure>)
      requires Valid() && payload.Keys <= columns.Keys
      requires Staging(id, nonce) !in store.entries
      modifies this`rows, store
      ensures Valid()
      ensures r.Ok? ==>
        && id in old(rows)
        && HoldingOf(store.entries, rows, id) == Holding(Some(MaterialOf(b)), Some(old(rows)[id] + payload))
        && r.value == old(rows)[id] + payload
      ensures
        var split := id in old(rows) && !trouble.UpdateFails? && BackupLeft(old(store.entries), id, PutFault(trouble));
        r.Err? ==>
          if split then HoldingOf(store.entries, rows, id) == Holding(Some(MaterialOf(b)), Some(old(rows)[id]))
          else HoldingOf(store.entries, rows, id) == HoldingOf(old(store.entries), old(rows), id)
      ensures r == Err(NotFound) <==> id !in old(rows)
      ensures r.Ok? <==> id in old(rows) && !trouble.UpdateFails? && PutSucceeds(old(store.entries), id, PutFault(trouble))
      ensures SameOthers(id, old(store.entries), store.entries) && rows - {id} == old(rows) - {id}
      ensures NamedBy(old(store.entries), store.entries, nonce)
    {
      hide MaterialOf, Whole;
      if id !in rows {
        return Err(NotFound);
      }
      var previous := rows[id];
      RowIsWhole(rows, columns, id);
      MergedIsWhole(previous, payload, columns);
      var updated := UpdateResource(id, payload, trouble.UpdateFails?);
      if !updated {
        return Err(StepFailed);
      }
      var record := rows[id];
      PutIsAllOrNothing(store.entries, id, b, PutFault(trouble));
      var put := store.Put(id, nonce, b, PutFault(trouble));
      if !put {
        var _ := UpdateResource(id, previous, false);
        return Err(StepFailed);
      }
      return Ok(record);
    }

    /*** Renewing ***/

    /** A renewed certificate replaces the old one whole, material and metadata, or not at all, whichever step fails. */
    method ReplaceAcme(id: int, payload: Record, b: Bundle, nonce: nat, trouble: Trouble) returns (r: Result<Record, Failure>)
      requires Valid() && payload.Keys <= columns.Keys
      requires Staging(id, nonce) !in store.entries && Quarantine(id, nonce) !in store.entries
      modifies this`rows, store
      ensures Valid()
      ensures r.Ok? ==>
        && id in old(rows) && r.value == old(rows)[id] + payload
        && HoldingOf(store.entries, rows, id) == Holding(Some(MaterialOf(b)), Some(r.value))
      ensures r.Err? ==> HoldingOf(store.entries, rows, id) == HoldingOf(old(store.entries), old(rows), id)
      ensures NoLeftovers(id, old(store.entries), store.entries)
      ensures SameOthers(id, old(store.entries), store.entries) && rows - {id} == old(rows) - {id}
      ensures NamedBy(old(store.entries), store.entries, nonce)
      ensures trouble.NoTrouble? && id in old(rows) && id >= 1 ==> r.Ok?
    {
      hide MaterialOf, Whole, AfterPut, Detached, Restored, SameOthers, NoLeftovers, PutSucceeds, NamedBy,
        LiveOf, LeavesOnly;
      ghost var was := store.entries;
      Unchanged(was, id);
      var previous := if id in rows then rows[id] else map[];
      if id in rows {
        RowIsWhole(rows, columns, id);
        MergedIsWhole(previous, payload, columns);
      }
      var detached, quarantine := store.Detach(id, nonce, trouble.DetachFails?);
      if !detached {
        return Err(StepFailed);
      }
      RestoredAsBefore(was, id, nonce, b, PutFault(trouble));
      NoStage(was, id, nonce);
      var put := store.Put(id, nonce, b, PutFault(trouble));
      if put {
        CommittedIsNew(was, id, nonce, b, PutFault(trouble));
        var updated := UpdateResource(id, payload, trouble.UpdateFails?);
        if updated {
          var record := rows[id];
          var committed := store.CommitDetach(quarantine, trouble.CommitFails?);
          if committed {
            LeftAlone(id, was, store.entries, Some(MaterialOf(b)), nonce);
            return Ok(record);
          }
          UndoReplace(id, quarantine);
          LeftAlone(id, was, store.entries, LiveOf(was, id), nonce);
          var _ := UpdateResource(id, previous, false);
          return Err(StepFailed);
        }
      }
      UndoReplace(id, quarantine);
      LeftAlone(id, was, store.entries, LiveOf(was, id), nonce);
      return Err(if id in rows then StepFailed else NotFound);
    }

    method UndoReplace(id: int, quarantine: Option<Entry>)
      requires id >= 1 && (quarantine.Some? ==> quarantine.value.Quarantine? && quarantine.value in store.entries)
      modifies store
      ensures store.entries == Restored(old(store.entries), id, quarantine)
    {
      var _ := store.Delete(id);
      store.RollbackDetach(id, quarantine);
    }

    /*** Deleting ***/

    /**
     * A certificate still assigned to a resource is kept. Otherwise its material and metadata both go, even
     * if the final clean-up fails, or both stay.
     */
    method DeleteCertificate(id: int, inUse: set<int>, nonce: nat, trouble: Trouble) returns (r: Result<(), Failure>)
      requires Valid() && Quarantine(id, nonce) !in store.entries
      modifies this`rows, store
      ensures Valid()
      ensures HoldingOf(store.entries, rows, id) ==
        if r.Ok? || (trouble.CommitFails? && id in old(rows) && id !in inUse) then Holding(None, None)
        else HoldingOf(old(store.entries), old(rows), id)
      ensures r == Err(Conflict) <==> id in inUse
      ensures id in inUse ==> store.entries == old(store.entries) && rows == old(rows)
      ensures r.Ok? ==> id in old(rows) && NoLeftovers(id, old(store.entries), store.entries)
      ensures trouble.NoTrouble? && id in old(rows) && id !in inUse ==> r.Ok?
      ensures SameOthers(id, old(store.entries), store.entries) && rows - {id} == old(rows) - {id}
      ensures NamedBy(old(store.entries), store.entries, nonce)
    {
      if id in inUse {
        return Err(Conflict);
      }
      var detached, quarantine := store.Detach(id, nonce, trouble.DetachFails?);
      if !detached {
        return Err(StepFailed);
      }
      var deleted := DeleteResource(id, trouble.DeleteFails?);
      if !deleted {
        store.RollbackDetach(id, quarantine);
        return Err(if id in rows then StepFailed else NotFound);
      }
      var committed := store.CommitDetach(quarantine, trouble.CommitFails?);
      r := if committed then Ok(()) else Err(StepFailed);
    }

    /*** Any operation, any failing step ***/

    /** Whatever the operation and whichever step fails, no material is left without a record, nor a record without material. */
    method Perform(op: Operation, nonce: nat, trouble: Trouble)
      requires Valid() && Paired(store.entries, rows) && Unused(store.entries, nonce) && op.Fits(columns)
      modifies this, store
      ensures Valid() && Paired(store.entries, rows)
      ensures NamedBy(old(store.entries), store.entries, nonce)
    {
      hide Paired, SameOthers, NoLeftovers, NamedBy, MaterialOf, PutSucceeds, BackupLeft, Whole;
      ghost var entries, before, next := store.entries, rows, nextId;
      match op
      case Uploading(pending, active, b) =>
        NotYet(entries, before, next);
        var r := UploadNew(pending, active, b, nonce, trouble);
        assert r.Ok? ==> rows - {next} == before - {next};
        PairedAfter(next, entries, before, store.entries, rows);
      case Reuploading(id, payload, b) =>
        Together(entries, before, id);
        var _ := UploadAgain(id, payload, b, nonce, trouble);
        PairedAfter(id, entries, before, store.entries, rows);
      case Renewing(id, payload, b) =>
        Together(entries, before, id);
        var _ := ReplaceAcme(id, payload, b, nonce, trouble);
        PairedAfter(id, entries, before, store.entries, rows);
      case Deleting(id, inUse) =>
        Together(entries, before, id);
        var _ := DeleteCertificate(id, inUse, nonce, trouble);
        PairedAfter(id, entries, before, store.entries, rows);
    }
  }

  /** No suffix from this one on has been used by anything still there. */
  predicate UnusedFrom(entries: Entries, nonce: nat) {
    forall e :: e in entries && (e.Staging? || e.Quarantine?) ==> e.nonce < nonce
  }

  lemma NextUnused(entries: Entries, post: Entries, nonce: nat)
    requires UnusedFrom(entries, nonce)
    ensures Unused(entries, nonce)
    ensures NamedBy(entries, post, nonce) ==> UnusedFrom(post, nonce + 1)
  {
  }

  /**
   * Whatever operations a new manager has performed, in any order and with any step of each failing,
   * every certificate has both material and a record, or neither.
   */
  method PerformAll(columns: Record, calls: seq<(Operation, Trouble)>) returns (manager: Manager)
    requires forall k :: 0 <= k < |calls| ==> calls[k].0.Fits(columns)
    ensures fresh(manager) && manager.Valid() && Paired(manager.store.entries, manager.rows)
  {
    hide Paired, Unused, UnusedFrom, NamedBy;
    var store := new MaterialStore();
    manager := new Manager(store, columns);
    NothingYet();
    for k := 0 to |calls|
      invariant fresh(manager) && fresh(manager.store) && manager.columns == columns && manager.Valid()
      invariant Paired(manager.store.entries, manager.rows) && UnusedFrom(manager.store.entries, k)
    {
      ghost var entries := manager.store.entries;
      NextUnused(entries, entries, k);
      manager.Perform(calls[k].0, k, calls[k].1);
      NextUnused(entries, manager.store.entries, k);
    }
  }

  lemma NothingYet()
    ensures Paired(map[], map[]) && UnusedFrom(map[], 0)
  {
  }

  lemma Together(entries: Entries, rows: Records, id: int)
    requires Paired(entries, rows)
    ensures id in rows <==> LiveOf(entries, id).Some?
  {
  }

  lemma NotYet(entries: Entries, rows: Records, id: int)
    requires Paired(entries, rows) && id !in rows
    ensures Live(id) !in entries
  {
  }

  lemma RowIsWhole(rows: Records, columns: Record, id: int)
    requires Whole(rows, columns) && id in rows
    ensures rows[id].Keys == columns.Keys
  {
  }

  lemma Unchanged(entries: Entries, id: int)
    ensures SameOthers(id, entries, entries) && NoLeftovers(id, entries, entries)
    ensures forall nonce :: NamedBy(entries, entries, nonce)
  {
  }

  /** Putting material, and removing it again, concerns this certificate only. */
  lemma PutOrRemoved(entries: Entries, id: int, b: Bundle, fault: Fault, nonce: nat)
    ensures
      var put := AfterPut(entries, id, b, fault);
      && SameOthers(id, entries, put) && SameOthers(id, entries, put - {Live(id)})
      && NamedBy(entries, put, nonce) && NamedBy(entries, put - {Live(id)}, nonce)
      && LiveOf(put - {Live(id)}, id) == None
      && (PutSucceeds(entries, id, fault) ==> LiveOf(put, id) == Some(MaterialOf(b)))
  {
    hide MaterialOf;
  }

  lemma NoStage(entries: Entries, id: int, nonce: nat)
    requires Staging(id, nonce) !in entries
    ensures Staging(id, nonce) !in Detached(entries, id, nonce)
    ensures PutSucceeds(Detached(entries, id, nonce), id, NoFault) == (id >= 1)
  {
  }
}
