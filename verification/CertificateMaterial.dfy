/**
 * Certificate material on disk: one directory for each certificate, replaced
 * through a staging directory and a backup, and set aside while its metadata
 * is being deleted. A call may name the one filesystem step of it that fails.
 */
module CertificateMaterial {
  import opened Wrappers
  import opened Text

  datatype Bundle = Bundle(certificate: string, privateKey: string, intermediate: string)

  /** The files of a directory. */
  type Material = map<string, string>

  /** The directories below the material root, by what their names say. */
  datatype Entry =
    | Live(id: int)
    | Staging(id: int, nonce: nat)
    | Backup(id: int)
    | Quarantine(id: int, nonce: nat)

  type Entries = map<Entry, Material>

  /** The step of `put` that fails, without effect; a step that is not reached does not fail. */
  datatype Fault = NoFault | MakeDirectory | Write(k: nat) | ClearBackup | SetAside | Publish | DropBackup

  const FILES: seq<string> := ["cert.pem", "chain.pem", "fullchain.pem", "privkey.pem"]

  /** What is written for a value: the value with one line feed after it, or nothing. */
  function Line(value: string): string {
    if Strip(value) == "" then "" else Strip(value) + "\n"
  }

  function FullChain(b: Bundle): string {
    if Strip(b.intermediate) == "" then Strip(b.certificate) + "\n"
    else Strip(b.certificate) + "\n" + Strip(b.intermediate) + "\n"
  }

  function Contents(b: Bundle): seq<string> {
    [Line(b.certificate), Line(b.intermediate), Line(FullChain(b)), Line(b.privateKey)]
  }

  function Written(contents: seq<string>, n: nat): Material
    requires n <= |FILES| == |contents|
  {
    if n == 0 then map[] else Written(contents, n - 1)[FILES[n - 1] := contents[n - 1]]
  }

  function MaterialOf(b: Bundle): Material {
    Written(Contents(b), 4)
  }

  function LiveOf(entries: Entries, id: int): Option<Material> {
    if Live(id) in entries then Some(entries[Live(id)]) else None
  }

  /*** What `put` comes to ***/

  function AfterPut(entries: Entries, id: int, b: Bundle, fault: Fault): Entries {
    var cleared := entries - {Backup(id)};
    if id < 1 || fault.MakeDirectory? || (fault.Write? && fault.k < 4) || (fault.ClearBackup? && Backup(id) in entries) then entries
    else if fault.Publish? || (fault.SetAside? && Live(id) in entries) then cleared
    else if fault.DropBackup? && Live(id) in entries then cleared[Live(id) := MaterialOf(b)][Backup(id) := entries[Live(id)]]
    else cleared[Live(id) := MaterialOf(b)]
  }

  predicate PutSucceeds(entries: Entries, id: int, fault: Fault) {
    && id >= 1
    && match fault
       case NoFault => true
       case MakeDirectory => false
       case Write(k) => k >= 4
       case ClearBackup => Backup(id) !in entries
       case SetAside => Live(id) !in entries
       case Publish => false
       case DropBackup => Live(id) !in entries
  }

  /** The new material is in place but the old one could not be removed, and `put` raises. */
  predicate BackupLeft(entries: Entries, id: int, fault: Fault) {
    id >= 1 && fault.DropBackup? && Live(id) in entries
  }

  /**
   * `put` is all or nothing: material is new if it succeeds and as it was if it fails, except exactly when
   * the removal of the backup is what fails. Nothing else changes but a backup of this certificate.
   */
  lemma PutIsAllOrNothing(entries: Entries, id: int, b: Bundle, fault: Fault)
    ensures
      var post, ok := AfterPut(entries, id, b, fault), PutSucceeds(entries, id, fault);
      && (fault.NoFault? && id >= 1 ==> ok)
      && (ok ==> post == (entries - {Backup(id)})[Live(id) := MaterialOf(b)])
      && (!ok && !BackupLeft(entries, id, fault) ==> post == entries || post == entries - {Backup(id)})
      && (BackupLeft(entries, id, fault) ==>
            !ok && LiveOf(post, id) == Some(MaterialOf(b)) && Backup(id) in post && post[Backup(id)] == entries[Live(id)])
      && (forall e :: e != Live(id) && e != Backup(id) ==> (e in post <==> e in entries) && (e in entries ==> post[e] == entries[e]))
  {
  }

  /** The files of a certificate directory, by name. */
  lemma MaterialFiles(b: Bundle)
    ensures
      var m := MaterialOf(b);
      && m.Keys == {"cert.pem", "chain.pem", "fullchain.pem", "privkey.pem"}
      && m["cert.pem"] == Line(b.certificate) && m["chain.pem"] == Line(b.intermediate)
      && m["fullchain.pem"] == Line(FullChain(b)) && m["privkey.pem"] == Line(b.privateKey)
  {
    var c := Contents(b);
    assert Written(c, 4) == Written(c, 3)["privkey.pem" := c[3]];
    assert Written(c, 3) == Written(c, 2)["fullchain.pem" := c[2]];
    assert Written(c, 2) == Written(c, 1)["chain.pem" := c[1]];
    assert Written(c, 1) == Written(c, 0)["cert.pem" := c[0]];
  }

  /** A value that is white space around some text is written as that text and one line feed, any other as nothing. */
  lemma LineExactly(left: string, core: string, right: string)
    requires AllSpace(left) && AllSpace(right) && Trimmed(core)
    ensures Line(left + core + right) == if core == "" then "" else core + "\n"
  {
    hide Strip;
    StripExactly(left, core, right);
  }

  lemma TwoLines(first: string, second: string)
    requires Trimmed(first) && Trimmed(second) && second != ""
    ensures Line(first + "\n" + second + "\n") == (if first == "" then "" else first + "\n") + (second + "\n")
  {
    if first == "" {
      LineExactly("\n", second, "\n");
      assert first + "\n" + second + "\n" == "\n" + second + "\n";
      assert "" + (second + "\n") == second + "\n";
    } else {
      LineExactly("", first + "\n" + second, "\n");
      assert "" + (first + "\n" + second) + "\n" == first + "\n" + second + "\n";
    }
  }

  /** The chain a server sends is the certificate and after it the intermediate, as they stand in their own files. */
  lemma FullChainIsBoth(b: Bundle)
    ensures
      var m := MaterialOf(b);
      && {"cert.pem", "chain.pem", "fullchain.pem"} <= m.Keys
      && m["fullchain.pem"] == m["cert.pem"] + m["chain.pem"]
  {
    hide Strip;
    MaterialFiles(b);
    var _, _ := StripDivides(b.certificate);
    var _, _ := StripDivides(b.intermediate);
    var first, second := Strip(b.certificate), Strip(b.intermediate);
    if second == "" {
      LineExactly("", first, "\n");
      assert "" + first + "\n" == first + "\n" == FullChain(b);
      assert Line(b.certificate) + "" == Line(b.certificate);
    } else {
      TwoLines(first, second);
    }
  }

  /** What swapping a staged directory in comes to. */
  function Swapped(entries: Entries, id: int, stage: Entry, fault: Fault): (Entries, bool)
    requires stage in entries
  {
    var cleared := entries - {Backup(id)};
    if fault.ClearBackup? && Backup(id) in entries then (entries, false)
    else if fault.Publish? || (fault.SetAside? && Live(id) in entries) then (cleared, false)
    else if fault.DropBackup? && Live(id) in entries then
      ((cleared - {stage})[Live(id) := entries[stage]][Backup(id) := entries[Live(id)]], false)
    else ((cleared - {stage})[Live(id) := entries[stage]], true)
  }

  lemma StagedAndSwapped(entries: Entries, id: int, stage: Entry, b: Bundle, fault: Fault)
    requires stage.Staging? && stage !in entries && id >= 1 && !fault.MakeDirectory? && !(fault.Write? && fault.k < 4)
    ensures
      var (post, ok) := Swapped(entries[stage := MaterialOf(b)], id, stage, fault);
      post - {stage} == AfterPut(entries, id, b, fault) && ok == PutSucceeds(entries, id, fault)
  {
    hide MaterialOf;
  }

  lemma Unstaged(entries: Entries, stage: Entry, m: Material)
    requires stage !in entries
    ensures entries[stage := m] - {stage} == entries
  {
  }

  /*** Setting material aside and putting it back ***/

  function Detached(entries: Entries, id: int, nonce: nat): Entries {
    if Live(id) in entries then entries[Quarantine(id, nonce) := entries[Live(id)]] - {Live(id)} else entries
  }

  function Restored(entries: Entries, id: int, quarantine: Option<Entry>): Entries
    requires quarantine.Some? ==> quarantine.value in entries
  {
    var without := entries - {Live(id)};
    if quarantine.Some? then without[Live(id) := entries[quarantine.value]] - {quarantine.value} else without
  }

  function QuarantineOf(entries: Entries, id: int, nonce: nat): Option<Entry> {
    if Live(id) in entries then Some(Quarantine(id, nonce)) else None
  }

  /** Nothing that belongs to another certificate differs. */
  predicate SameOthers(id: int, a: Entries, b: Entries) {
    && (forall e :: e in a && e.id != id ==> e in b && b[e] == a[e])
    && (forall e :: e in b && e.id != id ==> e in a)
  }

  /** What is newly staged or set aside carries this suffix. */
  predicate NamedBy(a: Entries, b: Entries, nonce: nat) {
    forall e :: e in b && (e.Staging? || e.Quarantine?) ==> e in a || e.nonce == nonce
  }

  /** Nothing of this certificate is left set aside or staged that was not there before. */
  predicate NoLeftovers(id: int, a: Entries, b: Entries) {
    forall e :: e in b && e.id == id && !e.Live? ==> e in a
  }

  /** This certificate has this material afterwards, nothing set aside, and no other is touched. */
  ghost predicate LeavesOnly(id: int, a: Entries, b: Entries, live: Option<Material>) {
    LiveOf(b, id) == live && SameOthers(id, a, b) && NoLeftovers(id, a, b)
  }

  lemma LeftAlone(id: int, a: Entries, b: Entries, live: Option<Material>, nonce: nat)
    requires LeavesOnly(id, a, b, live)
    ensures LiveOf(b, id) == live && SameOthers(id, a, b) && NoLeftovers(id, a, b) && NamedBy(a, b, nonce)
  {
  }

  /** Detaching, putting and restoring leaves the material that was there. */
  lemma RestoredAsBefore(entries: Entries, id: int, nonce: nat, b: Bundle, fault: Fault)
    requires Quarantine(id, nonce) !in entries
    ensures
      var put := AfterPut(Detached(entries, id, nonce), id, b, fault);
      var q := QuarantineOf(entries, id, nonce);
      && (q.Some? ==> q.value in put)
      && LeavesOnly(id, entries, Restored(put, id, q), LiveOf(entries, id))
  {
    hide MaterialOf;
  }

  /** Detaching, putting and dropping what was detached leaves the new material. */
  lemma CommittedIsNew(entries: Entries, id: int, nonce: nat, b: Bundle, fault: Fault)
    requires Quarantine(id, nonce) !in entries
    requires PutSucceeds(Detached(entries, id, nonce), id, fault)
    ensures
      var put := AfterPut(Detached(entries, id, nonce), id, b, fault);
      var q := QuarantineOf(entries, id, nonce);
      var post := if q.Some? then put - {q.value} else put;
      LeavesOnly(id, entries, post, Some(MaterialOf(b)))
  {
    hide MaterialOf;
  }

  /*** The store ***/

  class MaterialStore {
    var entries: Entries

    constructor ()
      ensures entries == map[]
    {
      entries := map[];
    }

    method Put(id: int, nonce: nat, b: Bundle, fault: Fault) returns (ok: bool)
      requires Staging(id, nonce) !in entries
      modifies this
      ensures entries == AfterPut(old(entries), id, b, fault) && ok == PutSucceeds(old(entries), id, fault)
    {
      hide MaterialOf, Swapped;
      if id < 1 || fault.MakeDirectory? {
        return false;
      }
      var stage := Staging(id, nonce);
      entries := entries[stage := map[]];
      ok := WriteFiles(stage, b, fault);
      if ok {
        StagedAndSwapped(old(entries), id, stage, b, fault);
        assert old(entries)[stage := map[]][stage := MaterialOf(b)] == old(entries)[stage := MaterialOf(b)];
        ok := Swap(id, stage, fault);
      } else {
        Unstaged(old(entries), stage, entries[stage]);
      }
      RemoveIfPresent(stage);
    }

    method RemoveIfPresent(e: Entry)
      modifies this
      ensures entries == old(entries) - {e}
    {
      assert e !in entries ==> entries - {e} == entries;
      if e in entries {
        entries := entries - {e};
      }
    }

    method WriteFiles(stage: Entry, b: Bundle, fault: Fault) returns (ok: bool)
      requires stage in entries && entries[stage] == map[]
      modifies this
      ensures ok == !(fault.Write? && fault.k < 4)
      ensures stage in entries && entries == old(entries)[stage := entries[stage]]
      ensures ok ==> entries[stage] == MaterialOf(b)
    {
      var contents := Contents(b);
      for k := 0 to 4
        invariant stage in entries && entries == old(entries)[stage := Written(contents, k)]
        invariant fault.Write? ==> fault.k >= k
      {
        if fault == Write(k) {
          return false;
        }
        entries := entries[stage := entries[stage][FILES[k] := contents[k]]];
      }
      return true;
    }

    /** Moves the old directory aside and the new one into its place; puts the old one back if that fails. */
    method Swap(id: int, stage: Entry, fault: Fault) returns (ok: bool)
      requires stage.Staging? && stage in entries
      modifies this
      ensures (entries, ok) == Swapped(old(entries), id, stage, fault)
    {
      var backup, target := Backup(id), Live(id);
      if backup in entries {
        if fault.ClearBackup? {
          return false;
        }
        entries := entries - {backup};
      }
      if target in entries {
        if fault.SetAside? {
          assert entries == old(entries) - {backup};
          return false;
        }
        entries := entries[backup := entries[target]] - {target};
      }
      if fault.Publish? {
        if backup in entries {
          entries := entries[target := entries[backup]] - {backup};
        }
        assert entries == old(entries) - {backup};
        return false;
      }
      entries := entries[target := entries[stage]] - {stage};
      if backup in entries {
        if fault.DropBackup? {
          assert entries == (old(entries) - {backup} - {stage})[target := old(entries)[stage]][backup := old(entries)[target]];
          return false;
        }
        entries := entries - {backup};
      }
      assert entries == (old(entries) - {backup} - {stage})[target := old(entries)[stage]];
      return true;
    }

    method Delete(id: int) returns (deleted: bool)
      modifies this
      ensures deleted == (id >= 1 && Live(id) in old(entries))
      ensures entries == if id >= 1 then old(entries) - {Live(id)} else old(entries)
    {
      if id < 1 || Live(id) !in entries {
        return false;
      }
      entries := entries - {Live(id)};
      return true;
    }

    /** Sets material aside; `None` if there is none. */
    method Detach(id: int, nonce: nat, fails: bool) returns (ok: bool, quarantine: Option<Entry>)
      requires Quarantine(id, nonce) !in entries
      modifies this
      ensures ok == (id >= 1 && !(fails && Live(id) in old(entries)))
      ensures quarantine == if ok then QuarantineOf(old(entries), id, nonce) else None
      ensures entries == if ok then Detached(old(entries), id, nonce) else old(entries)
    {
      if id < 1 {
        return false, None;
      }
      if Live(id) !in entries {
        return true, None;
      }
      if fails {
        return false, None;
      }
      entries := entries[Quarantine(id, nonce) := entries[Live(id)]] - {Live(id)};
      return true, Some(Quarantine(id, nonce));
    }

    method RollbackDetach(id: int, quarantine: Option<Entry>)
      requires quarantine.Some? ==> quarantine.value.Quarantine?
      modifies this
      ensures entries ==
        if quarantine.Some? && quarantine.value in old(entries)
        then old(entries)[Live(id) := old(entries)[quarantine.value]] - {quarantine.value}
        else old(entries)
    {
      if quarantine.Some? && quarantine.value in entries {
        entries := entries[Live(id) := entries[quarantine.value]] - {quarantine.value};
      }
    }

    method CommitDetach(quarantine: Option<Entry>, fails: bool) returns (ok: bool)
      modifies this
      ensures ok == !(fails && quarantine.Some? && quarantine.value in old(entries))
      ensures entries == if ok && quarantine.Some? then old(entries) - {quarantine.value} else old(entries)
    {
      if quarantine.Some? && quarantine.value in entries {
        if fails {
          return false;
        }
        entries := entries - {quarantine.value};
      }
      return true;
    }
  }
}
