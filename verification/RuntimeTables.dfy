/** The table of generations kept in the database beside the filesystem's own manifest. */
module RuntimeTables {
  import opened Wrappers
  import opened Generations

  datatype Row = Row(
    generation: string, previous: Option<string>, files: Files, state: string, isActive: bool,
    diagnostic: Option<string>, activatedAt: Option<int>)

  /** Rows in order of insertion; the generation is unique. */
  type Rows = seq<Row>

  predicate Distinct(rows: Rows) {
    forall i, j :: 0 <= i < j < |rows| ==> rows[i].generation != rows[j].generation
  }

  function Find(rows: Rows, generation: string): (i: Option<nat>)
    ensures i.Some? ==> i.value < |rows| && rows[i.value].generation == generation
    ensures i.None? ==> forall k :: 0 <= k < |rows| ==> rows[k].generation != generation
  {
    var names := seq(|rows|, k requires 0 <= k < |rows| => rows[k].generation);
    assert forall k :: 0 <= k < |rows| ==> names[k] == rows[k].generation;
    LastIndex(names, generation)
  }

  /** Some active row; there should be no choice. */
  function FindActive(rows: Rows): (i: Option<nat>)
    ensures i.Some? ==> i.value < |rows| && rows[i.value].isActive
    ensures i.None? ==> forall k :: 0 <= k < |rows| ==> !rows[k].isActive
  {
    var flags := seq(|rows|, k requires 0 <= k < |rows| => rows[k].isActive);
    assert forall k :: 0 <= k < |rows| ==> flags[k] == rows[k].isActive;
    LastIndex(flags, true)
  }

  datatype Values = Values(previous: Option<string>, files: Files, state: string, isActive: bool, diagnostic: Option<string>)

  function Record(rows: Rows, generation: string, v: Values): Rows {
    match Find(rows, generation)
    case None => rows + [Row(generation, v.previous, v.files, v.state, v.isActive, v.diagnostic, None)]
    case Some(i) =>
      rows[i := rows[i].(previous := v.previous, files := v.files, state := v.state,
                         isActive := v.isActive, diagnostic := v.diagnostic)]
  }

  function Inactive(rows: Rows): Rows {
    seq(|rows|, i requires 0 <= i < |rows| => rows[i].(isActive := false))
  }

  function Activated(rows: Rows, generation: string, now: int): Option<Rows> {
    match Find(rows, generation)
    case None => None
    case Some(i) =>
      var was := FindActive(rows);
      var previous := if was.Some? then Some(rows[was.value].generation) else None;
      Some(Inactive(rows)[i := rows[i].(isActive := true, state := "active", previous := previous, activatedAt := Some(now))])
  }

  function Cleared(rows: Rows): Rows {
    var was := FindActive(rows);
    if was.None? then rows else rows[was.value := rows[was.value].(isActive := false, state := "superseded")]
  }

  /** A generation rendered for inspection becomes a staged row, unless it is the active one. */
  function Staged(rows: Rows, generation: string, files: Files): Rows {
    match Find(rows, generation)
    case None => rows + [Row(generation, None, files, "staged", false, None, None)]
    case Some(i) => if rows[i].isActive then rows else rows[i := rows[i].(files := files, state := "staged")]
  }

  class GenerationTable {
    var rows: Rows

    constructor ()
      ensures rows == []
    {
      rows := [];
    }

    method RecordRow(generation: string, v: Values)
      modifies this
      ensures rows == Record(old(rows), generation, v)
    {
      var found := Find(rows, generation);
      if found.None? {
        rows := rows + [Row(generation, v.previous, v.files, v.state, v.isActive, v.diagnostic, None)];
      } else {
        var row := rows[found.value];
        rows := rows[found.value := row.(previous := v.previous, files := v.files, state := v.state,
                                         isActive := v.isActive, diagnostic := v.diagnostic)];
      }
    }

    method ActivateRow(generation: string, now: int) returns (ok: bool)
      modifies this
      ensures ok == Activated(old(rows), generation, now).Some?
      ensures rows == if ok then Activated(old(rows), generation, now).value else old(rows)
    {
      var found := Find(rows, generation);
      if found.None? {
        return false;
      }
      var was := FindActive(rows);
      var previous := if was.Some? then Some(rows[was.value].generation) else None;
      rows := Inactive(rows);
      var row := rows[found.value];
      rows := rows[found.value := row.(isActive := true, state := "active", previous := previous, activatedAt := Some(now))];
      return true;
    }

    method ClearActiveRow() returns (previous: Option<string>)
      modifies this
      ensures rows == Cleared(old(rows))
      ensures previous == if FindActive(old(rows)).Some? then Some(old(rows)[FindActive(old(rows)).value].generation) else None
    {
      var was := FindActive(rows);
      if was.None? {
        return None;
      }
      previous := Some(rows[was.value].generation);
      rows := rows[was.value := rows[was.value].(isActive := false, state := "superseded")];
    }

    method StageRow(generation: string, files: Files) returns (state: string)
      modifies this
      ensures rows == Staged(old(rows), generation, files)
      ensures state == var i := Find(old(rows), generation);
                       if i.Some? && old(rows)[i.value].isActive then "active" else "staged"
    {
      var found := Find(rows, generation);
      if found.None? {
        rows := rows + [Row(generation, None, files, "staged", false, None, None)];
      } else if !rows[found.value].isActive {
        rows := rows[found.value := rows[found.value].(files := files, state := "staged")];
      } else {
        return "active";
      }
      return "staged";
    }
  }

  /*** What the operations keep ***/

  /** Exactly the given generation, if any, has an active row. */
  predicate ActiveIs(rows: Rows, active: Option<string>) {
    && (active.Some? ==> exists i :: 0 <= i < |rows| && rows[i].isActive)
    && (forall i :: 0 <= i < |rows| && rows[i].isActive ==> active == Some(rows[i].generation))
  }

  /** Recording an inactive generation that was not the active one leaves the active row alone. */
  lemma RecordKeepsActive(rows: Rows, generation: string, v: Values, active: Option<string>)
    requires Distinct(rows) && ActiveIs(rows, active) && active != Some(generation) && !v.isActive
    ensures Distinct(Record(rows, generation, v)) && ActiveIs(Record(rows, generation, v), active)
  {
    var post := Record(rows, generation, v);
    if active.Some? {
      var i :| 0 <= i < |rows| && rows[i].isActive;
      assert post[i] == rows[i];
    }
  }

  /** Recording the active generation as inactive leaves no active row. */
  lemma RecordTakesActive(rows: Rows, generation: string, v: Values)
    requires Distinct(rows) && ActiveIs(rows, Some(generation)) && !v.isActive
    ensures ActiveIs(Record(rows, generation, v), None)
  {
  }

  /** No table shows two generations as active. */
  lemma OneActive(rows: Rows, x: Option<string>, y: Option<string>)
    requires ActiveIs(rows, x)
    ensures ActiveIs(rows, y) <==> x == y
  {
  }

  lemma RecordKeepsDistinct(rows: Rows, generation: string, v: Values)
    requires Distinct(rows)
    ensures Distinct(Record(rows, generation, v)) && Find(Record(rows, generation, v), generation).Some?
  {
    var post := Record(rows, generation, v);
    match Find(rows, generation)
    case None => assert post[|rows|].generation == generation;
    case Some(i) => assert post[i].generation == generation;
  }

  /** Activating leaves exactly one active row, whatever was active before. */
  lemma ActivateMovesActive(rows: Rows, generation: string, now: int)
    requires Distinct(rows) && Find(rows, generation).Some?
    ensures
      var post := Activated(rows, generation, now);
      post.Some? && Distinct(post.value) && ActiveIs(post.value, Some(generation))
  {
    var i := Find(rows, generation).value;
    var post := Activated(rows, generation, now).value;
    assert post[i].isActive;
  }

  lemma StageKeepsActive(rows: Rows, generation: string, files: Files, active: Option<string>)
    requires Distinct(rows) && ActiveIs(rows, active)
    ensures Distinct(Staged(rows, generation, files)) && ActiveIs(Staged(rows, generation, files), active)
  {
    var post := Staged(rows, generation, files);
    if active.Some? {
      var i :| 0 <= i < |rows| && rows[i].isActive;
      assert post[i] == rows[i];
    }
  }

  /** With one active row, clearing leaves none. */
  lemma ClearLeavesNone(rows: Rows, active: Option<string>)
    requires Distinct(rows) && ActiveIs(rows, active)
    ensures Distinct(Cleared(rows)) && ActiveIs(Cleared(rows), None)
  {
    assert forall i, j :: 0 <= i < |rows| && 0 <= j < |rows| && rows[i].isActive && rows[j].isActive ==> i == j;
  }

  /*** What the operations write ***/

  /** The row of a generation, if there is one. */
  function RowOf(rows: Rows, generation: string): (r: Option<Row>)
    ensures r.Some? ==> r.value in rows && r.value.generation == generation
    ensures r.None? ==> forall row :: row in rows ==> row.generation != generation
  {
    match Find(rows, generation)
    case None => None
    case Some(i) => Some(rows[i])
  }

  lemma RowIs(rows: Rows, i: nat)
    requires Distinct(rows) && i < |rows|
    ensures Find(rows, rows[i].generation) == Some(i) && RowOf(rows, rows[i].generation) == Some(rows[i])
  {
  }

  /** Recording writes every field but the time of activation, which stays, and leaves the other rows alone. */
  lemma RecordWrites(rows: Rows, generation: string, v: Values, other: string)
    requires Distinct(rows)
    ensures
      var post := Record(rows, generation, v);
      var was := RowOf(rows, generation);
      && RowOf(post, generation) ==
         Some(Row(generation, v.previous, v.files, v.state, v.isActive, v.diagnostic, if was.Some? then was.value.activatedAt else None))
      && (other != generation ==> RowOf(post, other) == RowOf(rows, other))
  {
    var post := Record(rows, generation, v);
    RecordKeepsDistinct(rows, generation, v);
    match Find(rows, generation)
    case None => RowIs(post, |rows|);
    case Some(i) => RowIs(post, i);
    if other != generation && RowOf(rows, other).Some? {
      var k := Find(rows, other).value;
      assert post[k] == rows[k];
      RowIs(post, k);
    }
  }

  /** Activating makes the row active from now on, with what was active before as its previous; every other row only ceases to be. */
  lemma ActivateWrites(rows: Rows, generation: string, now: int, active: Option<string>, other: string)
    requires Distinct(rows) && ActiveIs(rows, active) && RowOf(rows, generation).Some?
    ensures Activated(rows, generation, now).Some?
    ensures
      var post := Activated(rows, generation, now).value;
      && RowOf(post, generation) ==
         Some(RowOf(rows, generation).value.(previous := active, state := "active", isActive := true, activatedAt := Some(now)))
      && (other != generation ==>
            RowOf(post, other) == match RowOf(rows, other) { case None => None case Some(row) => Some(row.(isActive := false)) })
  {
    var post := Activated(rows, generation, now).value;
    ActivateMovesActive(rows, generation, now);
    RowIs(post, Find(rows, generation).value);
    if other != generation && RowOf(rows, other).Some? {
      RowIs(post, Find(rows, other).value);
    }
  }

  /** Clearing supersedes the active row, and changes nothing else. */
  lemma ClearWrites(rows: Rows, active: Option<string>, generation: string)
    requires Distinct(rows) && ActiveIs(rows, active)
    ensures
      RowOf(Cleared(rows), generation) ==
        match RowOf(rows, generation) {
          case None => None
          case Some(row) => Some(if active == Some(generation) then row.(isActive := false, state := "superseded") else row)
        }
  {
    var post := Cleared(rows);
    if RowOf(rows, generation).Some? {
      var k := Find(rows, generation).value;
      assert Distinct(post) && post[k].generation == generation;
      RowIs(post, k);
      OneActiveRow(rows, active);
    }
  }

  lemma OneActiveRow(rows: Rows, active: Option<string>)
    requires Distinct(rows) && ActiveIs(rows, active)
    ensures active == match FindActive(rows) { case None => None case Some(i) => Some(rows[i].generation) }
  {
  }

  /** Staging writes the files of a row that is not active, and leaves an active one and every other row alone. */
  lemma StageWrites(rows: Rows, generation: string, files: Files, other: string)
    requires Distinct(rows)
    ensures
      var post := Staged(rows, generation, files);
      && RowOf(post, generation) ==
         Some(match RowOf(rows, generation) {
           case None => Row(generation, None, files, "staged", false, None, None)
           case Some(row) => if row.isActive then row else row.(files := files, state := "staged")
         })
      && (other != generation ==> RowOf(post, other) == RowOf(rows, other))
  {
    var post := Staged(rows, generation, files);
    assert Distinct(post);
    match Find(rows, generation)
    case None => RowIs(post, |rows|);
    case Some(i) => RowIs(post, i);
    if other != generation && RowOf(rows, other).Some? {
      var k := Find(rows, other).value;
      assert post[k].generation == other;
      RowIs(post, k);
    }
  }
}
