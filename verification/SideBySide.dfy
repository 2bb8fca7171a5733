/** The side-by-side view of a configuration diff: two columns, changed lines paired between matches. */
module SideBySide {
  import opened Wrappers
  import opened ConfigDiff

  datatype DiffRow = DiffRow(before: Option<string>, after: Option<string>, beforeChanged: bool, afterChanged: bool)

  /** A line of a column, and whether it is highlighted. */
  datatype Marked = Marked(line: string, changed: bool)

  function BeforeOf(row: DiffRow): seq<Marked> {
    if row.before.Some? then [Marked(row.before.value, row.beforeChanged)] else []
  }

  function AfterOf(row: DiffRow): seq<Marked> {
    if row.after.Some? then [Marked(row.after.value, row.afterChanged)] else []
  }

  function BeforeColumn(rows: seq<DiffRow>): seq<Marked> {
    if rows == [] then [] else BeforeOf(rows[0]) + BeforeColumn(rows[1..])
  }

  function AfterColumn(rows: seq<DiffRow>): seq<Marked> {
    if rows == [] then [] else AfterOf(rows[0]) + AfterColumn(rows[1..])
  }

  function OriginMark(e: DiffLine): seq<Marked> {
    if e.kind.Add? then [] else [Marked(e.line, e.kind.Remove?)]
  }

  function TargetMark(e: DiffLine): seq<Marked> {
    if e.kind.Remove? then [] else [Marked(e.line, e.kind.Add?)]
  }

  /** The lines of the first text, those that are removed highlighted. */
  function OriginMarks(script: seq<DiffLine>): seq<Marked> {
    if script == [] then [] else OriginMark(script[0]) + OriginMarks(script[1..])
  }

  /** The lines of the second text, those that are added highlighted. */
  function TargetMarks(script: seq<DiffLine>): seq<Marked> {
    if script == [] then [] else TargetMark(script[0]) + TargetMarks(script[1..])
  }

  function Texts(marks: seq<Marked>): seq<string> {
    seq(|marks|, i requires 0 <= i < |marks| => marks[i].line)
  }

  /*** What makes a layout ***/

  predicate Changed(row: DiffRow) {
    row.beforeChanged || row.afterChanged
  }

  /** Either one line of both texts, or a removed line, an added line, or one of each. */
  predicate WellFormed(row: DiffRow) {
    if Changed(row) then row.beforeChanged == row.before.Some? && row.afterChanged == row.after.Some?
    else row.before.Some? && row.before == row.after
  }

  /** Between two matches a side that has run out stays empty. */
  predicate Packed(row: DiffRow, next: DiffRow) {
    Changed(row) && Changed(next) ==> (row.before.None? ==> next.before.None?) && (row.after.None? ==> next.after.None?)
  }

  predicate WellLaid(rows: seq<DiffRow>) {
    && (forall i :: 0 <= i < |rows| ==> WellFormed(rows[i]))
    && (forall i, j :: 0 <= i < |rows| - 1 && j == i + 1 ==> Packed(rows[i], rows[j]))
  }

  lemma {:induction false} EmptySideStaysEmpty(rows: seq<DiffRow>)
    requires WellLaid(rows) && rows != [] && Changed(rows[0])
    ensures rows[0].before.None? ==> BeforeColumn(rows) == [] || !BeforeColumn(rows)[0].changed
    ensures rows[0].after.None? ==> AfterColumn(rows) == [] || !AfterColumn(rows)[0].changed
  {
    if |rows| > 1 {
      assert Packed(rows[0], rows[1]) && WellFormed(rows[1]);
      if Changed(rows[1]) {
        assert WellLaid(rows[1..]);
        EmptySideStaysEmpty(rows[1..]);
      }
    }
  }

  lemma HeadDecides(rows: seq<DiffRow>)
    requires WellLaid(rows) && rows != []
    ensures
      var b, a := BeforeColumn(rows), AfterColumn(rows);
      var removed, added := b != [] && b[0].changed, a != [] && a[0].changed;
      rows[0] ==
        if removed || added then
          DiffRow(if removed then Some(b[0].line) else None, if added then Some(a[0].line) else None, removed, added)
        else if b != [] then DiffRow(Some(b[0].line), Some(b[0].line), false, false)
        else rows[0]
    ensures BeforeColumn(rows) != [] || AfterColumn(rows) != []
    ensures !Changed(rows[0]) ==> BeforeColumn(rows) != []
  {
    assert WellFormed(rows[0]);
    if Changed(rows[0]) {
      EmptySideStaysEmpty(rows);
    }
  }

  lemma SameTail(head: seq<Marked>, a: seq<Marked>, b: seq<Marked>)
    ensures head + a == head + b ==> a == b
  {
    assert a == (head + a)[|head|..] && b == (head + b)[|head|..];
  }

  /** The two columns leave no choice: there is one well-laid view of them. */
  lemma {:induction false} OneLayout(a: seq<DiffRow>, b: seq<DiffRow>)
    requires WellLaid(a) && WellLaid(b) && BeforeColumn(a) == BeforeColumn(b) && AfterColumn(a) == AfterColumn(b)
    ensures a == b
  {
    if a != [] {
      HeadDecides(a);
    }
    if b != [] {
      HeadDecides(b);
    }
    if a != [] && b != [] {
      SameTail(BeforeOf(a[0]), BeforeColumn(a[1..]), BeforeColumn(b[1..]));
      SameTail(AfterOf(a[0]), AfterColumn(a[1..]), AfterColumn(b[1..]));
      TailLaid(a);
      TailLaid(b);
      hide BeforeOf, AfterOf, WellLaid;
      OneLayout(a[1..], b[1..]);
    }
  }

  lemma TailLaid(rows: seq<DiffRow>)
    requires WellLaid(rows) && rows != []
    ensures WellLaid(rows[1..]) && rows == [rows[0]] + rows[1..]
  {
  }

  /*** Columns of a longer view, marks of a longer script ***/

  lemma {:induction false} BeforeAppends(a: seq<DiffRow>, b: seq<DiffRow>)
    ensures BeforeColumn(a + b) == BeforeColumn(a) + BeforeColumn(b)
  {
    hide BeforeOf;
    if a == [] {
      assert a + b == b;
    } else {
      BeforeAppends(a[1..], b);
      assert (a + b)[0] == a[0] && (a + b)[1..] == a[1..] + b;
      Associates(BeforeOf(a[0]), BeforeColumn(a[1..]), BeforeColumn(b));
    }
  }

  lemma {:induction false} AfterAppends(a: seq<DiffRow>, b: seq<DiffRow>)
    ensures AfterColumn(a + b) == AfterColumn(a) + AfterColumn(b)
  {
    hide AfterOf;
    if a == [] {
      assert a + b == b;
    } else {
      AfterAppends(a[1..], b);
      assert (a + b)[0] == a[0] && (a + b)[1..] == a[1..] + b;
      Associates(AfterOf(a[0]), AfterColumn(a[1..]), AfterColumn(b));
    }
  }

  lemma {:induction false} OriginAppends(a: seq<DiffLine>, b: seq<DiffLine>)
    ensures OriginMarks(a + b) == OriginMarks(a) + OriginMarks(b)
  {
    hide OriginMark;
    if a == [] {
      assert a + b == b;
    } else {
      OriginAppends(a[1..], b);
      assert (a + b)[0] == a[0] && (a + b)[1..] == a[1..] + b;
      Associates(OriginMark(a[0]), OriginMarks(a[1..]), OriginMarks(b));
    }
  }

  lemma {:induction false} TargetAppends(a: seq<DiffLine>, b: seq<DiffLine>)
    ensures TargetMarks(a + b) == TargetMarks(a) + TargetMarks(b)
  {
    hide TargetMark;
    if a == [] {
      assert a + b == b;
    } else {
      TargetAppends(a[1..], b);
      assert (a + b)[0] == a[0] && (a + b)[1..] == a[1..] + b;
      Associates(TargetMark(a[0]), TargetMarks(a[1..]), TargetMarks(b));
    }
  }

  lemma TextsOf(marks: seq<Marked>, more: seq<Marked>)
    ensures Texts(marks + more) == Texts(marks) + Texts(more)
  {
  }

  lemma {:induction false} MarksSpell(script: seq<DiffLine>)
    ensures Texts(OriginMarks(script)) == Origin(script) && Texts(TargetMarks(script)) == Target(script)
  {
    if script != [] {
      MarksSpell(script[1..]);
      MarkSpells(script[0]);
      TextsOf(OriginMark(script[0]), OriginMarks(script[1..]));
      TextsOf(TargetMark(script[0]), TargetMarks(script[1..]));
      hide OriginMark, TargetMark, Texts;
    }
  }

  lemma MarkSpells(e: DiffLine)
    ensures Texts(OriginMark(e)) == if e.kind.Add? then [] else [e.line]
    ensures Texts(TargetMark(e)) == if e.kind.Remove? then [] else [e.line]
  {
  }

  function Highlighted(lines: seq<string>): seq<Marked> {
    seq(|lines|, i requires 0 <= i < |lines| => Marked(lines[i], true))
  }

  /** Removed and added lines side by side, the shorter side filled up with nothing. */
  function Paired(removed: seq<string>, added: seq<string>): seq<DiffRow> {
    seq(Max(|removed|, |added|), i requires 0 <= i < Max(|removed|, |added|) => PairAt(removed, added, i))
  }

  function PairAt(removed: seq<string>, added: seq<string>, i: nat): DiffRow {
    DiffRow(
      if i < |removed| then Some(removed[i]) else None,
      if i < |added| then Some(added[i]) else None,
      i < |removed|, i < |added|)
  }

  lemma PairedUnfolds(removed: seq<string>, added: seq<string>)
    requires removed != [] || added != []
    ensures Paired(removed, added) == [PairAt(removed, added, 0)] + Paired(Rest(removed), Rest(added))
  {
  }

  function Rest(lines: seq<string>): seq<string> {
    if lines == [] then [] else lines[1..]
  }

  lemma HighlightedUnfolds(lines: seq<string>)
    ensures Highlighted(lines) == (if lines == [] then [] else [Marked(lines[0], true)]) + Highlighted(Rest(lines))
  {
  }

  lemma {:induction false} PairedColumns(removed: seq<string>, added: seq<string>)
    ensures BeforeColumn(Paired(removed, added)) == Highlighted(removed)
    ensures AfterColumn(Paired(removed, added)) == Highlighted(added)
    decreases |removed| + |added|
  {
    if removed != [] || added != [] {
      hide Paired, Highlighted;
      var row := PairAt(removed, added, 0);
      PairedColumns(Rest(removed), Rest(added));
      PairedUnfolds(removed, added);
      HighlightedUnfolds(removed);
      HighlightedUnfolds(added);
      assert Paired(removed, added)[1..] == Paired(Rest(removed), Rest(added));
    }
  }

  lemma PairedLaid(rows: seq<DiffRow>, removed: seq<string>, added: seq<string>)
    requires WellLaid(rows) && (rows == [] || !Changed(rows[|rows| - 1]))
    ensures WellLaid(rows + Paired(removed, added))
  {
  }

  lemma MatchLaid(rows: seq<DiffRow>, line: string)
    requires WellLaid(rows)
    ensures WellLaid(rows + [DiffRow(Some(line), Some(line), false, false)])
  {
  }

  /*** Building the view ***/

  method Flush(rows: seq<DiffRow>, removed: seq<string>, added: seq<string>) returns (more: seq<DiffRow>)
    ensures more == rows + Paired(removed, added)
  {
    more := rows;
    var count := Max(|removed|, |added|);
    for index := 0 to count
      invariant more == rows + Paired(removed, added)[..index]
    {
      more := more + [DiffRow(
        if index < |removed| then Some(removed[index]) else None,
        if index < |added| then Some(added[index]) else None,
        index < |removed|, index < |added|)];
    }
  }

  /** What has been laid out, with the lines that wait to be paired, shows the script. */
  predicate Laid(rows: seq<DiffRow>, removed: seq<string>, added: seq<string>, script: seq<DiffLine>) {
    && WellLaid(rows) && (rows == [] || !Changed(rows[|rows| - 1]))
    && BeforeColumn(rows) + Highlighted(removed) == OriginMarks(script)
    && AfterColumn(rows) + Highlighted(added) == TargetMarks(script)
  }

  /** The columns are the two texts, with exactly the removed and the added lines highlighted. */
  method SideBySideRows(before: string, after: string) returns (rows: seq<DiffRow>)
    ensures WellLaid(rows)
    ensures BeforeColumn(rows) == OriginMarks(Diff(before, after)) && Texts(BeforeColumn(rows)) == Lines(before)
    ensures AfterColumn(rows) == TargetMarks(Diff(before, after)) && Texts(AfterColumn(rows)) == Lines(after)
  {
    hide Diff, Laid, WellLaid, OriginMarks, TargetMarks, BeforeColumn, AfterColumn, Texts, Paired, Highlighted;
    var script := DiffConfig(before, after);
    var removed, added := [], [];
    rows := [];
    NothingLaid();
    for k := 0 to |script|
      invariant Laid(rows, removed, added, script[..k])
    {
      var entry := script[k];
      assert script[..k + 1] == script[..k] + [entry];
      OneMoreLaid(rows, removed, added, script[..k], entry);
      if entry.kind.Remove? {
        removed := removed + [entry.line];
      } else if entry.kind.Add? {
        added := added + [entry.line];
      } else {
        rows := Flush(rows, removed, added);
        rows := rows + [DiffRow(Some(entry.line), Some(entry.line), false, false)];
        removed, added := [], [];
      }
    }
    assert script[..|script|] == script;
    AllLaid(rows, removed, added, script);
    rows := Flush(rows, removed, added);
    MarksSpell(script);
  }

  lemma NothingLaid()
    ensures Laid([], [], [], [])
  {
  }

  lemma OneMoreLaid(rows: seq<DiffRow>, removed: seq<string>, added: seq<string>, script: seq<DiffLine>, e: DiffLine)
    requires Laid(rows, removed, added, script)
    ensures
      if e.kind.Remove? then Laid(rows, removed + [e.line], added, script + [e])
      else if e.kind.Add? then Laid(rows, removed, added + [e.line], script + [e])
      else Laid(rows + Paired(removed, added) + [DiffRow(Some(e.line), Some(e.line), false, false)], [], [], script + [e])
  {
    hide WellLaid, OriginMarks, TargetMarks, BeforeColumn, AfterColumn, Paired, Highlighted;
    NextMarks(script, e);
    if e.kind.Remove? {
      OneMoreHighlighted(removed, e.line);
    } else if e.kind.Add? {
      OneMoreHighlighted(added, e.line);
    } else {
      Flushed(rows, removed, added);
      MatchShown(rows + Paired(removed, added), e.line);
    }
  }

  lemma AllLaid(rows: seq<DiffRow>, removed: seq<string>, added: seq<string>, script: seq<DiffLine>)
    requires Laid(rows, removed, added, script)
    ensures
      var all := rows + Paired(removed, added);
      WellLaid(all) && BeforeColumn(all) == OriginMarks(script) && AfterColumn(all) == TargetMarks(script)
  {
    hide WellLaid, OriginMarks, TargetMarks, BeforeColumn, AfterColumn, Paired, Highlighted;
    Flushed(rows, removed, added);
  }

  lemma NextMarks(script: seq<DiffLine>, e: DiffLine)
    ensures OriginMarks(script + [e]) == OriginMarks(script) + OriginMark(e)
    ensures TargetMarks(script + [e]) == TargetMarks(script) + TargetMark(e)
  {
    OriginAppends(script, [e]);
    TargetAppends(script, [e]);
    assert [e][1..] == [];
  }

  lemma OneMoreHighlighted(lines: seq<string>, line: string)
    ensures Highlighted(lines + [line]) == Highlighted(lines) + [Marked(line, true)]
  {
  }

  lemma Flushed(rows: seq<DiffRow>, removed: seq<string>, added: seq<string>)
    requires WellLaid(rows) && (rows == [] || !Changed(rows[|rows| - 1]))
    ensures
      var more := rows + Paired(removed, added);
      && WellLaid(more)
      && BeforeColumn(more) == BeforeColumn(rows) + Highlighted(removed)
      && AfterColumn(more) == AfterColumn(rows) + Highlighted(added)
  {
    hide WellLaid, BeforeColumn, AfterColumn, Paired, Highlighted;
    PairedLaid(rows, removed, added);
    BeforeAppends(rows, Paired(removed, added));
    AfterAppends(rows, Paired(removed, added));
    PairedColumns(removed, added);
  }

  lemma MatchShown(rows: seq<DiffRow>, line: string)
    requires WellLaid(rows)
    ensures
      var more := rows + [DiffRow(Some(line), Some(line), false, false)];
      && WellLaid(more) && !Changed(more[|more| - 1])
      && BeforeColumn(more) == BeforeColumn(rows) + [Marked(line, false)]
      && AfterColumn(more) == AfterColumn(rows) + [Marked(line, false)]
      && Highlighted([]) == []
  {
    var row := DiffRow(Some(line), Some(line), false, false);
    BeforeAppends(rows, [row]);
    AfterAppends(rows, [row]);
    assert [row][1..] == [];
    hide BeforeColumn, AfterColumn, WellLaid;
    MatchLaid(rows, line);
  }
}
