/** The configuration diff: a longest-common-subsequence table filled in place, and the walk through it. */
module ConfigDiff {
  import opened Text

  datatype Kind = Same | Add | Remove

  datatype DiffLine = DiffLine(kind: Kind, line: string)

  /*** Edit scripts ***/

  /** The lines a script keeps or removes: the text it starts from. */
  function Origin(script: seq<DiffLine>): seq<string> {
    if script == [] then []
    else (if script[0].kind.Add? then [] else [script[0].line]) + Origin(script[1..])
  }

  /** The lines a script keeps or adds: the text it arrives at. */
  function Target(script: seq<DiffLine>): seq<string> {
    if script == [] then []
    else (if script[0].kind.Remove? then [] else [script[0].line]) + Target(script[1..])
  }

  function Kept(script: seq<DiffLine>): nat {
    if script == [] then 0
    else (if script[0].kind.Same? then 1 else 0) + Kept(script[1..])
  }

  predicate Edits(script: seq<DiffLine>, left: seq<string>, right: seq<string>) {
    Origin(script) == left && Target(script) == right
  }

  /*** The table and the walk, as functions ***/

  /** The length of the longest common subsequence of `left[i..]` and `right[j..]`. */
  function Lcs(left: seq<string>, right: seq<string>, i: nat, j: nat): nat
    requires i <= |left| && j <= |right|
    decreases |left| - i + |right| - j
  {
    if i == |left| || j == |right| then 0
    else if left[i] == right[j] then Lcs(left, right, i + 1, j + 1) + 1
    else Max(Lcs(left, right, i + 1, j), Lcs(left, right, i, j + 1))
  }

  function Max(a: nat, b: nat): nat {
    if a >= b then a else b
  }

  /** The script from here on: matches first, removals before additions where they cost the same. */
  function Walk(left: seq<string>, right: seq<string>, i: nat, j: nat): seq<DiffLine>
    requires i <= |left| && j <= |right|
    decreases |left| - i + |right| - j
  {
    if i == |left| && j == |right| then []
    else if i < |left| && j < |right| && left[i] == right[j] then [DiffLine(Same, left[i])] + Walk(left, right, i + 1, j + 1)
    else if j == |right| || (i < |left| && Lcs(left, right, i + 1, j) >= Lcs(left, right, i, j + 1))
    then [DiffLine(Remove, left[i])] + Walk(left, right, i + 1, j)
    else [DiffLine(Add, right[j])] + Walk(left, right, i, j + 1)
  }

  function Lines(text: string): seq<string> {
    Split(text, '\n')
  }

  /** The lines are the pieces between line feeds: with line feeds put back they are the text, and none holds one. */
  lemma LinesExactly(text: string)
    ensures Lines(text) != [] && Join(Lines(text), '\n') == text
    ensures forall k :: 0 <= k < |Lines(text)| ==> '\n' !in Lines(text)[k]
  {
    JoinSplit(text, '\n');
  }

  /** No other pieces do. */
  lemma LinesAreAll(pieces: seq<string>)
    requires pieces != [] && forall k :: 0 <= k < |pieces| ==> '\n' !in pieces[k]
    ensures Lines(Join(pieces, '\n')) == pieces
  {
    SplitJoin(pieces, '\n');
  }

  function Diff(before: string, after: string): seq<DiffLine> {
    Walk(Lines(before), Lines(after), 0, 0)
  }

  /*** The walk is an edit script that keeps as much as any can ***/

  lemma Prepended(e: DiffLine, script: seq<DiffLine>)
    ensures Origin([e] + script) == (if e.kind.Add? then [] else [e.line]) + Origin(script)
    ensures Target([e] + script) == (if e.kind.Remove? then [] else [e.line]) + Target(script)
    ensures Kept([e] + script) == (if e.kind.Same? then 1 else 0) + Kept(script)
  {
    assert ([e] + script)[1..] == script;
  }

  lemma {:induction false} WalkEdits(left: seq<string>, right: seq<string>, i: nat, j: nat)
    requires i <= |left| && j <= |right|
    ensures Edits(Walk(left, right, i, j), left[i..], right[j..])
    ensures Kept(Walk(left, right, i, j)) == Lcs(left, right, i, j)
    decreases |left| - i + |right| - j
  {
    hide Origin, Target, Kept;
    assert i < |left| ==> left[i..] == [left[i]] + left[i + 1..];
    assert j < |right| ==> right[j..] == [right[j]] + right[j + 1..];
    if i < |left| && j < |right| && left[i] == right[j] {
      WalkEdits(left, right, i + 1, j + 1);
      Prepended(DiffLine(Same, left[i]), Walk(left, right, i + 1, j + 1));
    } else if i < |left| && (j == |right| || Lcs(left, right, i + 1, j) >= Lcs(left, right, i, j + 1)) {
      WalkEdits(left, right, i + 1, j);
      Prepended(DiffLine(Remove, left[i]), Walk(left, right, i + 1, j));
    } else if j < |right| {
      WalkEdits(left, right, i, j + 1);
      Prepended(DiffLine(Add, right[j]), Walk(left, right, i, j + 1));
    } else {
      NothingLeft();
    }
  }

  lemma NothingLeft()
    ensures Origin([]) == [] && Target([]) == [] && Kept([]) == 0
  {
  }

  /** Giving up one line costs at most one match, so taking a match is never a loss. */
  lemma {:induction false} OneLineOneMatch(left: seq<string>, right: seq<string>, i: nat, j: nat)
    requires i <= |left| && j <= |right|
    ensures i < |left| ==> Lcs(left, right, i + 1, j) <= Lcs(left, right, i, j) <= Lcs(left, right, i + 1, j) + 1
    ensures j < |right| ==> Lcs(left, right, i, j + 1) <= Lcs(left, right, i, j) <= Lcs(left, right, i, j + 1) + 1
    decreases |left| - i + |right| - j
  {
    if i < |left| && j < |right| {
      OneLineOneMatch(left, right, i + 1, j);
      OneLineOneMatch(left, right, i, j + 1);
      OneLineOneMatch(left, right, i + 1, j + 1);
    }
  }

  /** No edit script between the two texts keeps more lines than the table says. */
  lemma {:induction false} NoScriptKeepsMore(script: seq<DiffLine>, left: seq<string>, right: seq<string>, i: nat, j: nat)
    requires i <= |left| && j <= |right| && Edits(script, left[i..], right[j..])
    ensures Kept(script) <= Lcs(left, right, i, j)
    decreases |script|
  {
    if script != [] {
      var a := if script[0].kind.Add? then i else i + 1;
      var b := if script[0].kind.Remove? then j else j + 1;
      assert a > i ==> left[i..][0] == script[0].line && left[i..][1..] == left[a..];
      assert b > j ==> right[j..][0] == script[0].line && right[j..][1..] == right[b..];
      assert Origin(script[1..]) == left[a..] && Target(script[1..]) == right[b..];
      NoScriptKeepsMore(script[1..], left, right, a, b);
      OneLineOneMatch(left, right, i, j);
    }
  }

  /** A script is as long as its two texts together, less the lines it keeps. */
  lemma {:induction false} ScriptLength(script: seq<DiffLine>)
    ensures |script| + Kept(script) == |Origin(script)| + |Target(script)|
  {
    if script != [] {
      ScriptLength(script[1..]);
    }
  }

  /** The diff of two texts turns one into the other, and no script that does so keeps more lines or is shorter. */
  lemma DiffIsMinimal(before: string, after: string, script: seq<DiffLine>)
    ensures Edits(Diff(before, after), Lines(before), Lines(after))
    ensures
      var diff := Diff(before, after);
      Edits(script, Lines(before), Lines(after)) ==> Kept(script) <= Kept(diff) && |diff| <= |script|
  {
    var left, right := Lines(before), Lines(after);
    assert left[0..] == left && right[0..] == right;
    WalkEdits(left, right, 0, 0);
    if Edits(script, left, right) {
      NoScriptKeepsMore(script, left, right, 0, 0);
      ScriptLength(script);
      ScriptLength(Diff(before, after));
    }
  }

  function Rank(k: Kind): nat {
    match k
    case Same => 0
    case Remove => 1
    case Add => 2
  }

  /** Where they first differ, `a` keeps a line, or removes one where `b` adds one. */
  predicate Sooner(a: seq<DiffLine>, b: seq<DiffLine>) {
    a == [] || (b != [] && (Rank(a[0].kind) < Rank(b[0].kind) || (a[0] == b[0] && Sooner(a[1..], b[1..]))))
  }

  /** What a script does first and what is left of it, when it keeps as many lines as any. */
  lemma FirstEdit(script: seq<DiffLine>, left: seq<string>, right: seq<string>, i: nat, j: nat) returns (a: nat, b: nat)
    requires i <= |left| && j <= |right| && Edits(script, left[i..], right[j..])
    requires Kept(script) == Lcs(left, right, i, j) && (i < |left| || j < |right|)
    ensures script != []
    ensures a == (if script[0].kind.Add? then i else i + 1) && b == (if script[0].kind.Remove? then j else j + 1)
    ensures a <= |left| && b <= |right| && Edits(script[1..], left[a..], right[b..]) && Kept(script[1..]) == Lcs(left, right, a, b)
    ensures script[0] ==
      match script[0].kind {
        case Add => DiffLine(Add, right[j])
        case Remove => DiffLine(Remove, left[i])
        case Same => DiffLine(Same, left[i])
      }
    ensures script[0].kind.Same? ==> left[i] == right[j]
  {
    assert script != [];
    a := if script[0].kind.Add? then i else i + 1;
    b := if script[0].kind.Remove? then j else j + 1;
    assert a > i ==> Origin(script)[0] == script[0].line == left[i..][0] && left[i..][1..] == left[a..];
    assert b > j ==> Target(script)[0] == script[0].line == right[j..][0] && right[j..][1..] == right[b..];
    assert Origin(script[1..]) == left[a..] && Target(script[1..]) == right[b..];
    NoScriptKeepsMore(script[1..], left, right, a, b);
    OneLineOneMatch(left, right, i, j);
  }

  lemma {:induction false} WalkIsFirst(script: seq<DiffLine>, left: seq<string>, right: seq<string>, i: nat, j: nat)
    requires i <= |left| && j <= |right| && Edits(script, left[i..], right[j..])
    requires Kept(script) == Lcs(left, right, i, j)
    ensures Sooner(Walk(left, right, i, j), script)
    decreases |script|
  {
    if i < |left| || j < |right| {
      hide Edits, Kept;
      var a, b := FirstEdit(script, left, right, i, j);
      OneLineOneMatch(left, right, i, j);
      WalkIsFirst(script[1..], left, right, a, b);
    }
  }

  /**
   * Of all shortest scripts between the texts the diff is the first: it keeps a line wherever one of them
   * can, and removes before it adds. There is no other such script.
   */
  lemma DiffIsFirst(before: string, after: string, script: seq<DiffLine>)
    requires Edits(script, Lines(before), Lines(after)) && |script| == |Diff(before, after)|
    ensures Sooner(Diff(before, after), script)
    ensures Sooner(script, Diff(before, after)) ==> script == Diff(before, after)
  {
    var left, right := Lines(before), Lines(after);
    assert left[0..] == left && right[0..] == right;
    WalkEdits(left, right, 0, 0);
    ScriptLength(script);
    ScriptLength(Diff(before, after));
    WalkIsFirst(script, left, right, 0, 0);
    if Sooner(script, Diff(before, after)) {
      SoonerBothWays(script, Diff(before, after));
    }
  }

  lemma {:induction false} SoonerBothWays(a: seq<DiffLine>, b: seq<DiffLine>)
    requires |a| == |b| && Sooner(a, b) && Sooner(b, a)
    ensures a == b
    decreases |a|
  {
    if a != [] {
      SoonerBothWays(a[1..], b[1..]);
      assert a == [a[0]] + a[1..] && b == [b[0]] + b[1..];
    }
  }

  /*** The table and the walk, in place ***/

  method FillRow(left: seq<string>, right: seq<string>, i: nat, matrix: array2<nat>)
    requires i < |left| && matrix.Length0 == |left| + 1 && matrix.Length1 == |right| + 1
    requires forall a, b :: i < a <= |left| && 0 <= b <= |right| ==> matrix[a, b] == Lcs(left, right, a, b)
    requires matrix[i, |right|] == 0
    modifies matrix
    ensures forall b :: 0 <= b <= |right| ==> matrix[i, b] == Lcs(left, right, i, b)
    ensures forall a, b :: 0 <= a <= |left| && 0 <= b <= |right| && a != i ==> matrix[a, b] == old(matrix[a, b])
  {
    for j := |right| downto 0
      invariant forall b :: j <= b <= |right| ==> matrix[i, b] == Lcs(left, right, i, b)
      invariant forall a, b :: 0 <= a <= |left| && 0 <= b <= |right| && a != i ==> matrix[a, b] == old(matrix[a, b])
    {
      matrix[i, j] := if left[i] == right[j] then matrix[i + 1, j + 1] + 1 else Max(matrix[i + 1, j], matrix[i, j + 1]);
    }
  }

  /** Every entry is the length of a longest common subsequence. */
  ghost predicate Filled(matrix: array2<nat>, left: seq<string>, right: seq<string>)
    reads matrix
  {
    && matrix.Length0 == |left| + 1 && matrix.Length1 == |right| + 1
    && forall a, b :: 0 <= a <= |left| && 0 <= b <= |right| ==> matrix[a, b] == Lcs(left, right, a, b)
  }

  method FillMatrix(left: seq<string>, right: seq<string>) returns (matrix: array2<nat>)
    ensures fresh(matrix) && Filled(matrix, left, right)
  {
    matrix := new nat[|left| + 1, |right| + 1]((_, _) => 0);
    for i := |left| downto 0
      invariant forall a, b :: i <= a <= |left| && 0 <= b <= |right| ==> matrix[a, b] == Lcs(left, right, a, b)
      invariant forall a :: 0 <= a < i ==> matrix[a, |right|] == 0
    {
      FillRow(left, right, i, matrix);
    }
  }

  /** What the walk does next, put after what it has done. */
  lemma WalkOn(left: seq<string>, right: seq<string>, i: nat, j: nat, done: seq<DiffLine>)
    requires i <= |left| && j <= |right|
    ensures
      var all := done + Walk(left, right, i, j);
      if i == |left| && j == |right| then all == done
      else if i < |left| && j < |right| && left[i] == right[j]
      then all == done + [DiffLine(Same, left[i])] + Walk(left, right, i + 1, j + 1)
      else if j == |right| || (i < |left| && Lcs(left, right, i + 1, j) >= Lcs(left, right, i, j + 1))
      then all == done + [DiffLine(Remove, left[i])] + Walk(left, right, i + 1, j)
      else all == done + [DiffLine(Add, right[j])] + Walk(left, right, i, j + 1)
  {
  }

  method DiffConfig(before: string, after: string) returns (result: seq<DiffLine>)
    ensures result == Diff(before, after)
    ensures Edits(result, Lines(before), Lines(after)) && Kept(result) == Lcs(Lines(before), Lines(after), 0, 0)
  {
    hide Walk, Lcs, Edits;
    var left, right := Lines(before), Lines(after);
    var matrix := FillMatrix(left, right);
    result := [];
    var i, j := 0, 0;
    while i < |left| && j < |right|
      invariant i <= |left| && j <= |right|
      invariant Filled(matrix, left, right)
      invariant result + Walk(left, right, i, j) == Diff(before, after)
      decreases |left| - i + |right| - j
    {
      WalkOn(left, right, i, j, result);
      if left[i] == right[j] {
        result := result + [DiffLine(Same, left[i])];
        i, j := i + 1, j + 1;
      } else if matrix[i + 1, j] >= matrix[i, j + 1] {
        result := result + [DiffLine(Remove, left[i])];
        i := i + 1;
      } else {
        result := result + [DiffLine(Add, right[j])];
        j := j + 1;
      }
    }
    while i < |left|
      invariant i <= |left| && j <= |right| && (i == |left| || j == |right|)
      invariant result + Walk(left, right, i, j) == Diff(before, after)
    {
      WalkOn(left, right, i, j, result);
      result := result + [DiffLine(Remove, left[i])];
      i := i + 1;
    }
    while j < |right|
      invariant i == |left| && j <= |right|
      invariant result + Walk(left, right, i, j) == Diff(before, after)
    {
      WalkOn(left, right, i, j, result);
      result := result + [DiffLine(Add, right[j])];
      j := j + 1;
    }
    WalkOn(left, right, i, j, result);
    assert left[0..] == left && right[0..] == right;
    WalkEdits(left, right, 0, 0);
  }
}
