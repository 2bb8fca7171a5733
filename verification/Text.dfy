/** Cutting a text at every occurrence of one character, and trimming it. */
module Text {

  function Split(text: string, mark: char): (pieces: seq<string>)
    ensures pieces != []
  {
    if text == "" then [""]
    else
      var rest := Split(text[1..], mark);
      if text[0] == mark then [""] + rest else [[text[0]] + rest[0]] + rest[1..]
  }

  function Join(pieces: seq<string>, mark: char): string
    requires pieces != []
  {
    if |pieces| == 1 then pieces[0] else pieces[0] + [mark] + Join(pieces[1..], mark)
  }

  /** Splitting loses nothing, and no piece holds the mark. */
  lemma {:induction false} JoinSplit(text: string, mark: char)
    ensures Join(Split(text, mark), mark) == text
    ensures forall k :: 0 <= k < |Split(text, mark)| ==> mark !in Split(text, mark)[k]
  {
    if text != "" {
      JoinSplit(text[1..], mark);
      var rest := Split(text[1..], mark);
      if text[0] == mark {
        assert ([""] + rest)[1..] == rest;
      } else {
        var pieces := [[text[0]] + rest[0]] + rest[1..];
        assert pieces[1..] == rest[1..];
        assert text == [text[0]] + text[1..];
      }
    }
  }

  lemma {:induction false} SplitCut(piece: string, mark: char, rest: string)
    requires mark !in piece
    ensures Split(piece + [mark] + rest, mark) == [piece] + Split(rest, mark)
  {
    var text := piece + [mark] + rest;
    if piece == "" {
      assert text[1..] == rest;
    } else {
      assert text[1..] == piece[1..] + [mark] + rest;
      SplitCut(piece[1..], mark, rest);
      assert [piece[0]] + piece[1..] == piece;
    }
  }

  lemma {:induction false} SplitUncut(text: string, mark: char)
    requires mark !in text
    ensures Split(text, mark) == [text]
  {
    if text != "" {
      SplitUncut(text[1..], mark);
      assert [text[0]] + text[1..] == text;
    }
  }

  /** Pieces without the mark are what joining and splitting gives back. */
  lemma {:induction false} SplitJoin(pieces: seq<string>, mark: char)
    requires pieces != [] && forall k :: 0 <= k < |pieces| ==> mark !in pieces[k]
    ensures Split(Join(pieces, mark), mark) == pieces
    decreases |pieces|
  {
    if |pieces| == 1 {
      SplitUncut(pieces[0], mark);
    } else {
      SplitJoin(pieces[1..], mark);
      SplitCut(pieces[0], mark, Join(pieces[1..], mark));
    }
  }

  predicate IsSpace(c: char) {
    c == ' ' || '\t' <= c <= '\r'
  }

  function StripLeft(s: string): string {
    if s != "" && IsSpace(s[0]) then StripLeft(s[1..]) else s
  }

  function StripRight(s: string): string {
    if s != "" && IsSpace(s[|s| - 1]) then StripRight(s[..|s| - 1]) else s
  }

  function Strip(s: string): string {
    StripRight(StripLeft(s))
  }

  predicate AllSpace(s: string) {
    forall c :: c in s ==> IsSpace(c)
  }

  /** No white space at either end. */
  predicate Trimmed(s: string) {
    s == "" || (!IsSpace(s[0]) && !IsSpace(s[|s| - 1]))
  }

  lemma {:induction false} StripLeftOf(left: string, rest: string)
    requires AllSpace(left) && (rest == "" || !IsSpace(rest[0]))
    ensures StripLeft(left + rest) == rest
  {
    if left == "" {
      assert left + rest == rest;
    } else {
      assert left[0] in left;
      assert (left + rest)[1..] == left[1..] + rest;
      StripLeftOf(left[1..], rest);
    }
  }

  lemma {:induction false} StripRightOf(front: string, right: string)
    requires AllSpace(right) && (front == "" || !IsSpace(front[|front| - 1]))
    ensures StripRight(front + right) == front
  {
    if right == "" {
      assert front + right == front;
    } else {
      var s := front + right;
      assert right[|right| - 1] in right && s[|s| - 1] == right[|right| - 1];
      assert s[..|s| - 1] == front + right[..|right| - 1];
      StripRightOf(front, right[..|right| - 1]);
    }
  }

  /** Stripping takes exactly the white space off both ends. */
  lemma StripExactly(left: string, core: string, right: string)
    requires AllSpace(left) && AllSpace(right) && Trimmed(core)
    ensures Strip(left + core + right) == core
  {
    if core == "" {
      assert left + core + right == left + right + "" && AllSpace(left + right);
      StripLeftOf(left + right, "");
      assert StripRight("") == "";
    } else {
      assert left + core + right == left + (core + right);
      StripLeftOf(left, core + right);
      StripRightOf(core, right);
    }
  }

  lemma {:induction false} LeftEnd(s: string) returns (left: string)
    ensures AllSpace(left) && s == left + StripLeft(s) && (StripLeft(s) == "" || !IsSpace(StripLeft(s)[0]))
  {
    left := "";
    if s != "" && IsSpace(s[0]) {
      var more := LeftEnd(s[1..]);
      left := [s[0]] + more;
      assert s == [s[0]] + s[1..];
    }
  }

  lemma {:induction false} RightEnd(s: string) returns (right: string)
    ensures AllSpace(right) && s == StripRight(s) + right
    ensures StripRight(s) == "" || (!IsSpace(StripRight(s)[|StripRight(s)| - 1]) && StripRight(s)[0] == s[0])
  {
    right := "";
    if s != "" && IsSpace(s[|s| - 1]) {
      var more := RightEnd(s[..|s| - 1]);
      right := more + [s[|s| - 1]];
      assert s == s[..|s| - 1] + [s[|s| - 1]];
    }
  }

  /** Every text is what stripping leaves of it, between white space. */
  lemma StripDivides(s: string) returns (left: string, right: string)
    ensures AllSpace(left) && AllSpace(right) && Trimmed(Strip(s)) && s == left + Strip(s) + right
  {
    left := LeftEnd(s);
    right := RightEnd(StripLeft(s));
  }
}
