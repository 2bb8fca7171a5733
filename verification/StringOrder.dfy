/** The order of strings by code point, and the names of a set in that order. */
module StringOrder {
  import opened Sorting

  predicate Precedes(a: string, b: string) {
    b != "" && (a == "" || a[0] < b[0] || (a[0] == b[0] && Precedes(a[1..], b[1..])))
  }

  /** Up to `i` the two agree; there `a` has ended, or has the smaller character. */
  predicate DiffersAt(a: string, b: string, i: int) {
    0 <= i <= |a| && i < |b| && a[..i] == b[..i] && (i == |a| || a[i] < b[i])
  }

  /** A string precedes another exactly if it is a part of its beginning, or has the smaller character where they first differ. */
  lemma {:induction false} PrecedesExactly(a: string, b: string)
    ensures Precedes(a, b) <==> exists i :: DiffersAt(a, b, i)
  {
    if a == "" || b == "" || a[0] != b[0] {
      assert b != "" && (a == "" || a[0] < b[0]) ==> DiffersAt(a, b, 0);
      assert forall i :: DiffersAt(a, b, i) && i > 0 ==> a[..i][0] == b[..i][0];
    } else {
      PrecedesExactly(a[1..], b[1..]);
      if i :| DiffersAt(a[1..], b[1..], i) {
        assert a[..i + 1] == [a[0]] + a[1..][..i] && b[..i + 1] == [b[0]] + b[1..][..i];
        assert DiffersAt(a, b, i + 1);
      }
      if i :| DiffersAt(a, b, i) {
        assert i > 0;
        assert a[1..][..i - 1] == a[..i][1..] && b[1..][..i - 1] == b[..i][1..];
        assert DiffersAt(a[1..], b[1..], i - 1);
      }
    }
  }

  lemma {:induction false} PrecedesIsTotal(a: string, b: string)
    ensures Precedes(a, b) || a == b || Precedes(b, a)
    ensures !(Precedes(a, b) && Precedes(b, a))
    ensures a == b ==> !Precedes(a, b)
  {
    if a != "" && b != "" {
      PrecedesIsTotal(a[1..], b[1..]);
      assert a == [a[0]] + a[1..] && b == [b[0]] + b[1..];
    }
  }

  lemma {:induction false} PrecedesIsTransitive(a: string, b: string, c: string)
    requires Precedes(a, b) && Precedes(b, c)
    ensures Precedes(a, c)
  {
    if a != "" && a[0] == b[0] && b[0] == c[0] {
      PrecedesIsTransitive(a[1..], b[1..], c[1..]);
    }
  }

  lemma NotAfterIsTransitive(a: string, b: string, c: string)
    requires !Precedes(b, a) && !Precedes(c, b)
    ensures !Precedes(c, a)
  {
    PrecedesIsTotal(a, b);
    if Precedes(c, a) && a != b {
      PrecedesIsTransitive(c, a, b);
    }
  }

  function NameOrder(): (string, string) -> bool {
    (a: string, b: string) => Precedes(a, b)
  }

  lemma NamesAreOrdered()
    ensures StrictOrder(NameOrder())
  {
    forall a: string, b: string, c: string
      ensures Precedes(a, b) || a == b || Precedes(b, a)
      ensures Precedes(a, b) ==> a != b && !Precedes(b, a)
      ensures Precedes(a, b) && Precedes(b, c) ==> Precedes(a, c)
    {
      PrecedesIsTotal(a, b);
      if Precedes(a, b) && Precedes(b, c) {
        PrecedesIsTransitive(a, b, c);
      }
    }
  }

  /** `sorted` over names. */
  function SortedNames(names: set<string>): (s: seq<string>)
    ensures forall name :: name in s <==> name in names
    ensures forall i, j :: 0 <= i < j < |s| ==> Precedes(s[i], s[j])
  {
    NamesAreOrdered();
    Sorted(NameOrder(), names)
  }

  /** Among these names none precedes this one. */
  predicate FirstName(names: set<string>, name: string) {
    name in names && forall other :: other in names ==> other == name || Precedes(name, other)
  }

  lemma SortedNamesFirst(names: set<string>, name: string)
    requires FirstName(names, name)
    ensures SortedNames(names) == [name] + SortedNames(names - {name})
  {
    NamesAreOrdered();
    assert IsFirst(NameOrder(), name, names);
    SortedFirst(NameOrder(), name, names);
  }

  lemma SortedNamesSize(names: set<string>)
    ensures |SortedNames(names)| == |names|
  {
    NamesAreOrdered();
    SortedSize(NameOrder(), names);
  }
}
