/** Sorting the elements of a set by a strict total order. */
module Sorting {

  ghost predicate StrictOrder<T(!new)>(less: (T, T) -> bool) {
    && (forall a, b :: less(a, b) || a == b || less(b, a))
    && (forall a, b :: less(a, b) ==> a != b && !less(b, a))
    && (forall a, b, c :: less(a, b) && less(b, c) ==> less(a, c))
  }

  predicate IsFirst<T(==)>(less: (T, T) -> bool, x: T, s: set<T>) {
    x in s && forall y :: y in s ==> y == x || less(x, y)
  }

  lemma {:induction false} FirstExists<T(!new)>(less: (T, T) -> bool, s: set<T>)
    requires StrictOrder(less) && s != {}
    ensures exists x :: IsFirst(less, x, s)
    ensures forall x, y :: IsFirst(less, x, s) && IsFirst(less, y, s) ==> x == y
  {
    var k :| k in s;
    if s == {k} {
      assert IsFirst(less, k, s);
    } else {
      FirstExists(less, s - {k});
      var x :| IsFirst(less, x, s - {k});
      assert s == (s - {k}) + {k};
      assert IsFirst(less, if less(k, x) then k else x, s);
    }
  }

  function Sorted<T(!new, ==)>(less: (T, T) -> bool, s: set<T>): (r: seq<T>)
    requires StrictOrder(less)
    ensures forall x :: x in r <==> x in s
    ensures forall i, j :: 0 <= i < j < |r| ==> less(r[i], r[j])
  {
    if s == {} then [] else
      FirstExists(less, s);
      var x :| x in s && IsFirst(less, x, s);
      [x] + Sorted(less, s - {x})
  }

  /** The first element comes first, and the others after it in order. */
  lemma SortedFirst<T(!new)>(less: (T, T) -> bool, x: T, s: set<T>)
    requires StrictOrder(less) && IsFirst(less, x, s)
    ensures Sorted(less, s) == [x] + Sorted(less, s - {x})
  {
    FirstExists(less, s);
  }

  lemma {:induction false} SortedSize<T(!new)>(less: (T, T) -> bool, s: set<T>)
    requires StrictOrder(less)
    ensures |Sorted(less, s)| == |s|
  {
    if s != {} {
      hide StrictOrder;
      FirstExists(less, s);
      var x :| x in s && IsFirst(less, x, s);
      SortedSize(less, s - {x});
    }
  }
}
