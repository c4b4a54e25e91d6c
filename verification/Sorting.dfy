/** Insertion into a sorted sequence, for any strict order. */
module Sorting {
  ghost predicate StrictOrder<T(!new)>(less: (T, T) -> bool) {
    && (forall a, b :: less(a, b) ==> !less(b, a))
    && (forall a, b, c :: less(a, b) && !less(c, b) ==> less(a, c))
  }

  predicate Sorted<T>(less: (T, T) -> bool, s: seq<T>) {
    forall i, j {:trigger less(s[j], s[i])} :: 0 <= i < j < |s| ==> !less(s[j], s[i])
  }

  function Insert<T>(less: (T, T) -> bool, e: T, s: seq<T>): seq<T> {
    if s == [] || less(e, s[0]) then [e] + s else [s[0]] + Insert(less, e, s[1..])
  }

  lemma {:induction false} InsertSorts<T(!new)>(less: (T, T) -> bool, e: T, s: seq<T>)
    requires StrictOrder(less) && Sorted(less, s)
    ensures Sorted(less, Insert(less, e, s)) && multiset(Insert(less, e, s)) == multiset(s) + multiset{e}
  {
    if s == [] {
    } else if less(e, s[0]) {
      forall j | 0 <= j < |s|
        ensures !less(s[j], e)
      {
        assert j > 0 ==> !less(s[j], s[0]);
      }
    } else {
      InsertSorts(less, e, s[1..]);
      var t := Insert(less, e, s[1..]);
      assert s == [s[0]] + s[1..];
      forall x | x in t
        ensures !less(x, s[0])
      {
        assert x in multiset(t);
        assert x in s[1..] || x == e;
      }
    }
  }
}
