/** Sorting as the library does it, and why a strictly sorted list is determined by its elements. */
module Ordering {
  import opened Text

  ghost predicate StrictTotal<T(!new)>(less: (T, T) -> bool) {
    && (forall x :: !less(x, x))
    && (forall x, y, z :: less(x, y) && less(y, z) ==> less(x, z))
    && (forall x, y :: x != y ==> less(x, y) || less(y, x))
  }

  ghost predicate Increasing<T(!new)>(less: (T, T) -> bool, xs: seq<T>) {
    forall i, j :: 0 <= i < j < |xs| ==> less(xs[i], xs[j])
  }

  predicate Distinct<T(==)>(xs: seq<T>) {
    forall i, j :: 0 <= i < j < |xs| ==> xs[i] != xs[j]
  }

  function Insert<T>(less: (T, T) -> bool, x: T, xs: seq<T>): seq<T> {
    if xs == [] then [x]
    else if less(xs[0], x) then [xs[0]] + Insert(less, x, xs[1..])
    else [x] + xs
  }

  function Sort<T>(less: (T, T) -> bool, xs: seq<T>): seq<T> {
    if xs == [] then [] else Insert(less, xs[0], Sort(less, xs[1..]))
  }

  lemma {:induction false} InsertKeepsOrder<T(!new)>(less: (T, T) -> bool, x: T, xs: seq<T>)
    requires StrictTotal(less) && Increasing(less, xs) && x !in xs
    ensures Increasing(less, Insert(less, x, xs))
    ensures forall y :: y in Insert(less, x, xs) <==> y == x || y in xs
  {
    if xs != [] && less(xs[0], x) {
      var rest := Insert(less, x, xs[1..]);
      assert Increasing(less, xs[1..]);
      InsertKeepsOrder(less, x, xs[1..]);
      forall j | 0 <= j < |rest|
        ensures less(xs[0], rest[j])
      {
        assert rest[j] in rest;
      }
    }
  }

  /** Sorting distinct elements gives the same elements in strictly increasing order. */
  lemma {:induction false} SortSorts<T(!new)>(less: (T, T) -> bool, xs: seq<T>)
    requires StrictTotal(less) && Distinct(xs)
    ensures Increasing(less, Sort(less, xs))
    ensures forall y :: y in Sort(less, xs) <==> y in xs
  {
    if xs != [] {
      SortSorts(less, xs[1..]);
      InsertKeepsOrder(less, xs[0], Sort(less, xs[1..]));
    }
  }

  lemma SameEmptiness<T(!new)>(a: seq<T>, b: seq<T>)
    requires forall y :: y in a <==> y in b
    ensures a == [] <==> b == []
  {
    if a != [] {
      var y := a[0];
      assert y in b;
    }
    if b != [] {
      var y := b[0];
      assert y in b;
    }
  }

  /** There is only one way to put a set in strictly increasing order. */
  lemma {:induction false} IncreasingIsUnique<T(!new)>(less: (T, T) -> bool, a: seq<T>, b: seq<T>)
    requires StrictTotal(less) && Increasing(less, a) && Increasing(less, b)
    requires forall y :: y in a <==> y in b
    ensures a == b
  {
    SameEmptiness(a, b);
    if a != [] {
      assert a[0] in b && b[0] in a;
      assert a[0] == b[0];
      forall y
        ensures y in a[1..] <==> y in b[1..]
      {
        assert y in a[1..] <==> y in a && y != a[0];
        assert y in b[1..] <==> y in b && y != b[0];
      }
      IncreasingIsUnique(less, a[1..], b[1..]);
    }
  }

  const STRING_ORDER: (string, string) -> bool := (a: string, b: string) => Before(a, b)

  lemma StringOrderIsStrictTotal()
    ensures StrictTotal(STRING_ORDER)
  {
    forall x, y
      ensures !STRING_ORDER(x, x) && (x != y ==> STRING_ORDER(x, y) || STRING_ORDER(y, x))
    {
      BeforeIsTotal(x, y);
      BeforeIsTotal(x, x);
    }
    forall x, y, z | STRING_ORDER(x, y) && STRING_ORDER(y, z)
      ensures STRING_ORDER(x, z)
    {
      BeforeIsTransitive(x, y, z);
    }
  }

  const INT_ORDER: (int, int) -> bool := (a: int, b: int) => a < b
}
