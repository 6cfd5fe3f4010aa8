/** Lists without repetition, and listing a set in order. */
module Sequences {
  predicate Distinct<T(==)>(xs: seq<T>) {
    forall i, j :: 0 <= i < j < |xs| ==> xs[i] != xs[j]
  }

  ghost predicate TotalOrder<T(!new)>(leq: (T, T) -> bool) {
    && (forall a, b :: leq(a, b) || leq(b, a))
    && (forall a, b :: leq(a, b) && leq(b, a) ==> a == b)
    && (forall a, b, c :: leq(a, b) && leq(b, c) ==> leq(a, c))
  }

  predicate Ascending<T(==)>(xs: seq<T>, leq: (T, T) -> bool) {
    forall i, j :: 0 <= i < j < |xs| ==> leq(xs[i], xs[j]) && xs[i] != xs[j]
  }

  method Least<T(==, !new)>(s: set<T>, leq: (T, T) -> bool) returns (least: T)
    requires s != {} && TotalOrder(leq)
    ensures least in s && forall x :: x in s ==> leq(least, x)
  {
    least :| least in s;
    var todo := s - {least};
    while todo != {}
      invariant least in s && todo <= s && forall x :: x in s - todo ==> leq(least, x)
      decreases todo
    {
      var x :| x in todo;
      todo := todo - {x};
      if leq(x, least) {
        least := x;
      }
    }
  }

  lemma AppendAscending<T>(xs: seq<T>, x: T, leq: (T, T) -> bool)
    requires Ascending(xs, leq) && forall y :: y in xs ==> leq(y, x) && y != x
    ensures Ascending(xs + [x], leq)
  {
    assert forall i :: 0 <= i < |xs| ==> xs[i] in xs;
  }

  /** The elements of a set, in order. */
  method SortedList<T(==, !new)>(s: set<T>, leq: (T, T) -> bool) returns (xs: seq<T>)
    requires TotalOrder(leq)
    ensures Ascending(xs, leq) && forall x :: x in xs <==> x in s
  {
    xs := [];
    var todo := s;
    while todo != {}
      invariant todo <= s && Ascending(xs, leq) && forall x :: x in xs <==> x in s - todo
      invariant forall x, y :: x in xs && y in todo ==> leq(x, y)
      decreases todo
    {
      var x := Least(todo, leq);
      todo := todo - {x};
      AppendAscending(xs, x, leq);
      xs := xs + [x];
    }
  }
}
