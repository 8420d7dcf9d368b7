/** Python's `sorted`: a stable sort by a total preorder. */
module Sorting {
  import opened Collections

  ghost predicate Preorder<T(!new)>(leq: (T, T) -> bool) {
    && (forall a, b :: leq(a, b) || leq(b, a))
    && (forall a, b, c :: leq(a, b) && leq(b, c) ==> leq(a, c))
  }

  predicate Sorted<T>(xs: seq<T>, leq: (T, T) -> bool) {
    forall i, j :: 0 <= i < j < |xs| ==> leq(xs[i], xs[j])
  }

  /** Some occurrence of `a` precedes some occurrence of `b`. */
  ghost predicate Before<T>(xs: seq<T>, a: T, b: T) {
    exists i, j :: 0 <= i < j < |xs| && xs[i] == a && xs[j] == b
  }

  predicate Distinct<T(==)>(xs: seq<T>) {
    forall i, j :: 0 <= i < j < |xs| ==> xs[i] != xs[j]
  }

  /** Insert after every element that is not greater. */
  function Insert<T>(xs: seq<T>, x: T, leq: (T, T) -> bool): seq<T> {
    if xs == [] then [x]
    else if leq(xs[|xs| - 1], x) then xs + [x]
    else Insert(xs[..|xs| - 1], x, leq) + [xs[|xs| - 1]]
  }

  function Sort<T>(xs: seq<T>, leq: (T, T) -> bool): seq<T> {
    if xs == [] then [] else Insert(Sort(xs[..|xs| - 1], leq), xs[|xs| - 1], leq)
  }

  lemma {:induction false} InsertPermutes<T>(xs: seq<T>, x: T, leq: (T, T) -> bool)
    ensures multiset(Insert(xs, x, leq)) == multiset(xs) + multiset{x}
    ensures |Insert(xs, x, leq)| == |xs| + 1
  {
    if xs != [] {
      assert xs == xs[..|xs| - 1] + [xs[|xs| - 1]];
      InsertPermutes(xs[..|xs| - 1], x, leq);
    }
  }

  lemma {:induction false} SortPermutes<T>(xs: seq<T>, leq: (T, T) -> bool)
    ensures multiset(Sort(xs, leq)) == multiset(xs) && |Sort(xs, leq)| == |xs|
  {
    if xs != [] {
      assert xs == xs[..|xs| - 1] + [xs[|xs| - 1]];
      SortPermutes(xs[..|xs| - 1], leq);
      InsertPermutes(Sort(xs[..|xs| - 1], leq), xs[|xs| - 1], leq);
    }
  }

  lemma SameMembers<T>(xs: seq<T>, ys: seq<T>)
    requires multiset(xs) == multiset(ys)
    ensures forall x :: x in xs <==> x in ys
  {
    forall x ensures x in xs <==> x in ys {
      assert x in xs <==> x in multiset(xs);
      assert x in ys <==> x in multiset(ys);
    }
  }

  lemma SortMembers<T>(xs: seq<T>, leq: (T, T) -> bool)
    ensures forall x :: x in Sort(xs, leq) <==> x in xs
  {
    hide Sort;
    SortPermutes(xs, leq);
    SameMembers(Sort(xs, leq), xs);
  }

  lemma InsertMembers<T>(xs: seq<T>, x: T, leq: (T, T) -> bool)
    ensures forall y :: y in Insert(xs, x, leq) <==> y in xs || y == x
  {
    hide Insert;
    InsertPermutes(xs, x, leq);
    assert multiset(xs + [x]) == multiset(xs) + multiset{x};
    SameMembers(Insert(xs, x, leq), xs + [x]);
  }

  lemma {:induction false} InsertSorted<T(!new)>(xs: seq<T>, x: T, leq: (T, T) -> bool)
    requires Preorder(leq) && Sorted(xs, leq)
    ensures Sorted(Insert(xs, x, leq), leq)
  {
    if xs != [] {
      var init, last := xs[..|xs| - 1], xs[|xs| - 1];
      if leq(last, x) {
        forall i | 0 <= i < |xs| ensures leq(xs[i], x) { assert i == |xs| - 1 || leq(xs[i], last); }
      } else {
        InsertSorted(init, x, leq);
        InsertMembers(init, x, leq);
        var r := Insert(init, x, leq);
        forall i | 0 <= i < |r| ensures leq(r[i], last) { assert r[i] in r; }
      }
    }
  }

  lemma {:induction false} SortSorted<T(!new)>(xs: seq<T>, leq: (T, T) -> bool)
    requires Preorder(leq)
    ensures Sorted(Sort(xs, leq), leq)
  {
    if xs != [] {
      SortSorted(xs[..|xs| - 1], leq);
      InsertSorted(Sort(xs[..|xs| - 1], leq), xs[|xs| - 1], leq);
    }
  }

  /** Sorting leaves a sorted list alone. */
  lemma {:induction false} SortFixed<T>(xs: seq<T>, leq: (T, T) -> bool)
    requires Sorted(xs, leq)
    ensures Sort(xs, leq) == xs
  {
    if xs != [] {
      var init := xs[..|xs| - 1];
      SortFixed(init, leq);
      assert xs == init + [xs[|xs| - 1]];
    }
  }

  /** No two different elements are equal in the order. */
  ghost predicate Separates<T>(xs: seq<T>, leq: (T, T) -> bool) {
    forall i, j :: 0 <= i < |xs| && 0 <= j < |xs| && leq(xs[i], xs[j]) && leq(xs[j], xs[i]) ==> xs[i] == xs[j]
  }

  lemma SameLength<T>(xs: seq<T>, ys: seq<T>)
    requires multiset(xs) == multiset(ys)
    ensures |xs| == |ys|
  {
    assert |multiset(xs)| == |xs| && |multiset(ys)| == |ys|;
  }

  lemma LastAgrees<T>(xs: seq<T>, ys: seq<T>, leq: (T, T) -> bool)
    requires Sorted(xs, leq) && Sorted(ys, leq) && |xs| == |ys| > 0 && multiset(xs) == multiset(ys)
    requires Separates(xs, leq)
    ensures xs[|xs| - 1] == ys[|ys| - 1]
  {
    var n := |xs| - 1;
    SameMembers(xs, ys);
    assert xs[n] in ys && ys[n] in xs;
    var i :| 0 <= i < |ys| && ys[i] == xs[n];
    var j :| 0 <= j < |xs| && xs[j] == ys[n];
    assert i == n || leq(ys[i], ys[n]);
    assert j == n || leq(xs[j], xs[n]);
  }

  lemma DropLast<T>(xs: seq<T>, leq: (T, T) -> bool)
    requires xs != []
    ensures Sorted(xs, leq) ==> Sorted(xs[..|xs| - 1], leq)
    ensures Separates(xs, leq) ==> Separates(xs[..|xs| - 1], leq)
    ensures multiset(xs[..|xs| - 1]) == multiset(xs) - multiset{xs[|xs| - 1]}
  {
    assert xs == xs[..|xs| - 1] + [xs[|xs| - 1]];
  }

  /** A sorted list is determined by its elements where the order separates them. */
  lemma {:induction false} SortedUnique<T>(xs: seq<T>, ys: seq<T>, leq: (T, T) -> bool)
    requires Sorted(xs, leq) && Sorted(ys, leq) && multiset(xs) == multiset(ys)
    requires Separates(xs, leq)
    ensures xs == ys
  {
    hide Sorted, Separates;
    SameLength(xs, ys);
    if xs != [] {
      var n := |xs| - 1;
      LastAgrees(xs, ys, leq);
      DropLast(xs, leq);
      DropLast(ys, leq);
      SortedUnique(xs[..n], ys[..n], leq);
      FromParts(xs, ys);
    }
  }

  lemma FromParts<T>(xs: seq<T>, ys: seq<T>)
    requires |xs| == |ys| > 0 && xs[..|xs| - 1] == ys[..|ys| - 1] && xs[|xs| - 1] == ys[|ys| - 1]
    ensures xs == ys
  {
    assert xs == xs[..|xs| - 1] + [xs[|xs| - 1]];
    assert ys == ys[..|ys| - 1] + [ys[|ys| - 1]];
  }

  // ---------------------------------------------------------------------- stability

  lemma BeforeSnoc<T>(xs: seq<T>, x: T, a: T, b: T)
    ensures Before(xs + [x], a, b) <==> Before(xs, a, b) || (a in xs && b == x)
  {
    var r := xs + [x];
    if Before(xs, a, b) {
      var i, j :| 0 <= i < j < |xs| && xs[i] == a && xs[j] == b;
      assert r[i] == a && r[j] == b;
    }
    if a in xs && b == x {
      var i :| 0 <= i < |xs| && xs[i] == a;
      assert r[i] == a && r[|xs|] == b;
    }
    if Before(r, a, b) {
      var i, j :| 0 <= i < j < |r| && r[i] == a && r[j] == b;
      assert xs[i] == a;
      if j < |xs| { assert xs[j] == b; }
    }
  }

  lemma {:induction false} InsertKeepsOrder<T>(xs: seq<T>, x: T, leq: (T, T) -> bool, a: T, b: T)
    requires Before(xs, a, b)
    ensures Before(Insert(xs, x, leq), a, b)
  {
    if xs != [] {
      var init, last := xs[..|xs| - 1], xs[|xs| - 1];
      assert xs == init + [last];
      BeforeSnoc(init, last, a, b);
      BeforeSnoc(xs, x, a, b);
      if !leq(last, x) {
        var r := Insert(init, x, leq);
        BeforeSnoc(r, last, a, b);
        if Before(init, a, b) { InsertKeepsOrder(init, x, leq, a, b); } else { InsertMembers(init, x, leq); }
      }
    }
  }

  lemma {:induction false} InsertAfter<T>(xs: seq<T>, x: T, leq: (T, T) -> bool, a: T)
    requires a in xs && leq(a, x)
    requires forall y :: y in xs && !leq(y, x) ==> leq(a, y)
    requires Sorted(xs, leq)
    requires forall y, z :: y in xs && z in xs && leq(y, z) && leq(z, x) ==> leq(y, x)
    ensures Before(Insert(xs, x, leq), a, x)
  {
    var init, last := xs[..|xs| - 1], xs[|xs| - 1];
    assert xs == init + [last];
    if leq(last, x) {
      BeforeSnoc(xs, x, a, x);
    } else {
      assert a in init;
      var r := Insert(init, x, leq);
      InsertAfter(init, x, leq, a);
      BeforeSnoc(r, last, a, x);
    }
  }

  /** Stability: what came first and is not greater stays first. */
  lemma {:induction false} SortStable<T(!new)>(xs: seq<T>, leq: (T, T) -> bool, a: T, b: T)
    requires Preorder(leq) && Before(xs, a, b) && leq(a, b)
    ensures Before(Sort(xs, leq), a, b)
  {
    var init, last := xs[..|xs| - 1], xs[|xs| - 1];
    assert xs == init + [last];
    BeforeSnoc(init, last, a, b);
    var s := Sort(init, leq);
    if Before(init, a, b) {
      SortStable(init, leq, a, b);
      InsertKeepsOrder(s, last, leq, a, b);
    } else {
      SortMembers(init, leq);
      SortSorted(init, leq);
      InsertAfter(s, last, leq, a);
    }
  }

  // --------------------------------------------------------------------- distinct lists

  lemma {:induction false} DistinctCounts<T>(xs: seq<T>)
    ensures Distinct(xs) <==> forall x :: multiset(xs)[x] <= 1
  {
    if xs != [] {
      var n := |xs| - 1;
      assert xs == xs[..n] + [xs[n]];
      DistinctCounts(xs[..n]);
      if Distinct(xs) {
        assert xs[n] !in xs[..n];
        assert multiset(xs[..n])[xs[n]] == 0;
      } else if Distinct(xs[..n]) {
        assert xs[n] in xs[..n];
        assert xs[n] in multiset(xs[..n]);
        assert multiset(xs)[xs[n]] == multiset(xs[..n])[xs[n]] + 1;
      } else {
        var x :| multiset(xs[..n])[x] > 1;
        assert multiset(xs)[x] > 1;
      }
    }
  }

  lemma SortDistinct<T>(xs: seq<T>, leq: (T, T) -> bool)
    requires Distinct(xs)
    ensures Distinct(Sort(xs, leq))
  {
    hide Sort, Distinct;
    DistinctCounts(xs);
    SortPermutes(xs, leq);
    DistinctCounts(Sort(xs, leq));
  }

  lemma DistinctSame<T>(xs: seq<T>, ys: seq<T>)
    requires Distinct(xs) && Distinct(ys) && forall x :: x in xs <==> x in ys
    ensures multiset(xs) == multiset(ys)
  {
    hide Distinct;
    DistinctCounts(xs);
    DistinctCounts(ys);
    forall x ensures multiset(xs)[x] == multiset(ys)[x] {
      assert x in xs <==> x in multiset(xs);
      assert x in ys <==> x in multiset(ys);
    }
  }

  lemma OneWay<T>(xs: seq<T>, a: T, b: T)
    requires Distinct(xs) && a != b && a in xs && b in xs
    ensures Before(xs, a, b) <==> !Before(xs, b, a)
  {
    var i :| 0 <= i < |xs| && xs[i] == a;
    var j :| 0 <= j < |xs| && xs[j] == b;
  }

  // -------------------------------------------------------------------------- selection

  lemma InsertLast<T>(xs: seq<T>, x: T, leq: (T, T) -> bool)
    requires xs == [] || leq(xs[|xs| - 1], x)
    ensures Insert(xs, x, leq) == xs + [x]
  {}

  lemma InsertInside<T>(init: seq<T>, last: T, x: T, leq: (T, T) -> bool)
    requires !leq(last, x)
    ensures Insert(init + [last], x, leq) == Insert(init, x, leq) + [last]
  {
    assert (init + [last])[..|init|] == init;
  }

  /** The selected elements of a sorted list are not greater than its last. */
  lemma SelectedBelow<T(!new)>(xs: seq<T>, x: T, leq: (T, T) -> bool, p: T -> bool)
    requires Preorder(leq) && Sorted(xs, leq) && xs != [] && leq(xs[|xs| - 1], x)
    ensures var ys := Select(xs, p); ys == [] || leq(ys[|ys| - 1], x)
  {
    hide Select, Sorted;
    var ys := Select(xs, p);
    Selected(xs, p);
    if ys != [] {
      assert ys[|ys| - 1] in ys;
      BelowLast(xs, ys[|ys| - 1], leq);
    }
  }

  lemma {:induction false} InsertSelect<T(!new)>(xs: seq<T>, x: T, leq: (T, T) -> bool, p: T -> bool)
    requires Preorder(leq) && Sorted(xs, leq)
    ensures Select(Insert(xs, x, leq), p) == if p(x) then Insert(Select(xs, p), x, leq) else Select(xs, p)
  {
    hide Select, Insert, Preorder;
    if xs == [] {
      NoneSelected(xs, p);
      InsertLast(xs, x, leq);
      SelectSnoc(xs, x, p);
    } else {
      var init, last := xs[..|xs| - 1], xs[|xs| - 1];
      assert xs == init + [last];
      if leq(last, x) {
        InsertLast(xs, x, leq);
        SelectSnoc(xs, x, p);
        SelectedBelow(xs, x, leq, p);
        if p(x) { InsertLast(Select(xs, p), x, leq); }
      } else {
        InsertInside(init, last, x, leq);
        InsertSelect(init, x, leq, p);
        SelectSnoc(Insert(init, x, leq), last, p);
        SelectSnoc(init, last, p);
        if p(last) { InsertInside(Select(init, p), last, x, leq); }
      }
    }
  }

  lemma BelowLast<T(!new)>(xs: seq<T>, y: T, leq: (T, T) -> bool)
    requires Preorder(leq) && Sorted(xs, leq) && y in xs
    ensures leq(y, xs[|xs| - 1])
  {
    var k :| 0 <= k < |xs| && xs[k] == y;
    assert leq(xs[|xs| - 1], xs[|xs| - 1]);
  }

  /** Selecting from a stable sort is sorting the selection. */
  lemma {:induction false} SortSelect<T(!new)>(xs: seq<T>, leq: (T, T) -> bool, p: T -> bool)
    requires Preorder(leq)
    ensures Select(Sort(xs, leq), p) == Sort(Select(xs, p), leq)
  {
    hide Insert, Select, Sort, Preorder, Sorted;
    if xs == [] {
      NoneSelected(xs, p);
      SortNothing(leq);
    } else {
      var init, last := xs[..|xs| - 1], xs[|xs| - 1];
      SortSelect(init, leq, p);
      SortSorted(init, leq);
      InsertSelect(Sort(init, leq), last, leq, p);
      assert xs == init + [last];
      SortSnoc(init, last, leq);
      SelectSnoc(init, last, p);
      if p(last) { SortSnoc(Select(init, p), last, leq); }
    }
  }

  lemma SortNothing<T>(leq: (T, T) -> bool)
    ensures Sort([], leq) == []
  {}

  lemma SortSnoc<T>(xs: seq<T>, x: T, leq: (T, T) -> bool)
    ensures Sort(xs + [x], leq) == Insert(Sort(xs, leq), x, leq)
  {
    assert (xs + [x])[..|xs|] == xs;
  }

  lemma {:induction false} SelectSorted<T>(xs: seq<T>, leq: (T, T) -> bool, p: T -> bool)
    requires Sorted(xs, leq)
    ensures Sorted(Select(xs, p), leq)
  {
    if xs != [] {
      var init, last := xs[..|xs| - 1], xs[|xs| - 1];
      SelectSorted(init, leq, p);
      Selected(init, p);
      var ys := Select(init, p);
      forall i | 0 <= i < |ys| ensures leq(ys[i], last) {
        assert ys[i] in ys;
        var k :| 0 <= k < |init| && init[k] == ys[i];
        assert xs[k] == ys[i];
      }
    }
  }

  lemma {:induction false} SelectDistinct<T>(xs: seq<T>, p: T -> bool)
    requires Distinct(xs)
    ensures Distinct(Select(xs, p))
  {
    if xs != [] {
      var init, last := xs[..|xs| - 1], xs[|xs| - 1];
      SelectDistinct(init, p);
      Selected(init, p);
      var ys := Select(init, p);
      forall i | 0 <= i < |ys| ensures ys[i] != last {
        assert ys[i] in ys;
        var k :| 0 <= k < |init| && init[k] == ys[i];
        assert xs[k] == ys[i];
      }
    }
  }
}
