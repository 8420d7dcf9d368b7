/** What several of the models share: optional values and filtered sequences. */
module Collections {

  datatype Option<+T> = None | Some(value: T)

  /** `[x for x in xs if p(x)]`. */
  function Select<T>(xs: seq<T>, p: T -> bool): seq<T> {
    if xs == [] then []
    else Select(xs[..|xs| - 1], p) + if p(xs[|xs| - 1]) then [xs[|xs| - 1]] else []
  }

  lemma {:induction false} Selected<T>(xs: seq<T>, p: T -> bool)
    ensures forall x <- xs :: x in Select(xs, p) <==> p(x)
    ensures forall x <- Select(xs, p) :: x in xs
  {
    if xs != [] {
      var init, last := xs[..|xs| - 1], xs[|xs| - 1];
      Selected(init, p);
      assert xs == init + [last];
    }
  }

  lemma SelectSnoc<T>(xs: seq<T>, x: T, p: T -> bool)
    ensures Select(xs + [x], p) == if p(x) then Select(xs, p) + [x] else Select(xs, p)
  {
    assert (xs + [x])[..|xs|] == xs;
  }

  lemma {:induction false} SelectConcat<T>(a: seq<T>, b: seq<T>, p: T -> bool)
    ensures Select(a + b, p) == Select(a, p) + Select(b, p)
    decreases |b|
  {
    if b == [] {
      assert a + b == a;
    } else {
      SelectConcat(a, b[..|b| - 1], p);
      assert (a + b)[..|a + b| - 1] == a + b[..|b| - 1];
    }
  }

  lemma {:induction false} NoneSelected<T>(xs: seq<T>, p: T -> bool)
    requires forall x <- xs :: !p(x)
    ensures Select(xs, p) == []
  {
    if xs != [] {
      var init, last := xs[..|xs| - 1], xs[|xs| - 1];
      assert xs == init + [last];
      NoneSelected(init, p);
    }
  }

  /** A predicate that selects one element: where it stands. */
  lemma {:induction false} OnlyOne<T>(xs: seq<T>, p: T -> bool) returns (k: nat)
    requires |Select(xs, p)| == 1
    ensures k < |xs| && p(xs[k]) && (forall x <- xs[..k] :: !p(x)) && (forall x <- xs[k + 1..] :: !p(x))
  {
    var init, last := xs[..|xs| - 1], xs[|xs| - 1];
    if p(last) {
      Selected(init, p);
      k := |init|;
    } else {
      k := OnlyOne(init, p);
      assert xs[..k] == init[..k] && xs[k] == init[k] && xs[k + 1..] == init[k + 1..] + [last];
    }
  }
}
