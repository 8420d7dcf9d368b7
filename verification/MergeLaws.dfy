/** What merging promises: the exact union in order, idempotence, independence of snapshot order, order of ties. */
module MergeLaws {
  import opened Text
  import opened Sorting
  import opened SnapshotMerge

  // ------------------------------------------------------------------------- the union

  lemma {:induction false} AddNewMembers(seen: seq<Record>, s: seq<Record>)
    requires Distinct(seen)
    ensures Distinct(AddNew(seen, s)) && seen <= AddNew(seen, s)
    ensures forall r :: r in AddNew(seen, s) <==> r in seen || r in s
  {
    if s != [] {
      var init := s[..|s| - 1];
      AddNewMembers(seen, init);
      assert s == init + [s[|s| - 1]];
    }
  }

  ghost predicate Somewhere(ss: seq<seq<Record>>, r: Record) {
    exists i :: 0 <= i < |ss| && r in ss[i]
  }

  lemma {:induction false} UnionMembers(ss: seq<seq<Record>>)
    ensures Distinct(Union(ss)) && forall r :: r in Union(ss) <==> Somewhere(ss, r)
  {
    if ss != [] {
      var init, last := ss[..|ss| - 1], ss[|ss| - 1];
      UnionMembers(init);
      AddNewMembers(Union(init), last);
      forall r ensures Somewhere(ss, r) <==> Somewhere(init, r) || r in last { SomewhereSnoc(init, last, r); }
      assert ss == init + [last];
    }
  }

  lemma SomewhereSnoc(init: seq<seq<Record>>, last: seq<Record>, r: Record)
    ensures Somewhere(init + [last], r) <==> Somewhere(init, r) || r in last
  {
    var ss := init + [last];
    if Somewhere(init, r) { var i :| 0 <= i < |init| && r in init[i]; assert ss[i] == init[i]; }
    if r in last { assert ss[|init|] == last; }
  }

  /** The merged text holds every record of every snapshot exactly once, by process and then time. */
  lemma MergeExact(ss: seq<seq<Record>>)
    requires Merge(ss).Some?
    ensures var out := Merge(ss).value;
      Distinct(out) && Sorted(out, Leq) && forall r :: r in out <==> Somewhere(ss, r)
  {
    hide Leq, Sooner, AllOk, Union, Sort;
    var ordered := Sort(ss, Sooner);
    UnionMembers(ordered);
    SortDistinct(Union(ordered), Leq);
    LeqPreorder();
    SortSorted(Union(ordered), Leq);
    SortMembers(Union(ordered), Leq);
    SortMembers(ss, Sooner);
    forall r ensures Somewhere(ordered, r) <==> Somewhere(ss, r) { SameSomewhere(ordered, ss, r); }
  }

  lemma SameSomewhere(ss: seq<seq<Record>>, ts: seq<seq<Record>>, r: Record)
    requires forall s :: s in ss <==> s in ts
    ensures Somewhere(ss, r) <==> Somewhere(ts, r)
  {
    if Somewhere(ss, r) { var i :| 0 <= i < |ss| && r in ss[i]; assert ss[i] in ts; }
    if Somewhere(ts, r) { var i :| 0 <= i < |ts| && r in ts[i]; assert ts[i] in ss; }
  }

  // ----------------------------------------------------------------------- idempotence

  lemma {:induction false} AddNewFixed(s: seq<Record>)
    requires Distinct(s)
    ensures AddNew([], s) == s
  {
    if s != [] {
      AddNewFixed(s[..|s| - 1]);
      assert s == s[..|s| - 1] + [s[|s| - 1]];
    }
  }

  lemma SortedIsOk(out: seq<Record>)
    requires Distinct(out) && Sorted(out, Leq)
    ensures SnapshotOk(out)
  {
    forall i, j | 0 <= i < j < |out| && IdentityOf(out[i]) == IdentityOf(out[j]) ensures At(out[i]) <= At(out[j]) {
      assert Leq(out[i], out[j]);
    }
  }

  lemma SingleUnion(s: seq<Record>)
    requires Distinct(s)
    ensures Sort([s], Sooner) == [s] && Union([s]) == s
  {
    assert [s][..0] == [];
    AddNewFixed(s);
    SortFixed([s], Sooner);
  }

  /** Merging a merged text again changes nothing. */
  lemma MergeIdempotent(ss: seq<seq<Record>>)
    requires Merge(ss).Some?
    ensures Merge([Merge(ss).value]) == Merge(ss)
  {
    hide Leq, Sooner, Union, Sort;
    var out := Merge(ss).value;
    MergeExact(ss);
    SortedIsOk(out);
    SingleUnion(out);
    SortFixed(out, Leq);
  }

  // --------------------------------------------------------- order of the snapshots

  /** No two different records of the snapshots share process and time. */
  ghost predicate NoTies(ss: seq<seq<Record>>) {
    forall a, b :: Somewhere(ss, a) && Somewhere(ss, b) && Leq(a, b) && Leq(b, a) ==> a == b
  }

  /** Without ties the result depends only on which snapshots there are, not on their order. */
  lemma MergeOrderFree(ss: seq<seq<Record>>, ts: seq<seq<Record>>)
    requires multiset(ss) == multiset(ts) && NoTies(ss)
    ensures Merge(ss) == Merge(ts)
  {
    hide Leq, Sooner, Union, Sort, SnapshotOk;
    SameMembers(ss, ts);
    AllOkSame(ss, ts);
    if AllOk(ss) {
      MergeExact(ss);
      MergeExact(ts);
      var a, b := Merge(ss).value, Merge(ts).value;
      forall r ensures Somewhere(ss, r) <==> Somewhere(ts, r) { SameSomewhere(ss, ts, r); }
      DistinctSame(a, b);
      forall i, j | 0 <= i < |a| && 0 <= j < |a| && Leq(a[i], a[j]) && Leq(a[j], a[i]) ensures a[i] == a[j] {
        assert a[i] in a && a[j] in a;
      }
      SortedUnique(a, b, Leq);
    }
  }

  lemma AllOkSame(ss: seq<seq<Record>>, ts: seq<seq<Record>>)
    requires forall s :: s in ss <==> s in ts
    ensures AllOk(ss) <==> AllOk(ts)
  {
    hide SnapshotOk;
    if AllOk(ss) { forall i | 0 <= i < |ts| ensures SnapshotOk(ts[i]) { assert ts[i] in ss; } }
    if AllOk(ts) { forall i | 0 <= i < |ss| ensures SnapshotOk(ss[i]) { assert ss[i] in ts; } }
  }

  // ------------------------------------------------------------------------------ ties

  predicate Tie(a: Record, b: Record) { Leq(a, b) && Leq(b, a) }

  /** The first snapshot that holds either record holds `a`, and not `b` before it. */
  ghost predicate LeadsAt(ss: seq<seq<Record>>, a: Record, b: Record, n: nat)
    requires n < |ss|
  {
    && (forall m :: 0 <= m < n ==> a !in ss[m] && b !in ss[m])
    && a in ss[n] && (b in ss[n] ==> Before(ss[n], a, b))
  }

  ghost predicate Leads(ss: seq<seq<Record>>, a: Record, b: Record) {
    exists n :: 0 <= n < |ss| && LeadsAt(ss, a, b, n)
  }

  lemma {:induction false} AddNewOrder(seen: seq<Record>, s: seq<Record>, a: Record, b: Record)
    requires Distinct(seen) && Distinct(s) && a != b
    ensures Before(AddNew(seen, s), a, b) <==>
      Before(seen, a, b) || (b !in seen && ((a in seen && b in s) || (a !in seen && Before(s, a, b))))
  {
    if s != [] {
      var init, last := s[..|s| - 1], s[|s| - 1];
      assert s == init + [last];
      AddNewOrder(seen, init, a, b);
      AddNewMembers(seen, init);
      BeforeSnoc(AddNew(seen, init), last, a, b);
      BeforeSnoc(init, last, a, b);
      BeforeMembers(seen, a, b);
      BeforeMembers(init, a, b);
    }
  }

  lemma BeforeMembers(xs: seq<Record>, a: Record, b: Record)
    ensures Before(xs, a, b) ==> a in xs && b in xs
  {}

  lemma LeadsSnoc(init: seq<seq<Record>>, last: seq<Record>, a: Record, b: Record)
    ensures Leads(init + [last], a, b) <==>
      || Leads(init, a, b)
      || (!Somewhere(init, a) && !Somewhere(init, b) && a in last && (b in last ==> Before(last, a, b)))
  {
    hide Before;
    var ss := init + [last];
    assert ss[|init|] == last;
    forall n | 0 <= n < |init| ensures LeadsAt(ss, a, b, n) == LeadsAt(init, a, b, n) {
      forall m | 0 <= m <= n ensures ss[m] == init[m] {}
    }
    if Leads(ss, a, b) {
      var n :| 0 <= n < |ss| && LeadsAt(ss, a, b, n);
      if n == |init| { forall m | 0 <= m < n ensures init[m] == ss[m] {} }
    }
    if !Somewhere(init, a) && !Somewhere(init, b) && a in last && (b in last ==> Before(last, a, b)) {
      forall m | 0 <= m < |init| ensures a !in ss[m] && b !in ss[m] { assert ss[m] == init[m]; }
      assert LeadsAt(ss, a, b, |init|);
    }
  }

  lemma {:induction false} LeadsFirst(ss: seq<seq<Record>>, a: Record, b: Record)
    requires AllOk(ss) && a != b && Somewhere(ss, b)
    ensures Before(Union(ss), a, b) <==> Leads(ss, a, b)
  {
    hide Before, Leads, LeadsAt;
    var init, last := ss[..|ss| - 1], ss[|ss| - 1];
    assert ss == init + [last] && SnapshotOk(last);
    assert AllOk(init);
    UnionMembers(init);
    AddNewOrder(Union(init), last, a, b);
    LeadsSnoc(init, last, a, b);
    SomewhereSnoc(init, last, b);
    BeforeMembers(Union(init), a, b);
    BeforeMembers(last, a, b);
    if Somewhere(init, b) {
      LeadsFirst(init, a, b);
    } else {
      LeadsAlone(init, a, b);
    }
  }

  /** While `b` is absent, `a` leads as soon as it appears. */
  lemma {:induction false} LeadsAlone(ss: seq<seq<Record>>, a: Record, b: Record)
    requires !Somewhere(ss, b)
    ensures Leads(ss, a, b) <==> Somewhere(ss, a)
  {
    hide Before, Leads, LeadsAt;
    if ss == [] {
      assert !Leads(ss, a, b) by { NoLead(a, b); }
    } else {
      var init, last := ss[..|ss| - 1], ss[|ss| - 1];
      assert ss == init + [last];
      LeadsSnoc(init, last, a, b);
      SomewhereSnoc(init, last, a);
      SomewhereSnoc(init, last, b);
      LeadsAlone(init, a, b);
    }
  }

  lemma NoLead(a: Record, b: Record)
    ensures !Leads([], a, b)
  {}

  /**
   * Exactly when a tie keeps its order: records of one process and time come out in the order in which
   * the first snapshot to hold either of them, snapshots taken by latest time, mentions them.
   */
  lemma TieOrder(ss: seq<seq<Record>>, a: Record, b: Record)
    requires Merge(ss).Some? && a != b && Tie(a, b) && Somewhere(ss, a) && Somewhere(ss, b)
    ensures Before(Merge(ss).value, a, b) <==> Leads(Sort(ss, Sooner), a, b)
  {
    hide Leq, Sooner, Union, Sort, SnapshotOk, Before, Leads;
    var ordered := Sort(ss, Sooner);
    var u, out := Union(ordered), Merge(ss).value;
    SortMembers(ss, Sooner);
    AllOkSame(ss, ordered);
    SameSomewhere(ordered, ss, a);
    SameSomewhere(ordered, ss, b);
    LeadsFirst(ordered, a, b);
    UnionMembers(ordered);
    MergeExact(ss);
    LeqPreorder();
    OneWay(u, a, b);
    OneWay(out, a, b);
    if Before(u, a, b) { SortStable(u, Leq, a, b); } else { SortStable(u, Leq, b, a); }
  }

  /** Records of different times never depend on the snapshots. */
  lemma TimeOrder(ss: seq<seq<Record>>, a: Record, b: Record)
    requires Merge(ss).Some? && Somewhere(ss, a) && Somewhere(ss, b) && !Leq(b, a)
    ensures Before(Merge(ss).value, a, b)
  {
    hide Merge;
    MergeExact(ss);
    var out := Merge(ss).value;
    var i :| 0 <= i < |out| && out[i] == a;
    var j :| 0 <= j < |out| && out[j] == b;
    if j < i { assert Leq(out[j], out[i]); }
  }

  /** A single snapshot keeps the order of every process and lane, ties included. */
  lemma SingleKeepsOrder(s: seq<Record>, i: nat, j: nat)
    requires SnapshotOk(s) && i < j < |s| && IdentityOf(s[i]) == IdentityOf(s[j])
    ensures Before(Merge([s]).value, s[i], s[j])
  {
    hide Sooner, Union, Sort;
    SingleUnion(s);
    assert Before(s, s[i], s[j]);
    assert At(s[i]) <= At(s[j]);
    LeqPreorder();
    SortStable(s, Leq, s[i], s[j]);
  }

  /** With two snapshots a tie may come out against the order of one of them. */
  lemma TieMayReverse()
    ensures var a := Record("7", "2", "1", "s", "begin", "5", "0", Untagged); var b := a.(edge := "end");
      Merge([[b], [a, b]]).Some? && Before([a, b], a, b) && !Before(Merge([[b], [a, b]]).value, a, b)
  {
    hide Value, Union, Sort, Leads;
    var a := Record("7", "2", "1", "s", "begin", "5", "0", Untagged);
    var b := a.(edge := "end");
    var ss := [[b], [a, b]];
    assert a.edge[0] != b.edge[0];
    assert [a, b][0] == a && [a, b][1] == b;
    assert LatestAt([b]) == At(b) by { assert [b][..0] == []; }
    assert LatestAt([a, b]) == At(b) by { assert [a, b][..1] == [a] && [a][..0] == []; }
    SortFixed(ss, Sooner);
    assert a in ss[1] && b in ss[0];
    assert !Leads(ss, a, b) by { BLeads(ss, a, b); }
    TieOrder(ss, a, b);
  }

  lemma BLeads(ss: seq<seq<Record>>, a: Record, b: Record)
    requires ss != [] && ss[0] == [b] && a != b
    ensures !Leads(ss, a, b)
  {
    assert b in ss[0];
  }
}
