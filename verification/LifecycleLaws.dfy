/** What an accepted lifecycle join means, and which snapshots can be added, repeated or reordered without effect. */
module LifecycleLaws {
  import opened Collections
  import opened Sorting
  import opened LifecycleReceipts

  // ---------------------------------------------------------------- one entry per cycle

  /** Strictly increasing, bounded by their own number: the numbers are their indices. */
  lemma {:induction false} Pigeonhole(xs: seq<nat>, i: nat)
    requires forall j, k :: 0 <= j < k < |xs| ==> xs[j] < xs[k]
    requires forall j :: 0 <= j < |xs| ==> xs[j] < |xs|
    requires i < |xs|
    ensures xs[i] == i
  {
    AtLeast(xs, i);
    AtMost(xs, i);
  }

  lemma {:induction false} AtLeast(xs: seq<nat>, i: nat)
    requires forall j, k :: 0 <= j < k < |xs| ==> xs[j] < xs[k]
    requires i < |xs|
    ensures xs[i] >= i
  {
    if i > 0 { AtLeast(xs, i - 1); assert xs[i - 1] < xs[i]; }
  }

  lemma {:induction false} AtMost(xs: seq<nat>, i: nat)
    requires forall j, k :: 0 <= j < k < |xs| ==> xs[j] < xs[k]
    requires forall j :: 0 <= j < |xs| ==> xs[j] < |xs|
    requires i < |xs|
    ensures xs[i] <= i
    decreases |xs| - i
  {
    if i + 1 < |xs| { AtMost(xs, i + 1); assert xs[i] < xs[i + 1]; }
  }

  function Cycles(es: seq<Entry>): (cs: seq<nat>)
    ensures |cs| == |es| && forall i :: 0 <= i < |es| ==> cs[i] == es[i].cycle
  {
    seq(|es|, i requires 0 <= i < |es| => es[i].cycle)
  }

  lemma EntriesDistinct(rs: seq<Receipt>, edge: Edge)
    ensures Distinct(Entries(rs, edge))
  {
    TableOf(rs, edge);
  }

  /** A sorted table of `count` cycles below `count` lists them all, each at its own index. */
  lemma OwnIndex(rs: seq<Receipt>, edge: Edge, count: nat, i: nat)
    requires forall k :: 0 <= k < |rs| ==> rs[k].cycle < count
    requires |Entries(rs, edge)| == count && i < count
    ensures |Sort(Entries(rs, edge), Leq)| == count && Sort(Entries(rs, edge), Leq)[i].cycle == i
  {
    hide Sort, Entries;
    var t := Entries(rs, edge);
    var s := Sort(t, Leq);
    TableOf(rs, edge);
    SortPermutes(t, Leq);
    SortMembers(t, Leq);
    LeqPreorder();
    SortSorted(t, Leq);
    SortDistinct(t, Leq);
    forall j, k | 0 <= j < k < |s| ensures s[j].cycle < s[k].cycle { CyclesRise(t, s, j, k); }
    forall j | 0 <= j < |s| ensures s[j].cycle < count {
      assert s[j] in s;
      var k :| 0 <= k < |rs| && rs[k].edge == edge && EntryOf(rs[k]) == s[j];
    }
    Pigeonhole(Cycles(s), i);
  }

  lemma CyclesRise(t: seq<Entry>, s: seq<Entry>, j: nat, k: nat)
    requires forall a, b :: 0 <= a < b < |t| ==> t[a].cycle != t[b].cycle
    requires Sorted(s, Leq) && Distinct(s) && forall e :: e in s <==> e in t
    requires j < k < |s|
    ensures s[j].cycle < s[k].cycle
  {
    assert s[j] in s && s[k] in s;
    var a :| 0 <= a < |t| && t[a] == s[j];
    var b :| 0 <= b < |t| && t[b] == s[k];
    assert Leq(s[j], s[k]) && s[j] != s[k];
    assert a != b;
  }

  /** Every cycle has one ready and one closed entry at its own index, with one pid that no other cycle uses. */
  lemma AcceptedIsComplete(ss: seq<seq<Receipt>>, count: int, i: nat)
    requires Recover(ss, count).Some? && i < count
    ensures var (ready, closed) := Recover(ss, count).value;
      && |ready| == |closed| == count
      && ready[i].cycle == closed[i].cycle == i && ready[i].pid == closed[i].pid > 0
      && (forall j :: 0 <= j < count && j != i ==> ready[j].pid != ready[i].pid)
      && Received(Flatten(ss), Ready, ready[i]) && Received(Flatten(ss), Closed, closed[i])
  {
    hide Entries, Sort, Flatten, Leq, Consistent, LineOk;
    var rs := Flatten(ss);
    forall k | 0 <= k < |rs| ensures LineOk(rs[k], count) { LinesOk(ss, count, k); }
    forall k | 0 <= k < |rs| ensures rs[k].cycle < count { OkCycle(rs[k], count); }
    SortPermutes(Entries(rs, Ready), Leq);
    SortPermutes(Entries(rs, Closed), Leq);
    OwnIndex(rs, Ready, count, i);
    OwnIndex(rs, Closed, count, i);
    FromReceipts(rs, Ready, i);
    FromReceipts(rs, Closed, i);
    var ready := Sort(Entries(rs, Ready), Leq);
    var k :| 0 <= k < |rs| && rs[k].edge == Ready && EntryOf(rs[k]) == ready[i];
    OkCycle(rs[k], count);
  }

  lemma OkCycle(r: Receipt, count: int)
    requires LineOk(r, count)
    ensures r.cycle < count && r.pid > 0
  {}

  lemma FromReceipts(rs: seq<Receipt>, edge: Edge, i: nat)
    requires Consistent(rs) && i < |Sort(Entries(rs, edge), Leq)|
    ensures Received(rs, edge, Sort(Entries(rs, edge), Leq)[i])
  {
    hide Entries, Sort;
    TableMembers(rs, edge);
    SortMembers(Entries(rs, edge), Leq);
    assert Sort(Entries(rs, edge), Leq)[i] in Sort(Entries(rs, edge), Leq);
  }

  lemma {:induction false} LinesOk(ss: seq<seq<Receipt>>, count: int, k: nat)
    requires AllOk(ss, count) && k < |Flatten(ss)|
    ensures LineOk(Flatten(ss)[k], count)
  {
    hide LineOk;
    var init, last := ss[..|ss| - 1], ss[|ss| - 1];
    if k < |Flatten(init)| {
      LinesOk(init, count, k);
    } else {
      assert SnapshotOk(last, count);
    }
  }

  // ------------------------------------------------------------ the receipts decide

  /** The two collections hold the same receipts, however often and in whatever order. */
  ghost predicate SameReceipts(rs: seq<Receipt>, qs: seq<Receipt>) {
    forall r :: r in rs <==> r in qs
  }

  lemma ConsistentBySet(rs: seq<Receipt>, qs: seq<Receipt>)
    requires SameReceipts(rs, qs) && Consistent(rs)
    ensures Consistent(qs)
  {
    forall i, j | 0 <= i < |qs| && 0 <= j < |qs| && SameKey(qs[i], qs[j]) ensures EntryOf(qs[i]) == EntryOf(qs[j]) {
      assert qs[i] in rs && qs[j] in rs;
      var a :| 0 <= a < |rs| && rs[a] == qs[i];
      var b :| 0 <= b < |rs| && rs[b] == qs[j];
    }
  }

  lemma ReceivedBySet(rs: seq<Receipt>, qs: seq<Receipt>, edge: Edge, e: Entry)
    requires SameReceipts(rs, qs) && Received(rs, edge, e)
    ensures Received(qs, edge, e)
  {
    var i :| 0 <= i < |rs| && rs[i].edge == edge && EntryOf(rs[i]) == e;
    assert rs[i] in qs;
    var j :| 0 <= j < |qs| && qs[j] == rs[i];
  }

  lemma LeqSeparates(es: seq<Entry>)
    ensures Separates(es, Leq)
  {}

  lemma TableBySet(rs: seq<Receipt>, qs: seq<Receipt>, edge: Edge)
    requires SameReceipts(rs, qs) && Consistent(rs) && Consistent(qs)
    ensures Sort(Entries(rs, edge), Leq) == Sort(Entries(qs, edge), Leq)
  {
    hide Entries, Sort, Leq, SameReceipts, Received, Consistent;
    var t, u := Entries(rs, edge), Entries(qs, edge);
    TableMembers(rs, edge);
    TableMembers(qs, edge);
    forall e ensures e in t <==> e in u {
      if Received(rs, edge, e) { ReceivedBySet(rs, qs, edge, e); }
      if Received(qs, edge, e) { SameReceiptsFlip(rs, qs); ReceivedBySet(qs, rs, edge, e); }
    }
    EntriesDistinct(rs, edge);
    EntriesDistinct(qs, edge);
    DistinctSame(t, u);
    SortPermutes(t, Leq);
    SortPermutes(u, Leq);
    LeqPreorder();
    SortSorted(t, Leq);
    SortSorted(u, Leq);
    LeqSeparates(Sort(t, Leq));
    SortedUnique(Sort(t, Leq), Sort(u, Leq), Leq);
  }

  lemma SameReceiptsFlip(rs: seq<Receipt>, qs: seq<Receipt>)
    requires SameReceipts(rs, qs)
    ensures SameReceipts(qs, rs)
  {}

  /** Well-formed snapshots with the same receipts give the same verdict and the same result. */
  lemma RecoverBySet(ss: seq<seq<Receipt>>, ts: seq<seq<Receipt>>, count: int)
    requires AllOk(ss, count) && AllOk(ts, count) && SameReceipts(Flatten(ss), Flatten(ts))
    ensures Recover(ss, count) == Recover(ts, count)
  {
    hide Entries, Sort, Flatten, Leq, Consistent, SameReceipts, SnapshotOk;
    var rs, qs := Flatten(ss), Flatten(ts);
    SameReceiptsFlip(rs, qs);
    if Consistent(rs) { ConsistentBySet(rs, qs); }
    if Consistent(qs) { ConsistentBySet(qs, rs); }
    if Consistent(rs) {
      TableBySet(rs, qs, Ready);
      TableBySet(rs, qs, Closed);
    }
  }

  lemma {:induction false} FlattenMembers(ss: seq<seq<Receipt>>)
    ensures forall r :: r in Flatten(ss) <==> exists i :: 0 <= i < |ss| && r in ss[i]
  {
    if ss != [] {
      var init, last := ss[..|ss| - 1], ss[|ss| - 1];
      FlattenMembers(init);
      forall r ensures r in Flatten(ss) <==> exists i :: 0 <= i < |ss| && r in ss[i] {
        if r in Flatten(init) { var i :| 0 <= i < |init| && r in init[i]; assert ss[i] == init[i]; }
        if i :| 0 <= i < |ss| && r in ss[i] { if i < |init| { assert init[i] == ss[i]; } }
      }
    }
  }

  /** Reordering the snapshots changes nothing. */
  lemma RecoverPermuted(ss: seq<seq<Receipt>>, ts: seq<seq<Receipt>>, count: int)
    requires multiset(ss) == multiset(ts)
    ensures Recover(ss, count) == Recover(ts, count)
  {
    hide Entries, Sort, Flatten, Leq, Consistent, SnapshotOk, Join;
    SameMembers(ss, ts);
    if AllOk(ss, count) { forall i | 0 <= i < |ts| ensures SnapshotOk(ts[i], count) { assert ts[i] in ss; } }
    if AllOk(ts, count) { forall i | 0 <= i < |ss| ensures SnapshotOk(ss[i], count) { assert ss[i] in ts; } }
    if AllOk(ss, count) {
      FlattenMembers(ss);
      FlattenMembers(ts);
      forall r ensures r in Flatten(ss) <==> r in Flatten(ts) {
        if r in Flatten(ss) { var i :| 0 <= i < |ss| && r in ss[i]; assert ss[i] in ts; }
        if r in Flatten(ts) { var i :| 0 <= i < |ts| && r in ts[i]; assert ts[i] in ss; }
      }
      RecoverBySet(ss, ts, count);
    }
  }

  /**
   * One more snapshot whose receipts are all in the others changes neither verdict nor result, exactly when
   * it does not itself repeat a receipt; a refused join stays refused in any case.
   */
  lemma RecoverWithSubset(ss: seq<seq<Receipt>>, t: seq<Receipt>, count: int)
    requires forall r :: r in t ==> r in Flatten(ss)
    ensures Recover(ss + [t], count) == Recover(ss, count) <==> Recover(ss, count).None? || DistinctKeys(t)
  {
    hide Entries, Sort, Flatten, Leq, Consistent, Join, DistinctKeys, SnapshotOk;
    var all := ss + [t];
    assert AllOk(all, count) <==> AllOk(ss, count) && SnapshotOk(t, count) by { OkSnoc(ss, t, count); }
    if AllOk(ss, count) {
      assert SnapshotOk(t, count) <==> DistinctKeys(t) by { SubsetOk(ss, t, count); }
      if DistinctKeys(t) {
        FlattenWith(ss, t);
        RecoverBySet(all, ss, count);
      }
    }
  }

  lemma OkSnoc(ss: seq<seq<Receipt>>, t: seq<Receipt>, count: int)
    ensures AllOk(ss + [t], count) <==> AllOk(ss, count) && SnapshotOk(t, count)
  {
    hide SnapshotOk;
    var all := ss + [t];
    if AllOk(all, count) {
      assert SnapshotOk(all[|ss|], count);
      forall i | 0 <= i < |ss| ensures SnapshotOk(ss[i], count) { assert all[i] == ss[i]; }
    }
  }

  lemma SubsetOk(ss: seq<seq<Receipt>>, t: seq<Receipt>, count: int)
    requires AllOk(ss, count) && forall r :: r in t ==> r in Flatten(ss)
    ensures SnapshotOk(t, count) <==> DistinctKeys(t)
  {
    hide Flatten, LineOk, DistinctKeys, AllOk;
    forall i | 0 <= i < |t| ensures LineOk(t[i], count) {
      assert t[i] in Flatten(ss);
      var k :| 0 <= k < |Flatten(ss)| && Flatten(ss)[k] == t[i];
      LinesOk(ss, count, k);
    }
  }

  lemma FlattenWith(ss: seq<seq<Receipt>>, t: seq<Receipt>)
    requires forall r :: r in t ==> r in Flatten(ss)
    ensures SameReceipts(Flatten(ss + [t]), Flatten(ss))
  {
    assert (ss + [t])[..|ss|] == ss;
  }

  /** In particular a snapshot may be given again. */
  lemma RecoverRepeated(ss: seq<seq<Receipt>>, i: nat, count: int)
    requires i < |ss|
    ensures Recover(ss + [ss[i]], count) == Recover(ss, count)
  {
    hide Entries, Sort, Flatten, Consistent, Join;
    FlattenMembers(ss);
    assert AllOk(ss, count) ==> SnapshotOk(ss[i], count);
    RecoverWithSubset(ss, ss[i], count);
  }

  lemma PairEntries(ready: Receipt, closed: Receipt)
    requires ready.edge == Ready && closed.edge == Closed
    ensures Entries([ready, closed], Ready) == [EntryOf(ready)] && Entries([ready, closed], Closed) == [EntryOf(closed)]
  {
    EntriesSnoc([], ready, Ready);
    EntriesSnoc([], ready, Closed);
    EntriesSnoc([ready], closed, Ready);
    EntriesSnoc([ready], closed, Closed);
    assert [] + [ready] == [ready] && [ready] + [closed] == [ready, closed];
  }

  /** A snapshot that repeats a known line spoils the join although it adds nothing new. */
  lemma RepeatedLineRefused()
    ensures var ready, closed := Receipt(Ready, 0, 8, 20, false), Receipt(Closed, 0, 8, 30, true);
      Recover([[ready, closed]], 1).Some? && Recover([[ready, closed], [ready, ready]], 1) == None
  {
    hide Entries, Sort, Leq;
    var ready, closed := Receipt(Ready, 0, 8, 20, false), Receipt(Closed, 0, 8, 30, true);
    var rs, none: seq<seq<Receipt>> := [ready, closed], [];
    assert [rs][..0] == none && Flatten([rs]) == rs;
    PairEntries(ready, closed);
    SortFixed([EntryOf(ready)], Leq);
    SortFixed([EntryOf(closed)], Leq);
    var again := [ready, ready];
    assert SameKey(again[0], again[1]);
    assert [rs, again][1] == again;
  }
}
