/** Joining ready and closed receipts recovered from several snapshots of one lifecycle log. */
module LifecycleReceipts {
  import opened Collections
  import opened Sorting

  datatype Edge = Ready | Closed

  /** One whole receipt line; `clean` says that it ends in ` errors=0`. */
  datatype Receipt = Receipt(edge: Edge, cycle: nat, pid: nat, elapsed: nat, clean: bool)

  datatype Entry = Entry(cycle: nat, pid: nat, elapsed: nat)

  function EntryOf(r: Receipt): Entry { Entry(r.cycle, r.pid, r.elapsed) }

  /** Tuple order. */
  predicate Leq(a: Entry, b: Entry) {
    || a.cycle < b.cycle
    || (a.cycle == b.cycle && (a.pid < b.pid || (a.pid == b.pid && a.elapsed <= b.elapsed)))
  }

  lemma LeqPreorder()
    ensures Preorder(Leq)
  {}

  // ----------------------------------------------------------------- the specification

  predicate LineOk(r: Receipt, count: int) {
    r.clean == r.edge.Closed? && r.cycle < count && r.pid > 0 && r.elapsed > 0
  }

  predicate SameKey(r: Receipt, q: Receipt) { r.edge == q.edge && r.cycle == q.cycle }

  /** No receipt twice in one snapshot. */
  predicate DistinctKeys(s: seq<Receipt>) {
    forall i, j :: 0 <= i < j < |s| ==> !SameKey(s[i], s[j])
  }

  predicate SnapshotOk(s: seq<Receipt>, count: int) {
    DistinctKeys(s) && forall i :: 0 <= i < |s| ==> LineOk(s[i], count)
  }

  /** All receipts, snapshot by snapshot. */
  function Flatten(ss: seq<seq<Receipt>>): seq<Receipt> {
    if ss == [] then [] else Flatten(ss[..|ss| - 1]) + ss[|ss| - 1]
  }

  /** Receipts of one cycle agree wherever they are found. */
  predicate Consistent(rs: seq<Receipt>) {
    forall i, j :: 0 <= i < |rs| && 0 <= j < |rs| && SameKey(rs[i], rs[j]) ==> EntryOf(rs[i]) == EntryOf(rs[j])
  }

  predicate Known(table: seq<Entry>, cycle: nat) {
    exists i :: 0 <= i < |table| && table[i].cycle == cycle
  }

  /** The values of one dictionary, in the order their cycles first appeared. */
  function Entries(rs: seq<Receipt>, edge: Edge): seq<Entry> {
    if rs == [] then []
    else
      var table, r := Entries(rs[..|rs| - 1], edge), rs[|rs| - 1];
      if r.edge == edge && !Known(table, r.cycle) then table + [EntryOf(r)] else table
  }

  predicate SameIdentity(ready: seq<Entry>, closed: seq<Entry>) {
    |ready| == |closed| && forall i :: 0 <= i < |ready| ==>
      ready[i].cycle == closed[i].cycle && ready[i].pid == closed[i].pid
  }

  predicate DistinctPids(es: seq<Entry>) {
    forall i, j :: 0 <= i < j < |es| ==> es[i].pid != es[j].pid
  }

  predicate AllOk(ss: seq<seq<Receipt>>, count: int) {
    forall i :: 0 <= i < |ss| ==> SnapshotOk(ss[i], count)
  }

  function Join(rs: seq<Receipt>, count: int): Option<(seq<Entry>, seq<Entry>)> {
    var ready, closed := Sort(Entries(rs, Ready), Leq), Sort(Entries(rs, Closed), Leq);
    if |ready| == |closed| == count && SameIdentity(ready, closed) && DistinctPids(ready) then Some((ready, closed))
      else None
  }

  /** `lifecycle_receipts`. */
  function Recover(ss: seq<seq<Receipt>>, count: int): Option<(seq<Entry>, seq<Entry>)> {
    if AllOk(ss, count) && Consistent(Flatten(ss)) then Join(Flatten(ss), count) else None
  }

  // ------------------------------------------------------------------- tables

  /** Cycles are unique in a table, and its entries come from receipts. */
  lemma {:induction false} TableOf(rs: seq<Receipt>, edge: Edge)
    ensures forall i, j :: 0 <= i < j < |Entries(rs, edge)| ==> Entries(rs, edge)[i].cycle != Entries(rs, edge)[j].cycle
    ensures forall e :: e in Entries(rs, edge) ==>
      exists i :: 0 <= i < |rs| && rs[i].edge == edge && EntryOf(rs[i]) == e
    ensures forall i :: 0 <= i < |rs| && rs[i].edge == edge ==> Known(Entries(rs, edge), rs[i].cycle)
  {
    if rs != [] {
      var init, r := rs[..|rs| - 1], rs[|rs| - 1];
      var t, u := Entries(init, edge), Entries(rs, edge);
      TableOf(init, edge);
      forall e | e in u ensures exists i :: 0 <= i < |rs| && rs[i].edge == edge && EntryOf(rs[i]) == e {
        if e in t {
          var i :| 0 <= i < |init| && init[i].edge == edge && EntryOf(init[i]) == e;
          assert rs[i] == init[i];
        } else {
          assert rs[|rs| - 1] == r;
        }
      }
      forall i | 0 <= i < |rs| && rs[i].edge == edge ensures Known(u, rs[i].cycle) {
        if i < |init| { assert Known(t, init[i].cycle); KnownGrows(t, u, rs[i].cycle); }
        else if Known(t, r.cycle) { KnownGrows(t, u, r.cycle); }
        else { assert u[|t|] == EntryOf(r); }
      }
    }
  }

  lemma KnownGrows(t: seq<Entry>, u: seq<Entry>, cycle: nat)
    requires t <= u && Known(t, cycle)
    ensures Known(u, cycle)
  {
    var i :| 0 <= i < |t| && t[i].cycle == cycle;
    assert u[i] == t[i];
  }

  ghost predicate Received(rs: seq<Receipt>, edge: Edge, e: Entry) {
    exists i :: 0 <= i < |rs| && rs[i].edge == edge && EntryOf(rs[i]) == e
  }

  /** Consistent receipts: the table holds exactly what was received, whatever the order. */
  lemma TableMembers(rs: seq<Receipt>, edge: Edge)
    requires Consistent(rs)
    ensures forall e :: e in Entries(rs, edge) <==> Received(rs, edge, e)
  {
    hide Entries;
    TableOf(rs, edge);
    var t := Entries(rs, edge);
    forall e | Received(rs, edge, e) ensures e in t {
      var i :| 0 <= i < |rs| && rs[i].edge == edge && EntryOf(rs[i]) == e;
      assert Known(t, rs[i].cycle);
      var k :| 0 <= k < |t| && t[k].cycle == rs[i].cycle;
      assert t[k] in t;
      var j :| 0 <= j < |rs| && rs[j].edge == edge && EntryOf(rs[j]) == t[k];
      assert SameKey(rs[i], rs[j]);
    }
  }

  // ------------------------------------------------------------------- the loops

  predicate Agrees(table: seq<Entry>, e: Entry) {
    forall i :: 0 <= i < |table| && table[i].cycle == e.cycle ==> table[i] == e
  }

  lemma ConsistentStep(rs: seq<Receipt>, r: Receipt)
    requires Consistent(rs)
    ensures Consistent(rs + [r]) <==> Agrees(Entries(rs, r.edge), EntryOf(r))
  {
    hide Entries;
    var t, all := Entries(rs, r.edge), rs + [r];
    TableMembers(rs, r.edge);
    assert all[|rs|] == r;
    if Consistent(all) {
      forall i | 0 <= i < |t| && t[i].cycle == r.cycle ensures t[i] == EntryOf(r) {
        assert t[i] in t;
        var j :| 0 <= j < |rs| && rs[j].edge == r.edge && EntryOf(rs[j]) == t[i];
        assert all[j] == rs[j] && SameKey(all[j], r);
      }
    }
    if Agrees(t, EntryOf(r)) {
      forall j | 0 <= j < |rs| && SameKey(rs[j], r) ensures EntryOf(rs[j]) == EntryOf(r) {
        assert Received(rs, r.edge, EntryOf(rs[j]));
        var i :| 0 <= i < |t| && t[i] == EntryOf(rs[j]);
      }
    }
  }

  lemma ConsistentPrefix(rs: seq<Receipt>, all: seq<Receipt>)
    requires rs <= all && Consistent(all)
    ensures Consistent(rs)
  {
    forall i, j | 0 <= i < |rs| && 0 <= j < |rs| && SameKey(rs[i], rs[j]) ensures EntryOf(rs[i]) == EntryOf(rs[j]) {
      assert all[i] == rs[i] && all[j] == rs[j];
    }
  }

  lemma EntriesSnoc(rs: seq<Receipt>, r: Receipt, edge: Edge)
    ensures var t := Entries(rs, edge);
      Entries(rs + [r], edge) == if r.edge == edge && !Known(t, r.cycle) then t + [EntryOf(r)] else t
  {
    assert (rs + [r])[..|rs|] == rs;
  }

  lemma {:induction false} FlattenPrefix(ss: seq<seq<Receipt>>, n: nat)
    requires n < |ss|
    ensures Flatten(ss[..n + 1]) == Flatten(ss[..n]) + ss[n]
    ensures Flatten(ss[..n + 1]) <= Flatten(ss)
  {
    assert ss[..n + 1][..n] == ss[..n];
    if n + 1 == |ss| {
      assert ss[..n + 1] == ss;
    } else {
      var init := ss[..|ss| - 1];
      FlattenPrefix(init, n);
      assert init[..n + 1] == ss[..n + 1] && init[..n] == ss[..n] && init[n] == ss[n];
    }
  }

  /** One receipt against one table. */
  method Note(table: seq<Entry>, r: Receipt) returns (ok: bool, next: seq<Entry>)
    ensures ok == Agrees(table, EntryOf(r))
    ensures ok ==> next == if Known(table, r.cycle) then table else table + [EntryOf(r)]
  {
    ok, next := Agrees(table, EntryOf(r)), table;
    if ok && !Known(table, r.cycle) { next := table + [EntryOf(r)]; }
  }

  method LifecycleReceipts(ss: seq<seq<Receipt>>, count: int) returns (result: Option<(seq<Entry>, seq<Entry>)>)
    ensures result == Recover(ss, count)
  {
    hide Entries, Flatten, Consistent, Join, LineOk, Known, Agrees, SnapshotOk;
    var ready, closed := [], [];
    assert ss[..0] == [];
    Nothing(count);
    var n := 0;
    while n < |ss|
      invariant n <= |ss| && AllOk(ss[..n], count) && Consistent(Flatten(ss[..n]))
      invariant ready == Entries(Flatten(ss[..n]), Ready) && closed == Entries(Flatten(ss[..n]), Closed)
    {
      var s := ss[n];
      FlattenPrefix(ss, n);
      var ok;
      ok, ready, closed := ReadSnapshot(Flatten(ss[..n]), s, count, ready, closed);
      if !ok {
        if SnapshotOk(s, count) && Consistent(Flatten(ss)) { ConsistentPrefix(Flatten(ss[..n + 1]), Flatten(ss)); }
        return None;
      }
      n := n + 1;
    }
    assert ss[..n] == ss;
    result := Conclude(Flatten(ss), ready, closed, count);
  }

  lemma Nothing(count: int)
    ensures Flatten([]) == [] && Consistent([]) && Entries([], Ready) == [] && Entries([], Closed) == []
    ensures AllOk([], count)
  {}

  method Conclude(ghost rs: seq<Receipt>, ready: seq<Entry>, closed: seq<Entry>, count: int)
    returns (result: Option<(seq<Entry>, seq<Entry>)>)
    requires ready == Entries(rs, Ready) && closed == Entries(rs, Closed)
    ensures result == Join(rs, count)
  {
    hide Entries, Sort, Leq;
    var a, b := Sort(ready, Leq), Sort(closed, Leq);
    if |a| != count || |b| != count || !SameIdentity(a, b) || !DistinctPids(a) { return None; }
    return Some((a, b));
  }

  /** The lines of one snapshot, added to what was read before. */
  method ReadSnapshot(ghost before: seq<Receipt>, s: seq<Receipt>, count: int, ready0: seq<Entry>, closed0: seq<Entry>)
    returns (ok: bool, ready: seq<Entry>, closed: seq<Entry>)
    requires Consistent(before) && ready0 == Entries(before, Ready) && closed0 == Entries(before, Closed)
    ensures ok <==> SnapshotOk(s, count) && Consistent(before + s)
    ensures ok ==> ready == Entries(before + s, Ready) && closed == Entries(before + s, Closed)
  {
    hide Entries, Consistent, LineOk, Known, Agrees, EntryOf;
    ready, closed := ready0, closed0;
    var seen: set<(Edge, nat)>, k := {}, 0;
    assert before + s[..0] == before;
    while k < |s|
      invariant k <= |s|
      invariant forall i :: 0 <= i < k ==> LineOk(s[i], count)
      invariant DistinctKeys(s[..k]) && Consistent(before + s[..k])
      invariant forall e: Edge, c: nat :: (e, c) in seen <==>
        exists i :: 0 <= i < k && s[i].edge == e && s[i].cycle == c
      invariant ready == Entries(before + s[..k], Ready) && closed == Entries(before + s[..k], Closed)
    {
      var r := s[k];
      ghost var p := before + s[..k];
      assert p + [r] == before + s[..k + 1];
      if !LineOk(r, count) { return false, ready, closed; }
      if (r.edge, r.cycle) in seen {
        var i :| 0 <= i < k && s[i].edge == r.edge && s[i].cycle == r.cycle;
        assert SameKey(s[i], s[k]);
        return false, ready, closed;
      }
      ConsistentStep(p, r);
      EntriesSnoc(p, r, Ready);
      EntriesSnoc(p, r, Closed);
      var agrees;
      if r.edge.Ready? { agrees, ready := Note(ready, r); } else { agrees, closed := Note(closed, r); }
      if !agrees {
        if Consistent(before + s) { ConsistentPrefix(p + [r], before + s); }
        return false, ready, closed;
      }
      seen := seen + {(r.edge, r.cycle)};
      k := k + 1;
    }
    assert s[..k] == s;
    ok := true;
  }
}
