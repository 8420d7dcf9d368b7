/** Merging overlapping saved snapshots of timing records into one ordered record set. */
module SnapshotMerge {
  import opened Collections
  import opened Text
  import opened Sorting

  type Numeral = s: string | IsNumeral(s) witness "0"

  datatype Lane = Untagged | Lane0 | Lane1

  /** One whole record as its bytes spell it; equal records are equal byte for byte. */
  datatype Record = Record(pid: Numeral, role: Numeral, window: Numeral, stage: string, edge: string,
                           at: Numeral, elapsed: Numeral, lane: Lane)

  function Pid(r: Record): nat { Value(r.pid) }

  function At(r: Record): nat { Value(r.at) }

  /** Clock identity: the process as spelled, and whether the record ends in ` lane=1`. */
  datatype Identity = Identity(pid: string, worker: bool)

  function IdentityOf(r: Record): Identity { Identity(r.pid, r.lane == Lane1) }

  /** The order of the output. */
  predicate Leq(a: Record, b: Record) {
    Pid(a) < Pid(b) || (Pid(a) == Pid(b) && At(a) <= At(b))
  }

  lemma LeqPreorder()
    ensures Preorder(Leq)
  {}

  /** The latest time in a snapshot, by which snapshots are taken in turn. */
  function LatestAt(s: seq<Record>): nat {
    if s == [] then 0
    else
      var m, a := LatestAt(s[..|s| - 1]), At(s[|s| - 1]);
      if m < a then a else m
  }

  predicate Sooner(s: seq<Record>, t: seq<Record>) { LatestAt(s) <= LatestAt(t) }

  // ----------------------------------------------------------------- the specification

  /** Within a snapshot each process's clock never goes back. */
  predicate ClockOrdered(s: seq<Record>) {
    forall i, j :: 0 <= i < j < |s| && IdentityOf(s[i]) == IdentityOf(s[j]) ==> At(s[i]) <= At(s[j])
  }

  predicate SnapshotOk(s: seq<Record>) { Distinct(s) && ClockOrdered(s) }

  function AddNew(seen: seq<Record>, s: seq<Record>): seq<Record> {
    if s == [] then seen
    else
      var acc, r := AddNew(seen, s[..|s| - 1]), s[|s| - 1];
      if r in acc then acc else acc + [r]
  }

  /** All records of the snapshots, each at its first appearance. */
  function Union(ss: seq<seq<Record>>): seq<Record> {
    if ss == [] then [] else AddNew(Union(ss[..|ss| - 1]), ss[|ss| - 1])
  }

  predicate AllOk(ss: seq<seq<Record>>) {
    forall i :: 0 <= i < |ss| ==> SnapshotOk(ss[i])
  }

  /** `saved_app_timing`: the records of the merged text, or a failed assertion. */
  function Merge(ss: seq<seq<Record>>): Option<seq<Record>> {
    if AllOk(ss) then Some(Sort(Union(Sort(ss, Sooner)), Leq)) else None
  }

  // --------------------------------------------------------------------- the loops

  function LastAt(s: seq<Record>, id: Identity): nat {
    if s == [] then 0
    else if IdentityOf(s[|s| - 1]) == id then At(s[|s| - 1])
    else LastAt(s[..|s| - 1], id)
  }

  lemma {:induction false} LastIsLast(s: seq<Record>, id: Identity)
    requires ClockOrdered(s)
    ensures forall i :: 0 <= i < |s| && IdentityOf(s[i]) == id ==> At(s[i]) <= LastAt(s, id)
    ensures LastAt(s, id) > 0 ==> exists i :: 0 <= i < |s| && IdentityOf(s[i]) == id && At(s[i]) == LastAt(s, id)
  {
    hide At;
    if s != [] {
      var before := s[..|s| - 1];
      LastIsLast(before, id);
      if IdentityOf(s[|s| - 1]) != id && LastAt(before, id) > 0 {
        var i :| 0 <= i < |before| && IdentityOf(before[i]) == id && At(before[i]) == LastAt(before, id);
        assert s[i] == before[i];
      }
    }
  }

  lemma ClockStep(s: seq<Record>, k: nat)
    requires k < |s| && ClockOrdered(s[..k])
    ensures s[..k + 1] == s[..k] + [s[k]]
    ensures ClockOrdered(s[..k + 1]) <==> At(s[k]) >= LastAt(s[..k], IdentityOf(s[k]))
    ensures ClockOrdered(s) ==> ClockOrdered(s[..k + 1])
  {
    hide At, IdentityOf;
    var p, next, id := s[..k], s[..k + 1], IdentityOf(s[k]);
    LastIsLast(p, id);
    forall i | 0 <= i < k ensures next[i] == p[i] {}
    if ClockOrdered(next) && LastAt(p, id) > 0 {
      var i :| 0 <= i < |p| && IdentityOf(p[i]) == id && At(p[i]) == LastAt(p, id);
      assert next[i] == p[i] && next[k] == s[k];
    }
  }

  lemma LastSnoc(s: seq<Record>, r: Record, id: Identity)
    ensures LastAt(s + [r], id) == if IdentityOf(r) == id then At(r) else LastAt(s, id)
  {
    assert (s + [r])[..|s|] == s;
  }

  /** The checks on one snapshot, record by record. */
  method CheckSnapshot(s: seq<Record>) returns (ok: bool)
    ensures ok == SnapshotOk(s)
  {
    hide At, IdentityOf, LastAt, ClockOrdered;
    var seen: set<Record>, previous: map<Identity, nat> := {}, map[];
    assert s[..0] == [];
    StartOfClock();
    var k := 0;
    while k < |s|
      invariant k <= |s|
      invariant forall r :: r in seen <==> r in s[..k]
      invariant Distinct(s[..k]) && ClockOrdered(s[..k])
      invariant forall id: Identity :: (if id in previous then previous[id] else 0) == LastAt(s[..k], id)
    {
      var r := s[k];
      var id := IdentityOf(r);
      ClockStep(s, k);
      if r in seen {
        var i :| 0 <= i < k && s[..k][i] == r;
        assert s[i] == s[k];
        return false;
      }
      if At(r) < (if id in previous then previous[id] else 0) { return false; }
      forall other: Identity
        ensures LastAt(s[..k + 1], other) == if id == other then At(r) else LastAt(s[..k], other)
      {
        LastSnoc(s[..k], r, other);
      }
      previous := previous[id := At(r)];
      seen := seen + {r};
      k := k + 1;
    }
    assert s[..k] == s;
    ok := true;
  }

  lemma StartOfClock()
    ensures ClockOrdered([]) && forall id: Identity :: LastAt([], id) == 0
  {}

  lemma AddSnoc(seen: seq<Record>, s: seq<Record>, k: nat)
    requires k < |s|
    ensures var acc := AddNew(seen, s[..k]); AddNew(seen, s[..k + 1]) == if s[k] in acc then acc else acc + [s[k]]
  {
    assert s[..k + 1][..k] == s[..k];
  }

  lemma UnionSnoc(ss: seq<seq<Record>>, k: nat)
    requires k < |ss|
    ensures Union(ss[..k + 1]) == AddNew(Union(ss[..k]), ss[k])
  {
    assert ss[..k + 1][..k] == ss[..k];
  }

  method SavedAppTiming(snapshots: seq<seq<Record>>) returns (merged: Option<seq<Record>>)
    ensures merged == Merge(snapshots)
  {
    hide SnapshotOk, Union, AddNew, Sort, Sooner, Leq;
    var ordered := Sort(snapshots, Sooner);
    SortMembers(snapshots, Sooner);
    var records := [];
    assert ordered[..0] == [] && Union([]) == [] by { NothingJoined([]); }
    var n := 0;
    while n < |ordered|
      invariant n <= |ordered|
      invariant AllOk(ordered[..n])
      invariant records == Union(ordered[..n])
    {
      var s := ordered[n];
      var ok := CheckSnapshot(s);
      if !ok {
        assert s in ordered;
        var i :| 0 <= i < |snapshots| && snapshots[i] == s;
        return None;
      }
      ghost var before := records;
      assert s[..0] == [] && AddNew(before, []) == before by { NothingJoined(before); }
      var k := 0;
      while k < |s|
        invariant k <= |s| && records == AddNew(before, s[..k])
      {
        AddSnoc(before, s, k);
        if s[k] !in records { records := records + [s[k]]; }
        k := k + 1;
      }
      assert s[..k] == s;
      UnionSnoc(ordered, n);
      n := n + 1;
    }
    assert ordered[..n] == ordered;
    assert AllOk(snapshots) by {
      forall i | 0 <= i < |snapshots| ensures SnapshotOk(snapshots[i]) { assert snapshots[i] in ordered; }
    }
    return Some(Sort(records, Leq));
  }

  lemma NothingJoined(seen: seq<Record>)
    ensures Union([]) == [] && AddNew(seen, []) == seen
  {}
}
