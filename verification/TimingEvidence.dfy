/** Merging and validating together: what the validator sees of a merged log, and when it sees the log itself. */
module TimingEvidence {
  import opened Collections
  import opened Text
  import opened Sorting
  import opened SnapshotMerge
  import opened MergeLaws
  import T = AppTiming

  // ------------------------------------------------------------------- rows of a process

  function EdgeOf(s: string): T.Edge { if s == "begin" then T.Begin else if s == "end" then T.End else T.Event }

  /** A record as the validator reads it. */
  function RowOf(r: Record): T.Row {
    T.Row(Value(r.role), Value(r.window), r.stage, EdgeOf(r.edge), At(r), Value(r.elapsed), r.lane == Lane1)
  }

  function OfPid(pid: nat): Record -> bool { r => Pid(r) == pid }

  function Rows(rs: seq<Record>): (rows: seq<T.Row>)
    ensures |rows| == |rs| && forall i :: 0 <= i < |rs| ==> rows[i] == RowOf(rs[i])
  {
    seq(|rs|, i requires 0 <= i < |rs| => RowOf(rs[i]))
  }

  /** `records.get(pid, [])`. */
  function RowsOf(rs: seq<Record>, pid: nat): seq<T.Row> { Rows(Select(rs, OfPid(pid))) }

  lemma SamePid(rs: seq<Record>, pid: nat)
    ensures forall i :: 0 <= i < |Select(rs, OfPid(pid))| ==> Pid(Select(rs, OfPid(pid))[i]) == pid
  {
    hide Select, Pid;
    var ys := Select(rs, OfPid(pid));
    Selected(rs, OfPid(pid));
    forall i | 0 <= i < |ys| ensures Pid(ys[i]) == pid { assert ys[i] in ys; assert OfPid(pid)(ys[i]); }
  }

  /** For records of one process the order of the output is the order of time. */
  lemma SortedIsTimeOrdered(rs: seq<Record>, pid: nat)
    requires forall i :: 0 <= i < |rs| ==> Pid(rs[i]) == pid
    ensures Sorted(rs, Leq) <==> T.TimeOrdered(Rows(rs))
  {
    hide Pid, At;
    if T.TimeOrdered(Rows(rs)) {
      forall i, j | 0 <= i < j < |rs| ensures Leq(rs[i], rs[j]) { assert Rows(rs)[i].at <= Rows(rs)[j].at; }
    }
    if Sorted(rs, Leq) {
      forall i, j | 0 <= i < j < |rs| ensures Rows(rs)[i].at <= Rows(rs)[j].at { assert Leq(rs[i], rs[j]); }
    }
  }

  // --------------------------------------------------------------------- merged evidence

  /** The validator sees every process of a merged log in time order. */
  lemma MergedTimeOrdered(ss: seq<seq<Record>>, pid: nat)
    requires Merge(ss).Some?
    ensures T.TimeOrdered(RowsOf(Merge(ss).value, pid))
  {
    hide Merge, Leq, Rows, Select;
    var out := Merge(ss).value;
    MergeExact(ss);
    SelectSorted(out, Leq, OfPid(pid));
    SamePid(out, pid);
    SortedIsTimeOrdered(Select(out, OfPid(pid)), pid);
  }

  /** So in a merged log all intervals of a phase are in order, whatever their lanes. */
  lemma MergedInOrder(ss: seq<seq<Record>>, pid: nat, key: T.Key)
    requires Merge(ss).Some?
    ensures T.InOrder(T.EdgesOf(RowsOf(Merge(ss).value, pid), key))
  {
    hide Merge, RowsOf;
    MergedTimeOrdered(ss, pid);
    T.TimeInOrder(RowsOf(Merge(ss).value, pid), key);
  }

  /** Merging one snapshot leaves the rows of a process as they are exactly when they are in time order. */
  lemma SingleMergeExact(s: seq<Record>, pid: nat)
    requires SnapshotOk(s)
    ensures Merge([s]).Some?
    ensures RowsOf(Merge([s]).value, pid) == RowsOf(s, pid) <==> T.TimeOrdered(RowsOf(s, pid))
  {
    hide Leq, Sooner, Union, Sort, Select, SnapshotOk, Rows;
    assert Distinct(s) by { OkDistinct(s); }
    SingleUnion(s);
    assert Merge([s]) == Some(Sort(s, Leq));
    MergedTimeOrdered([s], pid);
    LeqPreorder();
    SortSelect(s, Leq, OfPid(pid));
    SamePid(s, pid);
    SortedIsTimeOrdered(Select(s, OfPid(pid)), pid);
    if T.TimeOrdered(RowsOf(s, pid)) { SortFixed(Select(s, OfPid(pid)), Leq); }
  }

  lemma OkDistinct(s: seq<Record>)
    requires SnapshotOk(s)
    ensures Distinct(s)
  {}

  /** In particular the verdict on such a process is the same. */
  lemma SingleVerdict(s: seq<Record>, pid: nat, role: nat)
    requires SnapshotOk(s) && T.TimeOrdered(RowsOf(s, pid))
    ensures T.Accepts(RowsOf(Merge([s]).value, pid), role) <==> T.Accepts(RowsOf(s, pid), role)
  {
    hide RowsOf, SnapshotOk, Merge;
    SingleMergeExact(s, pid);
  }

  /** Snapshots that together hold exactly the records of a log: without ties each process is recovered as it was. */
  lemma CoverRecovered(ss: seq<seq<Record>>, raw: seq<Record>, pid: nat)
    requires Merge(ss).Some? && NoTies(ss) && Distinct(raw) && T.TimeOrdered(RowsOf(raw, pid))
    requires forall r :: r in raw <==> Somewhere(ss, r)
    ensures RowsOf(Merge(ss).value, pid) == RowsOf(raw, pid)
  {
    hide Merge, Leq, Select, Rows, Somewhere;
    var out, p := Merge(ss).value, OfPid(pid);
    MergeExact(ss);
    var a, b := Select(out, p), Select(raw, p);
    SelectSorted(out, Leq, p);
    SamePid(raw, pid);
    SortedIsTimeOrdered(b, pid);
    SelectDistinct(out, p);
    SelectDistinct(raw, p);
    Selected(out, p);
    Selected(raw, p);
    forall r ensures r in a <==> r in b {}
    DistinctSame(a, b);
    forall i, j | 0 <= i < |a| && 0 <= j < |a| && Leq(a[i], a[j]) && Leq(a[j], a[i]) ensures a[i] == a[j] {
      assert a[i] in a && a[j] in a;
    }
    SortedUnique(a, b, Leq);
  }

  // ------------------------------------------------------------------- a changed verdict

  const BEGIN0 := Record("7", "2", "1", "s", "begin", "10", "0", Lane0)
  const END0 := Record("7", "2", "1", "s", "end", "20", "10", Lane0)
  const BEGIN1 := Record("7", "2", "1", "s", "begin", "5", "0", Lane1)
  const END1 := Record("7", "2", "1", "s", "end", "15", "10", Lane1)
  const CROSSED: seq<Record> := [BEGIN0, END0, BEGIN1, END1]
  const CROSSED_MERGED: seq<Record> := [BEGIN1, BEGIN0, END1, END0]

  lemma Digit(c: char)
    requires IsDigit(c)
    ensures Value([c]) == (c - '0') as nat
  {
    assert [c][..0] == "";
  }

  lemma TwoDigits(c: char, d: char)
    requires IsDigit(c) && IsDigit(d)
    ensures Value([c, d]) == 10 * (c - '0') as nat + (d - '0') as nat
  {
    Digit(c);
    assert [c, d][..1] == [c];
  }

  lemma Numbers()
    ensures Value("0") == 0 && Value("1") == 1 && Value("2") == 2 && Value("5") == 5 && Value("7") == 7
    ensures Value("10") == 10 && Value("15") == 15 && Value("20") == 20
  {
    hide Value;
    Digit('0'); Digit('1'); Digit('2'); Digit('5'); Digit('7');
    TwoDigits('1', '0'); TwoDigits('1', '5'); TwoDigits('2', '0');
  }

  lemma CrossedRows()
    ensures RowOf(BEGIN0) == T.CROSSED[0] && RowOf(END0) == T.CROSSED[1]
    ensures RowOf(BEGIN1) == T.CROSSED[2] && RowOf(END1) == T.CROSSED[3]
    ensures forall r <- CROSSED :: Pid(r) == 7
  {
    hide Value;
    Numbers();
    assert EdgeOf("begin") == T.Begin && EdgeOf("end") == T.End by { assert "begin"[0] != "end"[0]; }
  }

  lemma {:induction false} AllSelected(rs: seq<Record>, p: Record -> bool)
    requires forall r <- rs :: p(r)
    ensures Select(rs, p) == rs
  {
    if rs != [] {
      var init, last := rs[..|rs| - 1], rs[|rs| - 1];
      assert rs == init + [last];
      AllSelected(init, p);
    }
  }

  lemma CrossedTimes()
    ensures At(BEGIN0) == 10 && At(END0) == 20 && At(BEGIN1) == 5 && At(END1) == 15
    ensures Pid(BEGIN0) == Pid(END0) == Pid(BEGIN1) == Pid(END1)
  {
    hide Value;
    Numbers();
  }

  lemma CrossedOrder()
    ensures Sorted(CROSSED_MERGED, Leq) && Separates(CROSSED_MERGED, Leq)
  {
    hide At, Pid;
    CrossedTimes();
  }

  lemma CrossedSorted()
    ensures Sort(CROSSED, Leq) == CROSSED_MERGED
  {
    hide Sort, Leq, Sorted, Separates;
    CrossedOrder();
    LeqPreorder();
    SortSorted(CROSSED, Leq);
    SortPermutes(CROSSED, Leq);
    assert multiset(CROSSED_MERGED) == multiset(CROSSED);
    SortedUnique(CROSSED_MERGED, Sort(CROSSED, Leq), Leq);
  }

  lemma CrossedOk()
    ensures SnapshotOk(CROSSED)
  {
    hide Value;
    Numbers();
    assert "begin"[0] != "end"[0];
  }

  lemma RawRows()
    ensures RowsOf(CROSSED, 7) == T.CROSSED
  {
    hide RowOf, Pid, Select;
    CrossedRows();
    AllSelected(CROSSED, OfPid(7));
  }

  lemma MergedRows()
    ensures RowsOf(CROSSED_MERGED, 7) == [T.CROSSED[2], T.CROSSED[0], T.CROSSED[3], T.CROSSED[1]]
  {
    hide RowOf, Pid, Select;
    CrossedRows();
    forall r <- CROSSED_MERGED ensures Pid(r) == 7 { assert r in CROSSED; }
    AllSelected(CROSSED_MERGED, OfPid(7));
  }

  lemma CrossedMerged()
    ensures SnapshotOk(CROSSED) && Merge([CROSSED]) == Some(CROSSED_MERGED)
  {
    hide Sort, Union, SnapshotOk, Leq, Sooner;
    CrossedOk();
    assert Distinct(CROSSED) by { OkDistinct(CROSSED); }
    SingleUnion(CROSSED);
    CrossedSorted();
  }

  /** A snapshot that is accepted as it stands and refused once merged: its lanes are not in one order of time. */
  lemma MergeMayRefuse()
    ensures SnapshotOk(CROSSED) && T.Accepts(RowsOf(CROSSED, 7), 2)
    ensures Merge([CROSSED]).Some? && !T.Accepts(RowsOf(Merge([CROSSED]).value, 7), 2)
  {
    hide T.Accepts, RowsOf, Merge, SnapshotOk;
    RawRows();
    T.LanesMayOverlap();
    CrossedMerged();
    MergedRows();
    TwoBegins();
  }

  lemma TwoBegins()
    ensures !T.Accepts([T.CROSSED[2], T.CROSSED[0], T.CROSSED[3], T.CROSSED[1]], 2)
  {
    var rows, key := [T.CROSSED[2], T.CROSSED[0], T.CROSSED[3], T.CROSSED[1]], T.Key(1, "s");
    T.OnePhase(rows, key, key);
    assert !T.InTurn(rows, 1);
  }
}
