/** Begin/end matching of one process's timing records over two lanes. */
module AppTiming {
  import opened Collections

  datatype Edge = Begin | End | Event

  datatype Row = Row(role: nat, window: nat, stage: string, edge: Edge, at: nat, elapsed: nat, lane: bool)

  datatype Key = Key(window: nat, stage: string)

  datatype Interval = Interval(begin: nat, end: nat)

  /** What the matching yields per stage: durations, intervals and event times, in record order. */
  datatype Trace = Trace(spans: map<string, seq<nat>>, intervals: map<string, seq<Interval>>,
                         events: map<string, seq<nat>>)

  function KeyOf(r: Row): Key { Key(r.window, r.stage) }

  // ------------------------------------------------------------ the declarative form

  /** The begin and end records of one phase, in order. */
  function EdgesOf(rows: seq<Row>, key: Key): seq<Row> {
    if rows == [] then []
    else
      var r := rows[|rows| - 1];
      EdgesOf(rows[..|rows| - 1], key) + if KeyOf(r) == key && !r.edge.Event? then [r] else []
  }

  /** Begin, end, begin, ...: each begin without a duration, each end with the exact distance from its begin. */
  predicate Alternates(es: seq<Row>) {
    forall j :: 0 <= j < |es| ==> InTurn(es, j)
  }

  predicate InTurn(es: seq<Row>, j: nat)
    requires j < |es|
  {
    if j % 2 == 0 then es[j].edge.Begin? && es[j].elapsed == 0
    else es[j].edge.End? && es[j].elapsed == es[j].at - es[j - 1].at
  }

  predicate EventsInstant(rows: seq<Row>) {
    forall i :: 0 <= i < |rows| && rows[i].edge.Event? ==> rows[i].elapsed == 0
  }

  predicate RoleIs(rows: seq<Row>, role: nat) {
    forall i :: 0 <= i < |rows| ==> rows[i].role == role && rows[i].at > 0
  }

  /** Within a lane the clock never goes back. */
  predicate LaneOrdered(rows: seq<Row>) {
    forall i, j :: 0 <= i < j < |rows| && rows[i].lane == rows[j].lane ==> rows[i].at <= rows[j].at
  }

  ghost predicate PhasesAlternate(rows: seq<Row>) {
    forall key: Key :: Alternates(EdgesOf(rows, key))
  }

  ghost predicate PhasesClosed(rows: seq<Row>) {
    forall key: Key :: |EdgesOf(rows, key)| % 2 == 0
  }

  /** The order and duration checks of one process. */
  ghost predicate Accepts(rows: seq<Row>, role: nat) {
    RoleIs(rows, role) && LaneOrdered(rows) && EventsInstant(rows) && PhasesAlternate(rows) && PhasesClosed(rows)
  }

  // -------------------------------------------------------------- what is recorded

  function Intervals(rows: seq<Row>, stage: string): seq<Interval> {
    if rows == [] then []
    else
      var before, r := rows[..|rows| - 1], rows[|rows| - 1];
      var es := EdgesOf(before, KeyOf(r));
      Intervals(before, stage)
      + if r.edge.End? && r.stage == stage && es != [] then [Interval(es[|es| - 1].at, r.at)] else []
  }

  function Spans(rows: seq<Row>, stage: string): seq<nat> {
    if rows == [] then []
    else
      var r := rows[|rows| - 1];
      Spans(rows[..|rows| - 1], stage) + if r.edge.End? && r.stage == stage then [r.elapsed] else []
  }

  function Events(rows: seq<Row>, stage: string): seq<nat> {
    if rows == [] then []
    else
      var r := rows[|rows| - 1];
      Events(rows[..|rows| - 1], stage) + if r.edge.Event? && r.stage == stage then [r.at] else []
  }

  function Get<K, V>(m: map<K, seq<V>>, k: K): seq<V> { if k in m then m[k] else [] }

  function LastAt(rows: seq<Row>, lane: bool): nat {
    if rows == [] then 0
    else if rows[|rows| - 1].lane == lane then rows[|rows| - 1].at
    else LastAt(rows[..|rows| - 1], lane)
  }

  // ------------------------------------------------------------------ step lemmas

  lemma EdgesSnoc(rows: seq<Row>, r: Row, key: Key)
    ensures EdgesOf(rows + [r], key) == EdgesOf(rows, key) + if KeyOf(r) == key && !r.edge.Event? then [r] else []
  {
    assert (rows + [r])[..|rows|] == rows;
  }

  lemma RecordSnoc(rows: seq<Row>, r: Row, stage: string)
    ensures Spans(rows + [r], stage) == Spans(rows, stage) + if r.edge.End? && r.stage == stage then [r.elapsed] else []
    ensures Events(rows + [r], stage) == Events(rows, stage) + if r.edge.Event? && r.stage == stage then [r.at] else []
    ensures var es := EdgesOf(rows, KeyOf(r));
      Intervals(rows + [r], stage) == Intervals(rows, stage)
        + if r.edge.End? && r.stage == stage && es != [] then [Interval(es[|es| - 1].at, r.at)] else []
  {
    assert (rows + [r])[..|rows|] == rows;
  }

  /** The last record of a lane bounds all of it. */
  lemma {:induction false} LastBounds(rows: seq<Row>, r: Row)
    requires LaneOrdered(rows)
    ensures LaneOrdered(rows + [r]) <==> r.at >= LastAt(rows, r.lane)
  {
    LastIsLast(rows, r.lane);
    var all := rows + [r];
    if r.at >= LastAt(rows, r.lane) {
      forall i, j | 0 <= i < j < |all| && all[i].lane == all[j].lane ensures all[i].at <= all[j].at {
        if j == |rows| { assert rows[i].lane == r.lane; }
      }
    }
    if LaneOrdered(all) && LastAt(rows, r.lane) > 0 {
      var i :| 0 <= i < |rows| && rows[i].lane == r.lane && rows[i].at == LastAt(rows, r.lane);
      assert all[i] == rows[i] && all[|rows|] == r;
    }
  }

  lemma {:induction false} LastIsLast(rows: seq<Row>, lane: bool)
    requires LaneOrdered(rows)
    ensures forall i :: 0 <= i < |rows| && rows[i].lane == lane ==> rows[i].at <= LastAt(rows, lane)
    ensures LastAt(rows, lane) > 0 ==>
      exists i :: 0 <= i < |rows| && rows[i].lane == lane && rows[i].at == LastAt(rows, lane)
  {
    if rows != [] {
      var before := rows[..|rows| - 1];
      LastIsLast(before, lane);
      if rows[|rows| - 1].lane != lane && LastAt(before, lane) > 0 {
        var i :| 0 <= i < |before| && before[i].lane == lane && before[i].at == LastAt(before, lane);
        assert rows[i] == before[i];
      }
    }
  }

  lemma AlternatesSnoc(es: seq<Row>, r: Row)
    requires Alternates(es) && !r.edge.Event?
    ensures Alternates(es + [r]) <==>
      if |es| % 2 == 0 then r.edge.Begin? && r.elapsed == 0 else r.edge.End? && r.elapsed == r.at - es[|es| - 1].at
  {
    var all := es + [r];
    forall j | 0 <= j < |es| ensures InTurn(all, j) == InTurn(es, j) {}
    assert InTurn(all, |es|) ==
      if |es| % 2 == 0 then r.edge.Begin? && r.elapsed == 0 else r.edge.End? && r.elapsed == r.at - es[|es| - 1].at;
  }

  lemma {:induction false} BadPrefixRefused(rows: seq<Row>, k: nat, key: Key)
    requires k <= |rows| && !Alternates(EdgesOf(rows[..k], key))
    ensures !Alternates(EdgesOf(rows, key))
  {
    if k == |rows| {
      assert rows[..k] == rows;
    } else {
      var before := rows[..|rows| - 1];
      assert before[..k] == rows[..k];
      BadPrefixRefused(before, k, key);
      var es, all := EdgesOf(before, key), EdgesOf(rows, key);
      var j :| 0 <= j < |es| && !InTurn(es, j);
      assert all[j] == es[j] && (j > 0 ==> all[j - 1] == es[j - 1]);
      assert !InTurn(all, j);
    }
  }

  /** The open phases: those with an odd number of edges, each with the time of its last begin. */
  ghost predicate Opens(pending: map<Key, nat>, rows: seq<Row>) {
    forall key: Key :: OpensAt(pending, rows, key)
  }

  predicate OpensAt(pending: map<Key, nat>, rows: seq<Row>, key: Key) {
    var es := EdgesOf(rows, key);
    (key in pending <==> |es| % 2 == 1) && (key in pending ==> pending[key] == es[|es| - 1].at)
  }

  ghost predicate Records(t: Trace, rows: seq<Row>) {
    forall stage: string :: Get(t.spans, stage) == Spans(rows, stage)
                            && Get(t.intervals, stage) == Intervals(rows, stage)
                            && Get(t.events, stage) == Events(rows, stage)
  }

  /** Whether record `r` fits the open phases. */
  predicate Fits(pending: map<Key, nat>, r: Row) {
    match r.edge
    case Begin => KeyOf(r) !in pending && r.elapsed == 0
    case End => KeyOf(r) in pending && r.elapsed == r.at - pending[KeyOf(r)]
    case Event => r.elapsed == 0
  }

  function Advance(pending: map<Key, nat>, r: Row): map<Key, nat> {
    match r.edge
    case Begin => pending[KeyOf(r) := r.at]
    case End => pending - {KeyOf(r)}
    case Event => pending
  }

  function Note(pending: map<Key, nat>, t: Trace, r: Row): Trace {
    match r.edge
    case Begin => t
    case End =>
      if KeyOf(r) !in pending then t else
      t.(spans := t.spans[r.stage := Get(t.spans, r.stage) + [r.elapsed]],
         intervals := t.intervals[r.stage := Get(t.intervals, r.stage) + [Interval(pending[KeyOf(r)], r.at)]])
    case Event => t.(events := t.events[r.stage := Get(t.events, r.stage) + [r.at]])
  }

  lemma OpensStep(pending: map<Key, nat>, rows: seq<Row>, r: Row)
    requires Opens(pending, rows) && PhasesAlternate(rows) && Fits(pending, r)
    ensures Opens(Advance(pending, r), rows + [r]) && PhasesAlternate(rows + [r])
  {
    hide EdgesOf, Alternates;
    forall key: Key ensures OpensAt(Advance(pending, r), rows + [r], key) && Alternates(EdgesOf(rows + [r], key)) {
      assert OpensAt(pending, rows, key) && Alternates(EdgesOf(rows, key));
      EdgesSnoc(rows, r, key);
      if KeyOf(r) == key && !r.edge.Event? { AlternatesSnoc(EdgesOf(rows, key), r); }
      assert EdgesOf(rows, key) + [] == EdgesOf(rows, key);
    }
  }

  lemma MisfitRefused(pending: map<Key, nat>, rows: seq<Row>, k: nat)
    requires k < |rows| && Opens(pending, rows[..k]) && PhasesAlternate(rows[..k]) && !Fits(pending, rows[k])
    ensures !(EventsInstant(rows) && PhasesAlternate(rows))
  {
    hide EdgesOf, Alternates;
    var r := rows[k];
    if !r.edge.Event? {
      var key := KeyOf(r);
      assert OpensAt(pending, rows[..k], key) && Alternates(EdgesOf(rows[..k], key));
      EdgesSnoc(rows[..k], r, key);
      AlternatesSnoc(EdgesOf(rows[..k], key), r);
      assert rows[..k + 1] == rows[..k] + [r];
      BadPrefixRefused(rows, k + 1, key);
    }
  }

  lemma RecordsStep(pending: map<Key, nat>, t: Trace, rows: seq<Row>, r: Row)
    requires Records(t, rows) && Opens(pending, rows) && Fits(pending, r)
    ensures Records(Note(pending, t, r), rows + [r])
  {
    hide EdgesOf, Spans, Intervals, Events;
    assert OpensAt(pending, rows, KeyOf(r));
    forall stage: string
      ensures Get(Note(pending, t, r).spans, stage) == Spans(rows + [r], stage)
      ensures Get(Note(pending, t, r).intervals, stage) == Intervals(rows + [r], stage)
      ensures Get(Note(pending, t, r).events, stage) == Events(rows + [r], stage)
    {
      RecordSnoc(rows, r, stage);
      assert Get(t.spans, stage) == Spans(rows, stage);
    }
  }

  lemma ClosedIffEmpty(pending: map<Key, nat>, rows: seq<Row>)
    requires Opens(pending, rows)
    ensures PhasesClosed(rows) <==> pending == map[]
  {
    hide EdgesOf;
    forall key: Key ensures |EdgesOf(rows, key)| % 2 == 0 <==> key !in pending { assert OpensAt(pending, rows, key); }
    if PhasesClosed(rows) {
      forall key: Key ensures key !in pending { assert |EdgesOf(rows, key)| % 2 == 0; }
    }
  }

  lemma OrderStep(rows: seq<Row>, k: nat)
    requires k < |rows| && LaneOrdered(rows[..k])
    ensures rows[..k + 1] == rows[..k] + [rows[k]]
    ensures LaneOrdered(rows[..k + 1]) <==> rows[k].at >= LastAt(rows[..k], rows[k].lane)
    ensures LaneOrdered(rows) ==> LaneOrdered(rows[..k + 1])
  {
    assert rows[..k + 1] == rows[..k] + [rows[k]];
    LastBounds(rows[..k], rows[k]);
    if LaneOrdered(rows) {
      forall i, j | 0 <= i < j <= k && rows[i].lane == rows[j].lane
        ensures rows[..k + 1][i].at <= rows[..k + 1][j].at
      {}
    }
  }

  lemma Nothing()
    ensures Opens(map[], []) && Records(Trace(map[], map[], map[]), []) && PhasesAlternate([]) && LaneOrdered([])
  {}

  /** The record loop of `validate_app_timing` for one process. */
  method MatchEdges(rows: seq<Row>, role: nat) returns (r: Option<Trace>)
    ensures r.Some? <==> Accepts(rows, role)
    ensures r.Some? ==> Records(r.value, rows)
  {
    hide EdgesOf, Spans, Intervals, Events, LastAt, Alternates, Opens, Records, PhasesAlternate, PhasesClosed,
      LaneOrdered;
    var pending: map<Key, nat>, trace, previous := map[], Trace(map[], map[], map[]), map[false := 0, true := 0];
    Nothing();
    assert rows[..0] == [] && LastAt([], false) == 0 && LastAt([], true) == 0 by { NoLast(); }
    var k := 0;
    while k < |rows|
      invariant k <= |rows|
      invariant forall i :: 0 <= i < k ==>
        rows[i].role == role && rows[i].at > 0 && (rows[i].edge.Event? ==> rows[i].elapsed == 0)
      invariant LaneOrdered(rows[..k]) && PhasesAlternate(rows[..k])
      invariant Opens(pending, rows[..k]) && Records(trace, rows[..k])
      invariant previous.Keys == {false, true}
      invariant previous[false] == LastAt(rows[..k], false) && previous[true] == LastAt(rows[..k], true)
    {
      var row := rows[k];
      OrderStep(rows, k);
      if row.role != role || row.at == 0 || row.at < previous[row.lane] { return None; }
      if !Fits(pending, row) { MisfitRefused(pending, rows, k); return None; }
      LastSnoc(rows[..k], row);
      OpensStep(pending, rows[..k], row);
      RecordsStep(pending, trace, rows[..k], row);
      previous := previous[row.lane := row.at];
      trace := Note(pending, trace, row);
      pending := Advance(pending, row);
      k := k + 1;
    }
    assert rows[..k] == rows;
    ClosedIffEmpty(pending, rows);
    if pending != map[] { return None; }
    return Some(trace);
  }

  lemma NoLast()
    ensures LastAt([], false) == 0 && LastAt([], true) == 0
  {}

  lemma LastSnoc(rows: seq<Row>, r: Row)
    ensures LastAt(rows + [r], r.lane) == r.at && LastAt(rows + [r], !r.lane) == LastAt(rows, !r.lane)
  {
    assert (rows + [r])[..|rows|] == rows;
  }

  // ------------------------------------------------------- what acceptance gives

  predicate Measured(vs: seq<Interval>, ds: seq<nat>) {
    |vs| == |ds| && forall i :: 0 <= i < |vs| ==> vs[i].begin <= vs[i].end && ds[i] == vs[i].end - vs[i].begin
  }

  lemma {:induction false} AlternatesPrefix(rows: seq<Row>, key: Key)
    requires rows != [] && Alternates(EdgesOf(rows, key))
    ensures Alternates(EdgesOf(rows[..|rows| - 1], key))
  {
    if !Alternates(EdgesOf(rows[..|rows| - 1], key)) { BadPrefixRefused(rows, |rows| - 1, key); }
  }

  /** Every stored duration is the length of its interval, which never ends before it begins, even across lanes. */
  lemma {:induction false} DurationsExact(rows: seq<Row>, stage: string)
    requires PhasesAlternate(rows)
    ensures Measured(Intervals(rows, stage), Spans(rows, stage))
  {
    hide EdgesOf, Alternates;
    if rows != [] {
      var before, r := rows[..|rows| - 1], rows[|rows| - 1];
      forall key: Key ensures Alternates(EdgesOf(before, key)) { AlternatesPrefix(rows, key); }
      DurationsExact(before, stage);
      if r.edge.End? {
        var es := EdgesOf(before, KeyOf(r));
        assert rows == before + [r];
        EdgesSnoc(before, r, KeyOf(r));
        AlternatesSnoc(es, r);
      }
    }
  }

  lemma {:induction false} EdgesBounded(rows: seq<Row>, key: Key)
    requires LaneOrdered(rows)
    ensures forall i :: 0 <= i < |EdgesOf(rows, key)| ==>
      EdgesOf(rows, key)[i].at <= LastAt(rows, EdgesOf(rows, key)[i].lane)
    ensures LaneOrdered(EdgesOf(rows, key))
  {
    if rows != [] {
      var before, r := rows[..|rows| - 1], rows[|rows| - 1];
      EdgesBounded(before, key);
      assert rows == before + [r];
      LastBounds(before, r);
    }
  }

  /** One phase's edges keep the clock of their lane, so its intervals within one lane never overlap. */
  lemma LaneIntervalsDisjoint(rows: seq<Row>, role: nat, key: Key, i: nat, j: nat)
    requires Accepts(rows, role) && i < j && 2 * j + 1 < |EdgesOf(rows, key)|
    requires EdgesOf(rows, key)[2 * i + 1].lane == EdgesOf(rows, key)[2 * j].lane
    ensures var es := EdgesOf(rows, key);
      es[2 * i].at <= es[2 * i + 1].at <= es[2 * j].at <= es[2 * j + 1].at
  {
    EdgesBounded(rows, key);
    var es := EdgesOf(rows, key);
    assert Alternates(es);
    assert InTurn(es, 2 * i + 1) && InTurn(es, 2 * j + 1);
  }

  // ------------------------------------------------------------------ order across lanes

  function BeginAt(es: seq<Row>, i: nat): nat
    requires 2 * i < |es|
  {
    es[2 * i].at
  }

  function EndAt(es: seq<Row>, i: nat): nat
    requires 2 * i + 1 < |es|
  {
    es[2 * i + 1].at
  }

  /** The intervals of a phase come one after the other. */
  ghost predicate InOrder(es: seq<Row>) {
    forall i, j :: 0 <= i < j && 2 * j < |es| ==> EndAt(es, i) <= BeginAt(es, j)
  }

  /** A begin in another lane than the end before it is no earlier than that end. */
  predicate ForwardAt(es: seq<Row>, i: nat)
    requires 2 * i + 2 < |es|
  {
    es[2 * i + 1].lane != es[2 * i + 2].lane ==> es[2 * i + 1].at <= es[2 * i + 2].at
  }

  ghost predicate SwitchesForward(es: seq<Row>) {
    forall i :: 0 <= i && 2 * i + 2 < |es| ==> ForwardAt(es, i)
  }

  lemma NextInOrder(es: seq<Row>, i: nat)
    requires LaneOrdered(es) && 2 * i + 2 < |es| && ForwardAt(es, i)
    ensures EndAt(es, i) <= BeginAt(es, i + 1)
  {}

  lemma {:induction false} FollowInOrder(es: seq<Row>, i: nat, j: nat)
    requires LaneOrdered(es) && Alternates(es) && SwitchesForward(es) && i < j && 2 * j < |es|
    ensures EndAt(es, i) <= BeginAt(es, j)
  {
    hide LaneOrdered, Alternates;
    assert ForwardAt(es, j - 1);
    NextInOrder(es, j - 1);
    if i < j - 1 {
      FollowInOrder(es, i, j - 1);
      LengthOf(es, j - 1);
    }
  }

  lemma LengthOf(es: seq<Row>, i: nat)
    requires Alternates(es) && 2 * i + 1 < |es|
    ensures BeginAt(es, i) <= EndAt(es, i)
  {
    assert InTurn(es, 2 * i + 1);
  }

  /**
   * In an accepted log the intervals of a phase are in order if and only if every change of lane between them goes
   * forward.
   */
  lemma InOrderExact(rows: seq<Row>, role: nat, key: Key)
    requires Accepts(rows, role)
    ensures InOrder(EdgesOf(rows, key)) <==> SwitchesForward(EdgesOf(rows, key))
  {
    hide EdgesOf, Alternates, LaneOrdered, ForwardAt;
    var es := EdgesOf(rows, key);
    EdgesBounded(rows, key);
    assert Alternates(es);
    if SwitchesForward(es) {
      forall i, j | 0 <= i < j && 2 * j < |es| ensures EndAt(es, i) <= BeginAt(es, j) { FollowInOrder(es, i, j); }
    }
    if InOrder(es) {
      forall i | 0 <= i && 2 * i + 2 < |es| ensures ForwardAt(es, i) { OrderedForward(es, i); }
    }
  }

  lemma OrderedForward(es: seq<Row>, i: nat)
    requires 2 * i + 2 < |es| && InOrder(es)
    ensures ForwardAt(es, i)
  {
    assert EndAt(es, i) <= BeginAt(es, i + 1);
  }

  predicate TimeOrdered(rows: seq<Row>) {
    forall i, j :: 0 <= i < j < |rows| ==> rows[i].at <= rows[j].at
  }

  lemma {:induction false} EdgesTimeOrdered(rows: seq<Row>, key: Key)
    requires TimeOrdered(rows)
    ensures TimeOrdered(EdgesOf(rows, key))
    ensures forall i :: 0 <= i < |EdgesOf(rows, key)| ==> EdgesOf(rows, key)[i] in rows
  {
    if rows != [] {
      var before, r := rows[..|rows| - 1], rows[|rows| - 1];
      EdgesTimeOrdered(before, key);
      assert rows == before + [r];
      forall x | x in before ensures x.at <= r.at { var k :| 0 <= k < |before| && before[k] == x; assert rows[k] == x; }
    }
  }

  /** In time order, as merged text is, all intervals of a phase are in order whatever their lanes. */
  lemma TimeInOrder(rows: seq<Row>, key: Key)
    requires TimeOrdered(rows)
    ensures InOrder(EdgesOf(rows, key))
  {
    hide EdgesOf;
    EdgesTimeOrdered(rows, key);
  }

  const CROSSED: seq<Row> := [
    Row(2, 1, "s", Begin, 10, 0, false), Row(2, 1, "s", End, 20, 10, false),
    Row(2, 1, "s", Begin, 5, 0, true), Row(2, 1, "s", End, 15, 10, true)]

  lemma CrossedEdges(key: Key)
    ensures EdgesOf(CROSSED, key) == if key == Key(1, "s") then CROSSED else []
  {
    OnePhase(CROSSED, Key(1, "s"), key);
  }

  lemma CrossedAccepted()
    ensures Accepts(CROSSED, 2)
  {
    hide EdgesOf;
    forall key: Key ensures Alternates(EdgesOf(CROSSED, key)) && |EdgesOf(CROSSED, key)| % 2 == 0 {
      CrossedEdges(key);
      assert InTurn(CROSSED, 0) && InTurn(CROSSED, 1) && InTurn(CROSSED, 2) && InTurn(CROSSED, 3);
    }
  }

  /** Across lanes they can overlap: the phase table is shared, the clocks are not. */
  lemma LanesMayOverlap()
    ensures var es := EdgesOf(CROSSED, Key(1, "s"));
      && Accepts(CROSSED, 2) && es == CROSSED
      && BeginAt(es, 0) < EndAt(es, 1) && BeginAt(es, 1) < EndAt(es, 0) && !SwitchesForward(es)
  {
    hide EdgesOf, Accepts;
    CrossedAccepted();
    CrossedEdges(Key(1, "s"));
    assert !ForwardAt(CROSSED, 0);
  }

  lemma {:induction false} OnePhase(rows: seq<Row>, only: Key, key: Key)
    requires forall i :: 0 <= i < |rows| ==> KeyOf(rows[i]) == only && !rows[i].edge.Event?
    ensures EdgesOf(rows, key) == if key == only then rows else []
  {
    if rows != [] {
      OnePhase(rows[..|rows| - 1], only, key);
      assert rows == rows[..|rows| - 1] + [rows[|rows| - 1]];
    }
  }
}
