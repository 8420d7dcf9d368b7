/** Retention of disk checkpoints: which generations are evidence, and why each one may be kept. */
module CheckpointRetention {
  import opened Collections
  import opened Text
  import opened Sorting

  const DURABLE := "workspace-log: durable snapshot="
  const STARTED := "workspace-log: snapshot="
  const TIME := " monotonic_us="
  const FLUSHED := "workspace: flushed"

  /** One generation of one rotation slot. */
  datatype Key = Key(name: string, at: string)

  /** A generation seen on the UART; its barrier line must come at or after `after`. */
  datatype Mark = Mark(key: Key, after: nat)

  // ------------------------------------------------------------- acknowledgement

  function DurableMarker(k: Key): string { DURABLE + k.name + TIME + k.at }

  function Receipt(k: Key): string { STARTED + k.name + TIME + k.at + " " }

  /** `marker\r?\n` at position `i`. */
  predicate LineEndsAt(s: string, marker: string, i: nat) {
    OccursAt(s, marker + "\n", i) || OccursAt(s, marker + "\r\n", i)
  }

  /** The exact durable line, as a whole line of a saved snapshot. */
  predicate HasDurableLine(raw: string, k: Key) {
    exists i :: 0 <= i <= |raw| && (i == 0 || raw[i - 1] == '\n') && LineEndsAt(raw, DurableMarker(k), i)
  }

  /** The rule for the lossy serial log: an exact barrier line, or for old writers any flush, after the mark. */
  predicate UartDurable(output: string, after: nat, k: Key) {
    var rest := if after <= |output| then output[after..] else "";
    if Contains(output, DURABLE)
    then exists i :: 0 <= i <= |rest| && LineEndsAt(rest, DurableMarker(k), i)
    else Contains(rest, FLUSHED)
  }

  predicate AnyDurableLine(snapshots: seq<string>, k: Key) {
    exists j :: 0 <= j < |snapshots| && HasDurableLine(snapshots[j], k)
  }

  /** `checkpoint_durable`. */
  predicate Durable(output: string, m: Mark, snapshots: seq<string>) {
    AnyDurableLine(snapshots, m.key) || UartDurable(output, m.after, m.key)
  }

  // ------------------------------------------------------------------ candidates

  datatype Hit = Hit(start: nat, mark: Mark, end: nat)

  const SLOT_A := "session-a.log"
  const SLOT_B := "session-b.log"

  /** `prefix(session-[ab]\.log) monotonic_us=(\d+)` at `i`: the generation and where its digits end. */
  function KeyAt(s: string, prefix: string, i: nat): (r: Option<(Key, nat)>)
    ensures r.Some? ==> i + |prefix| + 13 + |TIME| < r.value.1 <= |s|
  {
    var j := i + |prefix|;
    if !OccursAt(s, prefix, i) || !(OccursAt(s, SLOT_A, j) || OccursAt(s, SLOT_B, j)) || !OccursAt(s, TIME, j + 13)
    then None else
    var d := j + 13 + |TIME|;
    var n := DigitRun(s[d..]);
    if n == 0 then None else Some((Key(s[j..j + 13], s[d..d + n]), d + n))
  }

  /** First `\r` or `\n` from `i` on, or the length. */
  function BreakFrom(s: string, i: nat): (n: nat)
    requires i <= |s|
    ensures i <= n <= |s| && (n < |s| ==> s[n] == '\r' || s[n] == '\n')
    decreases |s| - i
  {
    if i == |s| || s[i] == '\r' || s[i] == '\n' then i else BreakFrom(s, i + 1)
  }

  /** The pre-write line: its barrier must follow the whole line. */
  function StartedAt(s: string, i: nat): (r: Option<Hit>)
    ensures r.Some? ==> r.value.start == i < r.value.end <= |s|
  {
    var k := KeyAt(s, STARTED, i);
    if k.None? || BreakFrom(s, k.value.1) == |s| then None
    else Some(Hit(i, Mark(k.value.0, BreakFrom(s, k.value.1) + 1), BreakFrom(s, k.value.1) + 1))
  }

  /** The barrier line itself, which may stand in for a damaged pre-write line. */
  function DurableAt(s: string, i: nat): (r: Option<Hit>)
    ensures r.Some? ==> r.value.start == i < r.value.end <= |s|
  {
    var k := KeyAt(s, DURABLE, i);
    if k.None? then None
    else if OccursAt(s, "\n", k.value.1) then Some(Hit(i, Mark(k.value.0, i), k.value.1 + 1))
    else if OccursAt(s, "\r\n", k.value.1) then Some(Hit(i, Mark(k.value.0, i), k.value.1 + 2))
    else None
  }

  /** `finditer`: matches from the left, each search resuming where the last match ended. */
  function Matches(s: string, i: nat, durable: bool): seq<Hit>
    decreases |s| - i
  {
    if i >= |s| then [] else
    var h := MatchAt(s, i, durable);
    if h.Some? then [h.value] + Matches(s, h.value.end, durable) else Matches(s, i + 1, durable)
  }

  function MatchAt(s: string, i: nat, durable: bool): (r: Option<Hit>)
    ensures r.Some? ==> r.value.start == i < r.value.end <= |s|
  {
    if durable then DurableAt(s, i) else StartedAt(s, i)
  }

  /** Genuine matches from `i` on that do not overlap. */
  predicate Genuine(s: string, hs: seq<Hit>, i: nat, durable: bool) {
    && (forall j :: 0 <= j < |hs| ==> i <= hs[j].start && MatchAt(s, hs[j].start, durable) == Some(hs[j]))
    && (forall j, k :: 0 <= j < k < |hs| ==> hs[j].end <= hs[k].start)
  }

  lemma {:induction false} MatchesGenuine(s: string, i: nat, durable: bool)
    ensures Genuine(s, Matches(s, i, durable), i, durable)
    decreases |s| - i
  {
    hide MatchAt;
    if i < |s| {
      var h := MatchAt(s, i, durable);
      if h.Some? {
        var rest := Matches(s, h.value.end, durable);
        MatchesGenuine(s, h.value.end, durable);
        assert Matches(s, i, durable) == [h.value] + rest;
      } else {
        MatchesGenuine(s, i + 1, durable);
        assert Matches(s, i, durable) == Matches(s, i + 1, durable);
      }
    }
  }

  predicate Earlier(a: Hit, b: Hit) { a.start <= b.start }

  function Hits(output: string): seq<Hit> {
    Sort(Matches(output, 0, false) + Matches(output, 0, true), Earlier)
  }

  /** The candidates are exactly the matches of the two lines, in the order they start. */
  lemma HitsExact(output: string)
    ensures Sorted(Hits(output), Earlier)
    ensures forall h :: h in Hits(output) <==> h in Matches(output, 0, false) || h in Matches(output, 0, true)
    ensures forall h :: h in Hits(output) ==>
      MatchAt(output, h.start, false) == Some(h) || MatchAt(output, h.start, true) == Some(h)
  {
    hide Matches, MatchAt;
    SortSorted(Matches(output, 0, false) + Matches(output, 0, true), Earlier);
    SortMembers(Matches(output, 0, false) + Matches(output, 0, true), Earlier);
    MatchesGenuine(output, 0, false);
    MatchesGenuine(output, 0, true);
  }

  function MarksOf(hs: seq<Hit>): (ms: seq<Mark>)
    ensures |ms| == |hs| && forall i :: 0 <= i < |hs| ==> ms[i] == hs[i].mark
  {
    seq(|hs|, i requires 0 <= i < |hs| => hs[i].mark)
  }

  method FindAll(output: string, durable: bool) returns (found: seq<Hit>)
    ensures found == Matches(output, 0, durable)
  {
    hide MatchAt;
    found := [];
    var i := 0;
    while i < |output|
      invariant found + Matches(output, i, durable) == Matches(output, 0, durable)
      decreases |output| - i
    {
      var h := MatchAt(output, i, durable);
      if h.Some? {
        assert found + ([h.value] + Matches(output, h.value.end, durable)) ==
          found + [h.value] + Matches(output, h.value.end, durable);
        found := found + [h.value];
        i := h.value.end;
      } else {
        i := i + 1;
      }
    }
    assert found + [] == found;
  }

  /** `checkpoint_candidates`: both kinds of line, in the order they start. */
  method CheckpointCandidates(output: string) returns (marks: seq<Mark>)
    ensures marks == MarksOf(Hits(output))
  {
    hide Matches;
    var started := FindAll(output, false);
    var barriers := FindAll(output, true);
    marks := MarksOf(Sort(started + barriers, Earlier));
  }

  // A barrier line holds no second `w`, so no search can skip one.

  lemma InLiteral(s: string, literal: string, i: nat, j: nat)
    requires OccursAt(s, literal, i) && i <= j < i + |literal|
    ensures s[j] == literal[j - i]
  {
    assert s[i..i + |literal|][j - i] == s[j];
  }

  lemma LiteralsLackW()
    ensures Lacks(DURABLE[1..], 'w') && Lacks(SLOT_A, 'w') && Lacks(SLOT_B, 'w') && Lacks(TIME, 'w')
    ensures Lacks("\r\n", 'w') && Lacks("\n", 'w')
  {}

  lemma LiteralLacksW(s: string, literal: string, i: nat, j: nat)
    requires OccursAt(s, literal, i) && i <= j < i + |literal| && Lacks(literal, 'w')
    ensures s[j] != 'w'
  {
    InLiteral(s, literal, i, j);
  }

  /** The pieces of a barrier line. */
  lemma BarrierParts(s: string, i: nat)
    requires DurableAt(s, i).Some?
    ensures var b := i + |DURABLE|; var d := b + 13 + |TIME|; d <= |s| && var n := DigitRun(s[d..]);
      && OccursAt(s, DURABLE, i) && (OccursAt(s, SLOT_A, b) || OccursAt(s, SLOT_B, b)) && OccursAt(s, TIME, b + 13)
      && ((OccursAt(s, "\n", d + n) && DurableAt(s, i).value.end == d + n + 1)
          || (OccursAt(s, "\r\n", d + n) && DurableAt(s, i).value.end == d + n + 2))
  {}

  lemma BarrierHasOneW(s: string, i: nat, j: nat)
    requires DurableAt(s, i).Some? && i < j < DurableAt(s, i).value.end
    ensures s[j] != 'w'
  {
    hide OccursAt, Lacks, DurableAt;
    LiteralsLackW();
    BarrierParts(s, i);
    var b := i + |DURABLE|;
    var d := b + 13 + |TIME|;
    var n := DigitRun(s[d..]);
    if j < b {
      InLiteral(s, DURABLE, i, j);
      LacksAt(DURABLE[1..], j - i - 1);
    } else if j < b + 13 {
      LiteralLacksW(s, if OccursAt(s, SLOT_A, b) then SLOT_A else SLOT_B, b, j);
    } else if j < d {
      LiteralLacksW(s, TIME, b + 13, j);
    } else if j < d + n {
      assert s[d..][j - d] == s[j];
    } else {
      var short := OccursAt(s, "\n", d + n) && DurableAt(s, i).value.end == d + n + 1;
      LiteralLacksW(s, if short then "\n" else "\r\n", d + n, j);
    }
  }

  lemma LacksAt(t: string, k: nat)
    requires Lacks(t, 'w') && k < |t|
    ensures t[k] != 'w'
  {}

  lemma {:induction false} BarrierFound(s: string, i: nat, at: nat)
    requires i <= at && DurableAt(s, at).Some?
    ensures DurableAt(s, at).value in Matches(s, i, true)
    decreases at - i
  {
    hide DurableAt;
    var h := MatchAt(s, i, true);
    if i < at {
      if h.None? {
        BarrierFound(s, i + 1, at);
      } else {
        if at < h.value.end { BarrierHasOneW(s, i, at); BarrierStartsW(s, at); }
        BarrierFound(s, h.value.end, at);
      }
    }
  }

  lemma BarrierStartsW(s: string, i: nat)
    requires DurableAt(s, i).Some?
    ensures s[i] == 'w'
  {
    assert s[i..i + |DURABLE|][0] == s[i];
  }

  /** Every complete barrier line of the serial log is a candidate, whatever happened to its pre-write line. */
  lemma BarrierDiscovered(output: string, i: nat)
    requires DurableAt(output, i).Some?
    ensures DurableAt(output, i).value.mark in MarksOf(Hits(output))
  {
    hide DurableAt;
    BarrierFound(output, 0, i);
    HitsExact(output);
    var h := DurableAt(output, i).value;
    assert h in Hits(output);
    var k :| 0 <= k < |Hits(output)| && Hits(output)[k] == h;
    assert MarksOf(Hits(output))[k] == h.mark;
  }
}
