/** The width and capacity padding of a captured log: a bound on every log with the same rows written wider. */
module WidthBudget {
  import opened Collections
  import opened Text
  import CaptureFormat
  import opened CaptureTail
  import opened Sorting

  // ------------------------------------------------------------------------ widening

  const WIDTHS: map<string, nat> := map[
    "version" := 1, "v" := 1, "phase" := 1, "seq" := 2, "us" := 5, "id" := 10, "seen" := 1,
    "signature" := 6, "ready_us" := 5, "max_us" := 5, "retire_us" := 5,
    "state" := 1, "fault" := 1, "flags" := 4, "energy_shift" := 2, "nominal_mhz" := 4,
    "active_mhz" := 20, "package_mw" := 20, "interval_us" := 7, "rejected" := 1,
    "energy" := 10, "supported" := 4, "valid" := 4, "bdf" := 5, "class" := 8,
    "command" := 5, "pm" := 5, "link_cap" := 10, "link" := 10, "ltr_cap" := 10, "ltr" := 5,
    "sd" := 10, "pci" := 10, "ctl" := 10, "before" := 10, "after" := 10, "pch" := 10, "index" := 2, "i" := 2,
    "reads" := 2, "rc6" := 10, "status" := 10, "raw" := 10, "headers" := 3, "offset" := 4,
    "cpus" := 1, "bsp" := 1, "mask" := 2, "rounds" := 2, "limit_us" := 5]

  /** `c\d+_bp`. */
  predicate IsBasisPoints(key: string) {
    |key| > 4 && key[0] == 'c' && key[|key| - 3..] == "_bp" && IsNumeral(key[1..|key| - 3])
  }

  /** How many digits a field may need. */
  function KeyWidth(key: string): nat {
    if IsBasisPoints(key) then 5 else if key in WIDTHS then WIDTHS[key] else 20
  }

  predicate IsKeyChar(c: char) { 'a' <= c <= 'z' || 'A' <= c <= 'Z' || IsDigit(c) || c == '_' }

  function KeyRun(s: string): (n: nat)
    ensures n <= |s|
  {
    if s == "" || !IsKeyChar(s[0]) then 0 else 1 + KeyRun(s[1..])
  }

  /** Length of the longest `\d+(?:,\d+)*` at the start. */
  function ValueRun(s: string): (n: nat)
    ensures n <= |s| && (n > 0 <==> s != "" && IsDigit(s[0]))
    decreases |s|
  {
    var n := DigitRun(s);
    if n == 0 then 0
    else if n + 1 < |s| && s[n] == ',' && IsDigit(s[n + 1]) then n + 1 + ValueRun(s[n + 1..])
    else n
  }

  function Nines(n: nat): (s: string)
    ensures |s| == n
  {
    seq(n, _ => '9')
  }

  function Max(a: nat, b: nat): nat { if a < b then b else a }

  function Widen(ts: seq<string>, ws: seq<nat>): (rs: seq<string>)
    requires |ts| == |ws|
    ensures |rs| == |ts| && forall i :: 0 <= i < |ts| ==> |rs[i]| == Max(|ts[i]|, ws[i])
  {
    seq(|ts|, i requires 0 <= i < |ts| => Nines(Max(|ts[i]|, ws[i])))
  }

  /** Widths of the values of one field; a compact row takes them from its schema, which must fit. */
  function FieldWidths(line: string, key: string, n: nat): (ws: Option<seq<nat>>)
    ensures ws.Some? ==> |ws.value| == n
  {
    var kind := CaptureFormat.CompactKind(line);
    if key == "v" && kind.Some? then
      var keys := CaptureFormat.Keys(kind.value);
      if |keys| == n then Some(seq(n, i requires 0 <= i < n => KeyWidth(keys[i]))) else None
    else Some(seq(n, _ => KeyWidth(key)))
  }

  /** `re.sub` of every `key=digits,...` in what is left of the line by its widest form. */
  function Expanded(line: string, rest: string): Option<string>
    decreases |rest|
  {
    if rest == "" then Some("") else
    var k := KeyRun(rest);
    if k > 0 && k + 1 < |rest| && rest[k] == '=' && IsDigit(rest[k + 1]) then
      var n := ValueRun(rest[k + 1..]);
      var ts := SplitOn(rest[k + 1..k + 1 + n], ',');
      var ws := FieldWidths(line, rest[..k], |ts|);
      var tail := Expanded(line, rest[k + 1 + n..]);
      if ws.None? || tail.None? then None
      else Some(rest[..k + 1] + JoinWith(Widen(ts, ws.value), ',') + tail.value)
    else
      var tail := Expanded(line, rest[1..]);
      if tail.None? then None else Some([rest[0]] + tail.value)
  }

  lemma {:induction false} LongerJoin(ts: seq<string>, rs: seq<string>, sep: char)
    requires |ts| == |rs| && forall i :: 0 <= i < |ts| ==> |ts[i]| <= |rs[i]|
    ensures |JoinWith(ts, sep)| <= |JoinWith(rs, sep)|
  {
    if |ts| > 1 { LongerJoin(ts[1..], rs[1..], sep); }
  }

  lemma WidenLonger(v: string, ws: seq<nat>)
    requires |ws| == |SplitOn(v, ',')|
    ensures |JoinWith(Widen(SplitOn(v, ','), ws), ',')| >= |v|
  {
    hide SplitOn, JoinWith;
    JoinSplit(v, ',');
    LongerJoin(SplitOn(v, ','), Widen(SplitOn(v, ','), ws), ',');
  }

  /** Widening never shortens a line. */
  lemma {:induction false} ExpandedLonger(line: string, rest: string)
    requires Expanded(line, rest).Some?
    ensures |Expanded(line, rest).value| >= |rest|
    decreases |rest|
  {
    hide FieldWidths, KeyWidth, IsKeyChar, SplitOn, JoinWith, Widen, DigitRun;
    if rest != "" {
      var k := KeyRun(rest);
      if k > 0 && k + 1 < |rest| && rest[k] == '=' && IsDigit(rest[k + 1]) {
        var n := ValueRun(rest[k + 1..]);
        var v := rest[k + 1..k + 1 + n];
        var ts := SplitOn(v, ',');
        var ws := FieldWidths(line, rest[..k], |ts|);
        ExpandedLonger(line, rest[k + 1 + n..]);
        WidenLonger(v, ws.value);
      } else {
        ExpandedLonger(line, rest[1..]);
      }
    }
  }

  // -------------------------------------------------------------------------- groups

  const COUNTED: seq<string> := [
    "cpu-load:", "cpu-load-power:", "cpu-load-idle:", "cpu-capture-", "cpu-p2:", "cpu-i2:", "cpu-e2:", "cpu-idle-",
    "cpu-mwait", "ap-owner:", "ap-owner-cpu:", "ap-c3:", "ap-c3-peer:", "ap-c3-round:", "ap-package", "ap-platform"]

  /** Row capacities of the writers, in the order in which prefixes are tried. */
  const CAPS: seq<(string, nat)> := [
    ("cpu-load-power: power_state=", 24), ("cpu-load-idle:", 24), ("cpu-idle-entry:", 24), ("ap-platform-point:", 12),
    ("ap-c3-round:", 32), ("ap-package-round:", 32), ("ap-package-pci:", 50), ("ap-platform-ltr:", 25),
    ("ap-platform-well:", 2), ("ap-platform-resources:", 2), ("ap-platform-resource:", 2), ("ap-platform-deps:", 2),
      ("ap-platform-hda:", 2),
    ("ap-platform-dry:", 1), ("ap-platform-backing:", 2), ("cpu-p2:", 24), ("cpu-i2:", 24), ("cpu-e2:", 24)]

  /** Live progress lines are not retained proof; other lines of the known kinds are counted. */
  predicate Counts(line: string) {
    !("cpu-load: phase=" <= line && !Contains(line, " completed=yes ")) && StartsAny(line, COUNTED)
  }

  function CapPrefix(line: string, i: nat): Option<string>
    decreases |CAPS| - i
  {
    if i >= |CAPS| then None else if CAPS[i].0 <= line then Some(CAPS[i].0) else CapPrefix(line, i + 1)
  }

  function GroupOf(line: string): string {
    var c := CapPrefix(line, 0);
    if c.Some? then c.value else SplitOn(line, ':')[0] + ":"
  }

  function CapOf(prefix: string, i: nat): Option<nat>
    decreases |CAPS| - i
  {
    if i >= |CAPS| then None else if CAPS[i].0 == prefix then Some(CAPS[i].1) else CapOf(prefix, i + 1)
  }

  /** A row's length as captured and as wide as it can get. */
  datatype Size = Size(actual: nat, wide: nat)

  predicate InGroup(line: string, g: string) { Counts(line) && GroupOf(line) == g }

  function SizeOf(line: string): Size {
    var e := Expanded(line, line);
    Size(|line|, if e.Some? then |e.value| else |line|)
  }

  lemma SizeWide(line: string)
    ensures SizeOf(line).actual <= SizeOf(line).wide
  {
    hide Expanded;
    if Expanded(line, line).Some? { ExpandedLonger(line, line); }
  }

  function SizesOf(ls: seq<string>, g: string): seq<Size> {
    if ls == [] then []
    else SizesOf(ls[..|ls| - 1], g) + if InGroup(ls[|ls| - 1], g) then [SizeOf(ls[|ls| - 1])] else []
  }

  /** The groups of the text, in order of first appearance. */
  function Groups(ls: seq<string>): seq<string> {
    if ls == [] then []
    else
      var gs, line := Groups(ls[..|ls| - 1]), ls[|ls| - 1];
      if Counts(line) && GroupOf(line) !in gs then gs + [GroupOf(line)] else gs
  }

  predicate AllExpand(ls: seq<string>) {
    forall k :: 0 <= k < |ls| && Counts(ls[k]) ==> Expanded(ls[k], ls[k]).Some?
  }

  function Actual(ss: seq<Size>): nat {
    if ss == [] then 0 else Actual(ss[..|ss| - 1]) + ss[|ss| - 1].actual
  }

  function Widest(ss: seq<Size>): nat {
    if ss == [] then 0 else Max(Widest(ss[..|ss| - 1]), ss[|ss| - 1].wide)
  }

  function Capacity(g: string, n: nat): nat {
    var c := CapOf(g, 0);
    if c.Some? then Max(n, c.value) else n
  }

  /** What one group can take at most, and how much of that is not there yet. */
  function Full(g: string, ss: seq<Size>): nat { Capacity(g, |ss|) * Widest(ss) }

  function Gap(g: string, ss: seq<Size>): int { Full(g, ss) - Actual(ss) }

  function Gaps(ls: seq<string>, gs: seq<string>): int {
    if gs == [] then 0
    else Gaps(ls, gs[..|gs| - 1]) + Gap(gs[|gs| - 1], SizesOf(ls, gs[|gs| - 1]))
  }

  /** `width_padding`, its count: `None` when a compact row does not fit its schema. */
  function PaddingOf(text: string): Option<int> {
    var ls := Lines(text);
    if AllExpand(ls) then Some(Gaps(ls, Groups(ls))) else None
  }

  // ------------------------------------------------------------------------ the loops

  lemma GroupsSnoc(ls: seq<string>, k: nat)
    requires k < |ls|
    ensures forall g ::
      SizesOf(ls[..k + 1], g) == SizesOf(ls[..k], g) + if InGroup(ls[k], g) then [SizeOf(ls[k])] else []
    ensures Groups(ls[..k + 1]) ==
      if Counts(ls[k]) && GroupOf(ls[k]) !in Groups(ls[..k]) then Groups(ls[..k]) + [GroupOf(ls[k])]
        else Groups(ls[..k])
  {
    assert ls[..k + 1][..k] == ls[..k];
  }

  lemma {:induction false} AbsentGroup(ls: seq<string>, g: string)
    requires g !in Groups(ls)
    ensures SizesOf(ls, g) == []
  {
    hide Counts, GroupOf;
    if ls != [] { AbsentGroup(ls[..|ls| - 1], g); }
  }

  method WidthPadding(text: string) returns (padding: Option<int>)
    ensures padding == PaddingOf(text)
  {
    hide Counts, GroupOf, Expanded, SizesOf, Groups, Gap, Gaps;
    var ls := Lines(text);
    var order: seq<string>, sizes: map<string, seq<Size>> := [], map[];
    assert ls[..0] == [];
    NoGroups(ls);
    var k := 0;
    while k < |ls|
      invariant k <= |ls|
      invariant forall j :: 0 <= j < k && Counts(ls[j]) ==> Expanded(ls[j], ls[j]).Some?
      invariant order == Groups(ls[..k])
      invariant forall g :: g in order ==> g in sizes && sizes[g] == SizesOf(ls[..k], g)
    {
      var line := ls[k];
      GroupsSnoc(ls, k);
      if Counts(line) {
        var g, e := GroupOf(line), Expanded(line, line);
        if e.None? { return None; }
        if g !in order {
          AbsentGroup(ls[..k], g);
          order, sizes := order + [g], sizes[g := []];
        }
        sizes := sizes[g := sizes[g] + [Size(|line|, |e.value|)]];
      }
      k := k + 1;
    }
    assert ls[..k] == ls;
    var total, j := 0, 0;
    assert order[..0] == [];
    while j < |order|
      invariant j <= |order| && total == Gaps(ls, order[..j])
    {
      GapsSnoc(ls, order, j);
      assert order[j] in order;
      total := total + Gap(order[j], sizes[order[j]]);
      j := j + 1;
    }
    assert order[..j] == order;
    return Some(total);
  }

  lemma NoGroups(ls: seq<string>)
    ensures Groups([]) == [] && Gaps(ls, []) == 0
  {}

  lemma GapsSnoc(ls: seq<string>, gs: seq<string>, j: nat)
    requires j < |gs|
    ensures Gaps(ls, gs[..j + 1]) == Gaps(ls, gs[..j]) + Gap(gs[j], SizesOf(ls, gs[j]))
  {
    assert gs[..j + 1][..j] == gs[..j];
  }

  // -------------------------------------------------------------------- never negative

  lemma Product(a: nat, b: nat, x: nat, y: nat)
    requires a <= b && x <= y
    ensures a * x <= b * y
  {
    assert b * y == a * x + a * (y - x) + (b - a) * y;
  }

  /** Rows no longer than `w` add up to at most their number times `w`. */
  lemma {:induction false} ActualBound(ss: seq<Size>, w: nat)
    requires forall i :: 0 <= i < |ss| ==> ss[i].actual <= w
    ensures Actual(ss) <= |ss| * w
  {
    if ss != [] {
      ActualBound(ss[..|ss| - 1], w);
      assert |ss| * w == (|ss| - 1) * w + w;
    }
  }

  lemma {:induction false} WidestBounds(ss: seq<Size>)
    ensures forall i :: 0 <= i < |ss| ==> ss[i].wide <= Widest(ss)
  {
    if ss != [] { WidestBounds(ss[..|ss| - 1]); }
  }

  lemma {:induction false} SizesWide(ls: seq<string>, g: string)
    ensures forall i :: 0 <= i < |SizesOf(ls, g)| ==> SizesOf(ls, g)[i].actual <= SizesOf(ls, g)[i].wide
  {
    hide Expanded, InGroup, SizeOf;
    if ls != [] {
      SizesWide(ls[..|ls| - 1], g);
      SizeWide(ls[|ls| - 1]);
    }
  }

  lemma GapNonNegative(ls: seq<string>, g: string)
    ensures Gap(g, SizesOf(ls, g)) >= 0
  {
    hide SizesOf, CapOf;
    var ss := SizesOf(ls, g);
    SizesWide(ls, g);
    WidestBounds(ss);
    ActualBound(ss, Widest(ss));
    Product(|ss|, Capacity(g, |ss|), Widest(ss), Widest(ss));
  }

  lemma {:induction false} GapsNonNegative(ls: seq<string>, gs: seq<string>)
    ensures Gaps(ls, gs) >= 0
  {
    hide Gap, SizesOf;
    if gs != [] {
      GapsNonNegative(ls, gs[..|gs| - 1]);
      GapNonNegative(ls, gs[|gs| - 1]);
    }
  }

  /** The padding is never negative. */
  lemma PaddingNonNegative(text: string)
    requires PaddingOf(text).Some?
    ensures PaddingOf(text).value >= 0
  {
    hide AllExpand, Groups, Gaps, Lines;
    GapsNonNegative(Lines(text), Groups(Lines(text)));
  }

  // --------------------------------------------------------------------- an upper bound

  function Total(ls: seq<string>): nat {
    if ls == [] then 0 else Total(ls[..|ls| - 1]) + |ls[|ls| - 1]|
  }

  /** Bytes of the lines that are not counted. */
  function OtherTotal(ls: seq<string>): nat {
    if ls == [] then 0 else OtherTotal(ls[..|ls| - 1]) + if Counts(ls[|ls| - 1]) then 0 else |ls[|ls| - 1]|
  }

  /** Bytes of the rows of the given groups. */
  function RowsTotal(ls: seq<string>, gs: seq<string>): nat {
    if gs == [] then 0 else RowsTotal(ls, gs[..|gs| - 1]) + Actual(SizesOf(ls, gs[|gs| - 1]))
  }

  function FullTotal(ls: seq<string>, gs: seq<string>): nat {
    if gs == [] then 0 else FullTotal(ls, gs[..|gs| - 1]) + Full(gs[|gs| - 1], SizesOf(ls, gs[|gs| - 1]))
  }

  lemma {:induction false} TotalIsLength(ls: seq<string>)
    ensures |Join(ls)| == Total(ls)
  {
    if ls != [] {
      var init, last := ls[..|ls| - 1], ls[|ls| - 1];
      TotalIsLength(init);
      assert ls == init + [last];
      JoinAppend(init, [last]);
      assert [last][1..] == [];
    }
  }

  lemma ActualSnoc(ss: seq<Size>, x: Size)
    ensures Actual(ss + [x]) == Actual(ss) + x.actual
  {
    assert (ss + [x])[..|ss|] == ss;
  }

  lemma RowSnoc(ls: seq<string>, l: string, g: string)
    ensures Actual(SizesOf(ls + [l], g)) == Actual(SizesOf(ls, g)) + if InGroup(l, g) then |l| else 0
  {
    hide InGroup, Expanded;
    assert (ls + [l])[..|ls|] == ls;
    ActualSnoc(SizesOf(ls, g), SizeOf(l));
    assert SizesOf(ls, g) + [] == SizesOf(ls, g);
  }

  /** A line adds to the rows of its own group and to no other. */
  lemma {:induction false} RowsSnoc(ls: seq<string>, l: string, gs: seq<string>)
    requires Distinct(gs)
    ensures RowsTotal(ls + [l], gs) == RowsTotal(ls, gs) + if Counts(l) && GroupOf(l) in gs then |l| else 0
  {
    hide SizesOf, Counts, GroupOf;
    if gs != [] {
      var init, g := gs[..|gs| - 1], gs[|gs| - 1];
      assert gs == init + [g] && g !in init;
      RowsSnoc(ls, l, init);
      RowSnoc(ls, l, g);
    }
  }

  /** Every byte is in an uncounted line or in a row of one of the groups. */
  lemma {:induction false} Partition(ls: seq<string>, gs: seq<string>)
    requires Distinct(gs) && forall k :: 0 <= k < |ls| && Counts(ls[k]) ==> GroupOf(ls[k]) in gs
    ensures Total(ls) == OtherTotal(ls) + RowsTotal(ls, gs)
  {
    hide Counts, GroupOf, SizesOf;
    if ls == [] {
      NoRows(gs);
    } else {
      var init, l := ls[..|ls| - 1], ls[|ls| - 1];
      Partition(init, gs);
      assert ls == init + [l];
      RowsSnoc(init, l, gs);
    }
  }

  lemma {:induction false} NoRows(gs: seq<string>)
    ensures RowsTotal([], gs) == 0
  {
    if gs != [] { NoRows(gs[..|gs| - 1]); }
  }

  lemma {:induction false} GroupsCover(ls: seq<string>)
    ensures Distinct(Groups(ls))
    ensures forall k :: 0 <= k < |ls| && Counts(ls[k]) ==> GroupOf(ls[k]) in Groups(ls)
  {
    hide Counts, GroupOf;
    if ls != [] {
      GroupsCover(ls[..|ls| - 1]);
    }
  }

  lemma {:induction false} FilledUp(ls: seq<string>, gs: seq<string>)
    ensures RowsTotal(ls, gs) + Gaps(ls, gs) == FullTotal(ls, gs)
  {
    hide SizesOf, Full;
    if gs != [] { FilledUp(ls, gs[..|gs| - 1]); }
  }

  /** Another log over the same groups: no more rows than fit, none wider than the group's widest. */
  predicate Comparable(ls: seq<string>, ms: seq<string>) {
    && OtherTotal(ms) <= OtherTotal(ls)
    && (forall k :: 0 <= k < |ms| && Counts(ms[k]) ==>
          GroupOf(ms[k]) in Groups(ls) && |ms[k]| <= Widest(SizesOf(ls, GroupOf(ms[k]))))
    && (forall g :: g in Groups(ls) ==> |SizesOf(ms, g)| <= Capacity(g, |SizesOf(ls, g)|))
  }

  lemma {:induction false} SizesBelow(ms: seq<string>, g: string, w: nat)
    requires forall k :: 0 <= k < |ms| && InGroup(ms[k], g) ==> |ms[k]| <= w
    ensures forall i :: 0 <= i < |SizesOf(ms, g)| ==> SizesOf(ms, g)[i].actual <= w
  {
    hide InGroup, Expanded;
    if ms != [] { SizesBelow(ms[..|ms| - 1], g, w); }
  }

  // ------------------------------------------------------------------ earlier lines

  /** Rows of groups whose capacity is not fixed. */
  predicate Uncapped(ls: seq<string>) {
    forall k :: 0 <= k < |ls| && Counts(ls[k]) ==> CapOf(GroupOf(ls[k]), 0).None?
  }

  lemma {:induction false} SizesConcat(pre: seq<string>, ls: seq<string>, g: string)
    ensures SizesOf(pre + ls, g) == SizesOf(pre, g) + SizesOf(ls, g)
    decreases |ls|
  {
    hide InGroup, SizeOf;
    var all := pre + ls;
    if ls == [] {
      assert all == pre;
    } else {
      assert all[..|all| - 1] == pre + ls[..|ls| - 1];
      SizesConcat(pre, ls[..|ls| - 1], g);
    }
  }

  lemma {:induction false} WidestConcat(a: seq<Size>, b: seq<Size>)
    ensures Widest(a + b) >= Widest(a) && Widest(a + b) >= Widest(b)
    decreases |b|
  {
    var all := a + b;
    if b == [] {
      assert all == a;
    } else {
      assert all[..|all| - 1] == a + b[..|b| - 1];
      WidestConcat(a, b[..|b| - 1]);
    }
  }

  lemma {:induction false} ActualConcat(a: seq<Size>, b: seq<Size>)
    ensures Actual(a + b) == Actual(a) + Actual(b)
    decreases |b|
  {
    var all := a + b;
    if b == [] {
      assert all == a;
    } else {
      assert all[..|all| - 1] == a + b[..|b| - 1];
      ActualConcat(a, b[..|b| - 1]);
    }
  }

  lemma {:induction false} NoSizes(ls: seq<string>, g: string)
    requires forall k :: 0 <= k < |ls| ==> !InGroup(ls[k], g)
    ensures SizesOf(ls, g) == []
  {
    hide InGroup;
    if ls != [] { NoSizes(ls[..|ls| - 1], g); }
  }

  lemma {:induction false} GroupsGrow(pre: seq<string>, ls: seq<string>)
    ensures forall g :: g in Groups(ls) ==> g in Groups(pre + ls)
  {
    hide Counts, GroupOf;
    var all := pre + ls;
    if ls != [] {
      assert all[..|all| - 1] == pre + ls[..|ls| - 1];
      GroupsGrow(pre, ls[..|ls| - 1]);
    }
  }

  /** A group of the log has room for the earlier rows and for those of the other log together. */
  lemma GroupHolds(pre: seq<string>, ls: seq<string>, ms: seq<string>, g: string)
    requires Uncapped(pre) && Comparable(ls, ms)
    ensures Actual(SizesOf(ms, g)) + Actual(SizesOf(pre, g)) <= Full(g, SizesOf(pre + ls, g))
  {
    hide SizesOf, Counts, GroupOf, Groups, Widest, Actual, OtherTotal, CapOf;
    SizesConcat(pre, ls, g);
    if g in Groups(ls) {
      OldGroupHolds(pre, ls, ms, g);
    } else {
      AbsentGroup(ls, g);
      assert SizesOf(pre, g) + [] == SizesOf(pre, g);
      GapNonNegative(pre, g);
      NoSizes(ms, g);
      NoActual();
    }
  }

  lemma NoActual()
    ensures Actual([]) == 0
  {}

  lemma OldGroupHolds(pre: seq<string>, ls: seq<string>, ms: seq<string>, g: string)
    requires Uncapped(pre) && Comparable(ls, ms) && g in Groups(ls)
    ensures Actual(SizesOf(ms, g)) + Actual(SizesOf(pre, g)) <= Full(g, SizesOf(pre, g) + SizesOf(ls, g))
  {
    hide SizesOf, Counts, GroupOf, Groups, Widest, Actual, OtherTotal, CapOf;
    var a, b, c := SizesOf(pre, g), SizesOf(ls, g), SizesOf(ms, g);
    var w := Widest(a + b);
    WidestConcat(a, b);
    SizesBelow(ms, g, Widest(b));
    if CapOf(g, 0).Some? {
      NoSizes(pre, g);
      NoActual();
      assert a + b == b;
      ActualBound(c, w);
      Product(|c|, Capacity(g, |b|), w, w);
    } else {
      SizesWide(pre, g);
      WidestBounds(a);
      ActualBound(a, w);
      ActualBound(c, w);
      Product(|c|, |b|, w, w);
      assert |a| * w + |b| * w == (|a| + |b|) * w;
    }
  }

  lemma {:induction false} RowsHold(pre: seq<string>, ls: seq<string>, ms: seq<string>, gs: seq<string>)
    requires Uncapped(pre) && Comparable(ls, ms)
    ensures RowsTotal(ms, gs) + RowsTotal(pre, gs) <= FullTotal(pre + ls, gs)
    ensures RowsTotal(pre + ls, gs) == RowsTotal(pre, gs) + RowsTotal(ls, gs)
  {
    hide SizesOf, Uncapped, Comparable, Actual, Full;
    if gs != [] {
      var g := gs[|gs| - 1];
      RowsHold(pre, ls, ms, gs[..|gs| - 1]);
      GroupHolds(pre, ls, ms, g);
      SizesConcat(pre, ls, g);
      ActualConcat(SizesOf(pre, g), SizesOf(ls, g));
    }
  }

  lemma TextTotal(text: string)
    ensures |text| == Total(Lines(text))
  {
    JoinLines(text);
    TotalIsLength(Lines(text));
  }

  lemma LinesSuffice(pre: seq<string>, ls: seq<string>, ms: seq<string>)
    requires Uncapped(pre) && Comparable(ls, ms)
    ensures Total(ms) <= Total(ls) + Gaps(pre + ls, Groups(pre + ls))
  {
    hide Gaps, Groups, RowsTotal, FullTotal, Distinct, Total, Uncapped, Counts, GroupOf;
    var all := pre + ls;
    var gs := Groups(all);
    GroupsCover(all);
    forall k | 0 <= k < |ls| && Counts(ls[k]) ensures GroupOf(ls[k]) in gs { assert all[|pre| + k] == ls[k]; }
    Partition(ls, gs);
    GroupsGrow(pre, ls);
    CoveredToo(ls, ms);
    Partition(ms, gs);
    FilledUp(all, gs);
    RowsHold(pre, ls, ms, gs);
    assert OtherTotal(ms) <= OtherTotal(ls);
  }

  lemma CoveredToo(ls: seq<string>, ms: seq<string>)
    requires Comparable(ls, ms)
    ensures forall k :: 0 <= k < |ms| && Counts(ms[k]) ==> GroupOf(ms[k]) in Groups(ls)
  {}

  /**
   * A text that follows lines of uncapped groups, plus the padding of both together, is at least as long as
   * any log comparable to it.
   */
  lemma {:induction false} PaddingCovers(pre: string, text: string, other: string)
    requires (pre == "" || Terminated(pre)) && Uncapped(Lines(pre))
    requires PaddingOf(pre + text).Some? && Comparable(Lines(text), Lines(other))
    ensures |other| <= |text| + PaddingOf(pre + text).value
  {
    hide AllExpand, Gaps, Lines, Groups, Comparable, Total, Uncapped, Terminated;
    LinesConcat(pre, text);
    TextTotal(text);
    TextTotal(other);
    LinesSuffice(Lines(pre), Lines(text), Lines(other));
  }

  /** The text plus its padding is at least as long as any comparable log. */
  lemma {:induction false} PaddingSuffices(text: string, other: string)
    requires PaddingOf(text).Some? && Comparable(Lines(text), Lines(other))
    ensures |other| <= |text| + PaddingOf(text).value
  {
    hide AllExpand, Gaps, Lines, Groups, Comparable, Total, Uncapped, Terminated;
    var pre := text[..0];
    assert pre + text == text;
    NoLines(pre);
    PaddingCovers(pre, text, other);
  }

  lemma NoLines(s: string)
    requires s == ""
    ensures Uncapped(Lines(s))
  {}
}
