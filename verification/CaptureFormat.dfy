/** The v2 CPU capture codec: fixed-order compact rows against the legacy key=value rows. */
module CaptureFormat {
  import opened Collections
  import opened Text

  datatype Kind = Power | Idle | Entry

  const POWER_KEYS: seq<string> := [
    "power_state", "flags", "energy_shift", "package_mw", "active_mhz", "nominal_mhz", "package_uj",
    "sample_us", "interval_us", "samples", "rejected", "energy", "aperf", "mperf", "monotonic_us"]
  const IDLE_BASE: seq<string> := [
    "supported", "valid", "rejected", "sample_us", "interval_us", "interval_tsc", "tsc_begin", "tsc_end"]
  const ENTRY_KEYS: seq<string> := ["sample_us", "epoch", "enters", "returns", "ready"]

  /** `c0_raw, c0_bp, ..., c9_raw, c9_bp`. */
  function ResidencyKey(n: nat): string {
    "c" + Decimal(n / 2) + if n % 2 == 0 then "_raw" else "_bp"
  }

  function IdleKeys(): seq<string> {
    IDLE_BASE + seq(20, n requires 0 <= n < 20 => ResidencyKey(n))
  }

  function Keys(kind: Kind): seq<string> {
    match kind case Power => POWER_KEYS case Idle => IdleKeys() case Entry => ENTRY_KEYS
  }

  function Prefix(kind: Kind): string {
    match kind case Power => "cpu-load-power:" case Idle => "cpu-load-idle:" case Entry => "cpu-idle-entry:"
  }

  function Tag(kind: Kind): string {
    match kind case Power => "cpu-p2:" case Idle => "cpu-i2:" case Entry => "cpu-e2:"
  }

  const KINDS: set<Kind> := {Power, Idle, Entry}
  const LIMIT: nat := 0x1_0000_0000_0000_0000
  const RETAINED := "cpu-load-power: retained="
  const FORMAT := "cpu-capture-format:"

  datatype Result = Ok(text: string) | Refused
  datatype Row = Row(kind: Kind, index: nat, values: seq<nat>)
  datatype Declaration = Declaration(idle: bool, entry: bool, count: nat)

  // ------------------------------------------------------------ line forms

  predicate IsHeader(line: string) { FORMAT <= line }

  function CompactKind(line: string): Option<Kind> {
    if Tag(Power) <= line then Some(Power)
    else if Tag(Idle) <= line then Some(Idle)
    else if Tag(Entry) <= line then Some(Entry)
    else None
  }

  /** A line the format reserves: `cpu-capture-` or `cpu-[a-z]2:`. */
  predicate IsTagged(line: string) {
    || "cpu-capture-" <= line
    || (|line| >= 7 && line[..4] == "cpu-" && 'a' <= line[4] <= 'z' && line[5..7] == "2:")
  }

  predicate IsMixed(line: string) {
    "cpu-load-power: power_state=" <= line || Prefix(Idle) <= line || Prefix(Entry) <= line
  }

  function LegacyKind(line: string): Option<Kind> {
    if Prefix(Power) <= line && !(RETAINED <= line) then Some(Power)
    else if Prefix(Idle) <= line then Some(Idle)
    else if Prefix(Entry) <= line then Some(Entry)
    else None
  }

  predicate AllNumerals(ts: seq<string>) {
    forall i :: 0 <= i < |ts| ==> IsNumeral(ts[i])
  }

  function Values(ts: seq<string>): (vs: seq<nat>)
    requires AllNumerals(ts)
    ensures |vs| == |ts| && forall i :: 0 <= i < |ts| ==> vs[i] == Value(ts[i])
  {
    seq(|ts|, i requires 0 <= i < |ts| => assert IsNumeral(ts[i]); Value(ts[i]))
  }

  function Decimals(vs: seq<nat>): (ts: seq<string>)
    ensures |ts| == |vs| && forall i :: 0 <= i < |vs| ==> ts[i] == Decimal(vs[i])
  {
    seq(|vs|, i requires 0 <= i < |vs| => Decimal(vs[i]))
  }

  /** The fields `key=token` of one legacy row. */
  function Fields(keys: seq<string>, ts: seq<string>): (fs: seq<string>)
    requires |ts| == |keys|
    ensures |fs| == |keys| && forall i :: 0 <= i < |keys| ==> fs[i] == keys[i] + "=" + ts[i]
  {
    seq(|keys|, i requires 0 <= i < |keys| => keys[i] + "=" + ts[i])
  }

  /** A legacy row in schema order with single spaces. */
  function LegacyText(kind: Kind, ts: seq<string>): string
    requires |ts| == |Keys(kind)|
  {
    Prefix(kind) + " " + JoinWith(Fields(Keys(kind), ts), ' ') + "\n"
  }

  function CompactText(kind: Kind, index: nat, ts: seq<string>): string {
    Tag(kind) + " i=" + Decimal(index) + " v=" + JoinWith(ts, ',') + "\n"
  }

  function Bit(b: bool): string { if b then "1" else "0" }

  function HeaderText(idle: bool, entry: bool): string {
    "cpu-capture-format: v=2 idle=" + Bit(idle) + " entry=" + Bit(entry)
  }

  /** `cpu-([pie])2: i=(\d+) v=(\d+(?:,\d+)*)\n?`, the whole line. */
  function ParseCompact(line: string): Option<Row> {
    var kind := CompactKind(line);
    var body := Chomp(line);
    if kind.None? || !(Tag(kind.value) + " i=" <= body) then None else
    var rest := body[10..];
    var n := DigitRun(rest);
    if n == 0 || !(" v=" <= rest[n..]) then None else
    var ts := SplitOn(rest[n + 3..], ',');
    if AllNumerals(ts) then Some(Row(kind.value, Value(rest[..n]), Values(ts))) else None
  }

  /** `cpu-load-power: retained=(\d+) overflow=(\d+)`, the whole line: the two numerals. */
  function ParseReceipt(line: string): Option<(string, string)> {
    var body := Chomp(line);
    if !(RETAINED <= body) then None else
    var rest := body[|RETAINED|..];
    var n := DigitRun(rest);
    if n == 0 || !(" overflow=" <= rest[n..]) || !IsNumeral(rest[n + 10..]) then None
    else Some((rest[..n], rest[n + 10..]))
  }

  function ParseHeader(line: string): Option<(bool, bool)> {
    var body := Chomp(line);
    if body == HeaderText(false, false) then Some((false, false))
    else if body == HeaderText(false, true) then Some((false, true))
    else if body == HeaderText(true, false) then Some((true, false))
    else if body == HeaderText(true, true) then Some((true, true))
    else None
  }

  /** The numerals of a legacy row: white-space separated `key=digits` pairs in schema order. */
  function ParseLegacy(kind: Kind, line: string): (r: Option<seq<string>>)
    ensures r.Some? ==> |r.value| == |Keys(kind)| && AllNumerals(r.value)
  {
    var words := Words(line);
    var parts := if words == [] then [] else words[1..];
    var keys := Keys(kind);
    if |parts| == |keys| && forall i :: 0 <= i < |keys| ==> IsField(parts[i], keys[i])
    then
      Some(seq(|keys|, i requires 0 <= i < |keys| => assert IsField(parts[i], keys[i]); SplitOn(parts[i], '=')[1]))
    else None
  }

  predicate IsField(part: string, key: string) {
    var pair := SplitOn(part, '=');
    |pair| == 2 && pair[0] == key && IsNumeral(pair[1])
  }

  // -------------------------------------------------------------- expansion

  function Receipts(ls: seq<string>): (rs: seq<(string, string)>)
    ensures forall i :: 0 <= i < |rs| ==> IsNumeral(rs[i].0)
  {
    if ls == [] then []
    else
      var r := ParseReceipt(ls[|ls| - 1]);
      Receipts(ls[..|ls| - 1]) + if r.Some? then [r.value] else []
  }

  /** How many compact rows of one kind the lines hold. */
  function CompactRows(ls: seq<string>, kind: Kind): nat {
    if ls == [] then 0
    else CompactRows(ls[..|ls| - 1], kind) + if CompactKind(ls[|ls| - 1]) == Some(kind) then 1 else 0
  }

  function Declared(ls: seq<string>): Option<Declaration> {
    var headers, receipts := Select(ls, IsHeader), Receipts(ls);
    if |headers| != 1 || ParseHeader(headers[0]).None? then None
    else if |receipts| != 1 || receipts[0].1 != "0" || !(0 < Value(receipts[0].0) <= 24) then None
    else
      var flags := ParseHeader(headers[0]).value;
      Some(Declaration(flags.0, flags.1, Value(receipts[0].0)))
  }

  predicate Narrow(vs: seq<nat>) {
    forall i :: 0 <= i < |vs| ==> vs[i] < LIMIT
  }

  /** A compact row that carries `index` and fits its schema. */
  predicate RowFits(line: string, index: nat, count: nat) {
    var row := ParseCompact(line);
    && row.Some? && row.value.index == index < count
    && |row.value.values| == |Keys(row.value.kind)| && Narrow(row.value.values)
  }

  /** Line `k` passes the loop: no reserved line but compact rows, numbered in order within their kind. */
  predicate LineFits(ls: seq<string>, k: nat, count: nat)
    requires k < |ls|
  {
    IsTagged(ls[k]) && !IsHeader(ls[k]) ==>
      && CompactKind(ls[k]).Some?
      && RowFits(ls[k], CompactRows(ls[..k], CompactKind(ls[k]).value), count)
  }

  predicate AllFit(ls: seq<string>, count: nat) {
    forall k :: 0 <= k < |ls| ==> LineFits(ls, k, count)
  }

  function Quota(d: Declaration, kind: Kind): nat {
    match kind
    case Power => d.count
    case Idle => if d.idle then d.count else 0
    case Entry => if d.entry then d.count else 0
  }

  predicate Complete(ls: seq<string>, d: Declaration) {
    forall kind: Kind :: CompactRows(ls, kind) == Quota(d, kind)
  }

  predicate AnyTagged(ls: seq<string>) {
    exists k :: 0 <= k < |ls| && IsTagged(ls[k])
  }

  predicate NoneMixed(ls: seq<string>) {
    forall k :: 0 <= k < |ls| ==> !IsMixed(ls[k])
  }

  /** What a tagged text must satisfy to be expanded. */
  predicate Acceptable(ls: seq<string>) {
    var d := Declared(ls);
    d.Some? && NoneMixed(ls) && AllFit(ls, d.value.count) && Complete(ls, d.value)
  }

  function ExpandLine(line: string): string {
    var row := ParseCompact(line);
    if row.Some? && |row.value.values| == |Keys(row.value.kind)|
    then LegacyText(row.value.kind, Decimals(row.value.values))
    else line
  }

  function ExpandedLines(ls: seq<string>): seq<string> {
    if ls == [] then []
    else
      var line := ls[|ls| - 1];
      ExpandedLines(ls[..|ls| - 1]) + if IsHeader(line) then [] else [ExpandLine(line)]
  }

  function Expand(text: string): Result {
    var ls := Lines(text);
    if !AnyTagged(ls) then Ok(text)
    else if Acceptable(ls) then Ok(Join(ExpandedLines(ls)))
    else Refused
  }

  // ------------------------------------------------------------- compaction

  function LegacyRows(ls: seq<string>, kind: Kind): nat {
    if ls == [] then 0
    else LegacyRows(ls[..|ls| - 1], kind) + if LegacyKind(ls[|ls| - 1]) == Some(kind) then 1 else 0
  }

  predicate AnyRow(ls: seq<string>) {
    exists k :: 0 <= k < |ls| && LegacyKind(ls[k]).Some?
  }

  /** Every legacy row parses. */
  predicate AllParse(ls: seq<string>) {
    forall k :: 0 <= k < |ls| && LegacyKind(ls[k]).Some? ==> ParseLegacy(LegacyKind(ls[k]).value, ls[k]).Some?
  }

  /** The line that takes the place of `line` after `before`. */
  function CompactLine(before: seq<string>, line: string): string {
    var kind := LegacyKind(line);
    if kind.None? then line else
    var ts := ParseLegacy(kind.value, line);
    if ts.None? then line else CompactText(kind.value, LegacyRows(before, kind.value), ts.value)
  }

  /** The rewritten lines, the header inserted before the first row. */
  function CompactedLines(ls: seq<string>, header: string): seq<string> {
    if ls == [] then []
    else
      var before, line := ls[..|ls| - 1], ls[|ls| - 1];
      CompactedLines(before, header)
      + (if LegacyKind(line).Some? && !AnyRow(before) then [header] else [])
      + [CompactLine(before, line)]
  }

  function HeaderFor(text: string): string {
    HeaderText(Contains(text, Prefix(Idle)), Contains(text, Prefix(Entry))) + "\n"
  }

  function Compact(text: string): Result {
    var ls := Lines(text);
    if Contains(text, FORMAT) || !AllParse(ls) then Refused else
    var result := Join(CompactedLines(ls, HeaderFor(text)));
    if Expand(result) == Ok(text) then Ok(result) else Refused
  }

  // ------------------------------------------------------------ the two loops

  lemma HeaderChar(line: string)
    requires IsHeader(line)
    ensures |line| > 5 && line[5] == 'a' && "cpu-capture-" <= line
  {
    assert FORMAT[5] == 'a' && "cpu-capture-" <= FORMAT;
  }

  lemma TagChar(line: string)
    requires CompactKind(line).Some?
    ensures |line| > 6 && line[5] == '2' && IsTagged(line)
  {
    var t := Tag(CompactKind(line).value);
    assert line[..4] == t[..4] == "cpu-" && line[5..7] == t[5..7] == "2:" && line[4] == t[4];
    assert line[5] == t[5];
  }

  lemma TaggedForms(line: string)
    ensures CompactKind(line).Some? ==> IsTagged(line) && !IsHeader(line)
    ensures IsHeader(line) ==> IsTagged(line)
  {
    hide CompactKind, IsHeader;
    if IsHeader(line) { HeaderChar(line); }
    if CompactKind(line).Some? { TagChar(line); }
  }

  lemma ExpandStep(ls: seq<string>, k: nat)
    requires k < |ls|
    ensures ls[..k + 1] == ls[..k] + [ls[k]]
    ensures forall kind ::
      CompactRows(ls[..k + 1], kind) == CompactRows(ls[..k], kind) + if CompactKind(ls[k]) == Some(kind) then 1 else 0
    ensures ExpandedLines(ls[..k + 1]) == ExpandedLines(ls[..k]) + if IsHeader(ls[k]) then [] else [ExpandLine(ls[k])]
    ensures CompactKind(ls[k]).None? ==> ExpandLine(ls[k]) == ls[k]
  {
    assert ls[..k + 1][..k] == ls[..k];
  }

  lemma AllKinds()
    ensures forall kind: Kind :: kind in KINDS
  {
    forall kind: Kind ensures kind in KINDS {
      match kind case Power => case Idle => case Entry =>
    }
  }

  function NoneSeen(): (m: map<Kind, nat>)
    ensures forall kind: Kind :: kind in m && m[kind] == 0
  {
    AllKinds();
    map kind | kind in KINDS :: 0
  }

  lemma Empty()
    ensures ExpandedLines([]) == [] && forall kind :: CompactRows([], kind) == 0
  {}

  predicate Tallies(seen: map<Kind, nat>, ls: seq<string>) {
    forall kind: Kind :: kind in seen && seen[kind] == CompactRows(ls, kind)
  }

  method ExpandRows(ls: seq<string>, count: nat) returns (ok: bool, seen: map<Kind, nat>, out: seq<string>)
    ensures ok == AllFit(ls, count)
    ensures ok ==> Tallies(seen, ls) && out == ExpandedLines(ls)
  {
    hide RowFits, CompactKind, IsHeader, IsTagged, ExpandLine, CompactRows, ExpandedLines;
    seen, out := NoneSeen(), [];
    Empty();
    var k := 0;
    assert ls[..0] == [];
    while k < |ls|
      invariant k <= |ls|
      invariant Tallies(seen, ls[..k])
      invariant out == ExpandedLines(ls[..k])
      invariant forall j :: 0 <= j < k ==> LineFits(ls, j, count)
    {
      var line := ls[k];
      ExpandStep(ls, k);
      TaggedForms(line);
      var kind := CompactKind(line);
      if !IsHeader(line) {
        if kind.None? {
          if IsTagged(line) { assert !LineFits(ls, k, count); return false, seen, out; }
          out := out + [line];
        } else {
          if !RowFits(line, seen[kind.value], count) { assert !LineFits(ls, k, count); return false, seen, out; }
          seen := seen[kind.value := seen[kind.value] + 1];
          out := out + [ExpandLine(line)];
        }
      }
      k := k + 1;
    }
    assert ls[..k] == ls;
    ok := true;
  }

  method ExpandCapture(text: string) returns (r: Result)
    ensures r == Expand(text)
  {
    hide Declared, IsMixed, AllFit, CompactRows, ExpandedLines;
    var ls := Lines(text);
    if !AnyTagged(ls) { return Ok(text); }
    var declared := Declared(ls);
    if declared.None? || !NoneMixed(ls) { return Refused; }
    var d := declared.value;
    var ok, seen, out := ExpandRows(ls, d.count);
    if !ok || exists kind: Kind :: seen[kind] != Quota(d, kind) { return Refused; }
    return Ok(Join(out));
  }

  lemma CompactStep(ls: seq<string>, k: nat, header: string)
    requires k < |ls|
    ensures ls[..k + 1] == ls[..k] + [ls[k]]
    ensures forall kind ::
      LegacyRows(ls[..k + 1], kind) == LegacyRows(ls[..k], kind) + if LegacyKind(ls[k]) == Some(kind) then 1 else 0
    ensures CompactedLines(ls[..k + 1], header) ==
      CompactedLines(ls[..k], header)
        + (if LegacyKind(ls[k]).Some? && !AnyRow(ls[..k]) then [header] else [])
        + [CompactLine(ls[..k], ls[k])]
    ensures AnyRow(ls[..k + 1]) == (AnyRow(ls[..k]) || LegacyKind(ls[k]).Some?)
  {
    var next := ls[..k + 1];
    assert next[..k] == ls[..k] && next[k] == ls[k];
    assert forall j :: 0 <= j < k ==> next[j] == ls[..k][j];
  }

  lemma CompactEmpty(header: string)
    ensures CompactedLines([], header) == [] && !AnyRow([]) && forall kind :: LegacyRows([], kind) == 0
  {}

  method CompactRowsOf(ls: seq<string>, header: string) returns (ok: bool, out: seq<string>)
    ensures ok == AllParse(ls)
    ensures ok ==> out == CompactedLines(ls, header)
  {
    hide LegacyKind, ParseLegacy, CompactText, LegacyRows, CompactedLines, AnyRow;
    var counts := NoneSeen();
    CompactEmpty(header);
    var inserted, k := false, 0;
    out := [];
    assert ls[..0] == [];
    while k < |ls|
      invariant k <= |ls|
      invariant forall kind: Kind :: kind in counts && counts[kind] == LegacyRows(ls[..k], kind)
      invariant out == CompactedLines(ls[..k], header)
      invariant inserted == AnyRow(ls[..k])
      invariant AllParse(ls[..k])
    {
      var line := ls[k];
      CompactStep(ls, k, header);
      var kind := LegacyKind(line);
      if kind.None? {
        out := out + [line];
      } else {
        var ts := ParseLegacy(kind.value, line);
        if ts.None? { return false, out; }
        if !inserted { out, inserted := out + [header], true; }
        out := out + [CompactText(kind.value, counts[kind.value], ts.value)];
        counts := counts[kind.value := counts[kind.value] + 1];
      }
      k := k + 1;
    }
    assert ls[..k] == ls;
    ok := true;
  }

  method CompactLegacy(text: string) returns (r: Result)
    ensures r == Compact(text)
  {
    hide Expand, AllParse, CompactedLines, Lines;
    if Contains(text, FORMAT) { return Refused; }
    var ok, out := CompactRowsOf(Lines(text), HeaderFor(text));
    if !ok { return Refused; }
    var result := Join(out);
    var back := ExpandCapture(result);
    return if back == Ok(text) then Ok(result) else Refused;
  }
}
