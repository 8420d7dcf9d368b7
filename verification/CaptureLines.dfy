/** How single lines of the codec read back: tags, numerals, rows of either form. */
module CaptureLines {
  import opened Collections
  import opened Text
  import opened CaptureFormat

  // --------------------------------------------------------------- one line

  predicate Clean(key: string) {
    Solid(key) && Lacks(key, '=')
  }

  lemma PowerClean(i: nat)
    requires i < |POWER_KEYS|
    ensures Clean(POWER_KEYS[i])
  {
    hide Clean;
    assert Clean("power_state") && Clean("flags") && Clean("energy_shift") && Clean("package_mw") by { Early(); }
    assert Clean("active_mhz") && Clean("nominal_mhz") && Clean("package_uj") && Clean("sample_us") by { Middle(); }
    Late();
  }

  lemma Early()
    ensures Clean("power_state") && Clean("flags") && Clean("energy_shift") && Clean("package_mw")
  {}

  lemma Middle()
    ensures Clean("active_mhz") && Clean("nominal_mhz") && Clean("package_uj") && Clean("sample_us")
  {}

  lemma Late()
    ensures Clean("interval_us") && Clean("samples") && Clean("rejected") && Clean("energy")
    ensures Clean("aperf") && Clean("mperf") && Clean("monotonic_us")
  {}

  lemma IdleClean(i: nat)
    requires i < |IdleKeys()|
    ensures Clean(IdleKeys()[i])
  {
    if i >= 8 {
      var n := i - 8;
      assert IdleKeys()[i] == ResidencyKey(n);
      var d := Decimal(n / 2);
      assert forall j :: 0 <= j < |d| ==> IsDigit(d[j]);
    } else {
      assert IdleKeys()[i] == IDLE_BASE[i];
    }
  }

  lemma KeysClean(kind: Kind, i: nat)
    requires i < |Keys(kind)|
    ensures Clean(Keys(kind)[i])
  {
    hide Clean;
    match kind
    case Power => PowerClean(i);
    case Idle => IdleClean(i);
    case Entry => EntryClean(i);
  }

  lemma EntryClean(i: nat)
    requires i < |ENTRY_KEYS|
    ensures Clean(ENTRY_KEYS[i])
  {}

  lemma {:induction false} DigitsThen(t: string, rest: string)
    requires forall i :: 0 <= i < |t| ==> IsDigit(t[i])
    requires rest == "" || !IsDigit(rest[0])
    ensures DigitRun(t + rest) == |t|
  {
    if t == "" {
      assert t + rest == rest;
    } else {
      assert (t + rest)[1..] == t[1..] + rest;
      DigitsThen(t[1..], rest);
    }
  }

  lemma {:induction false} JoinNumerals(ts: seq<string>)
    requires AllNumerals(ts)
    ensures forall i :: 0 <= i < |JoinWith(ts, ',')| ==> IsDigit(JoinWith(ts, ',')[i]) || JoinWith(ts, ',')[i] == ','
  {
    if |ts| == 1 {
      assert IsNumeral(ts[0]);
    } else if ts != [] {
      assert IsNumeral(ts[0]);
      assert AllNumerals(ts[1..]);
      JoinNumerals(ts[1..]);
    }
  }

  lemma KindOfTag(kind: Kind, rest: string)
    ensures CompactKind(Tag(kind) + rest) == Some(kind) && |Tag(kind)| == 7
  {
    var line := Tag(kind) + rest;
    assert line[4] == Tag(kind)[4];
    assert Tag(kind) <= line;
  }

  /** What follows the tag of a compact row, its LF aside. */
  lemma SplitCompact(n: string, ts: seq<string>)
    requires IsNumeral(n) && ts != [] && AllNumerals(ts)
    ensures var rest := n + " v=" + JoinWith(ts, ',');
      DigitRun(rest) == |n| && rest[..|n|] == n && " v=" <= rest[|n|..] && SplitOn(rest[|n| + 3..], ',') == ts
  {
    var vs := JoinWith(ts, ',');
    var rest := n + " v=" + vs;
    DigitsThen(n, " v=" + vs);
    assert rest == n + (" v=" + vs);
    assert rest[|n|..] == " v=" + vs && rest[|n| + 3..] == vs;
    forall i | 0 <= i < |ts| ensures Lacks(ts[i], ',') { assert IsNumeral(ts[i]); }
    SplitJoin(ts, ',');
  }

  /** A compact row reads back as what was written. */
  lemma ParseOfCompact(kind: Kind, index: nat, ts: seq<string>)
    requires ts != [] && AllNumerals(ts)
    ensures CompactKind(CompactText(kind, index, ts)) == Some(kind)
    ensures ParseCompact(CompactText(kind, index, ts)) == Some(Row(kind, index, Values(ts)))
  {
    hide CompactKind, Tag, IsNumeral, AllNumerals, DigitRun, SplitOn, JoinWith;
    var line, n := CompactText(kind, index, ts), Decimal(index);
    var rest := n + " v=" + JoinWith(ts, ',');
    KindOfTag(kind, " i=" + rest + "\n");
    assert line == Tag(kind) + (" i=" + rest + "\n");
    assert Chomp(line) == Tag(kind) + " i=" + rest;
    assert Chomp(line)[10..] == rest;
    SplitCompact(n, ts);
    ValueOfDecimal(index);
  }

  /** The sixth character tells reserved lines from legacy ones. */
  lemma NotLegacy(l: string)
    requires |l| > 6 && l[5] != 'o' && l[5] != 'd'
    ensures !IsMixed(l) && LegacyKind(l).None? && ParseReceipt(l).None?
  {
    assert Chomp(l)[5] == l[5];
    assert Prefix(Power)[5] == 'o' && Prefix(Idle)[5] == 'o' && Prefix(Entry)[5] == 'd' && RETAINED[5] == 'o';
    assert "cpu-load-power: power_state="[5] == 'o';
  }

  lemma FormOfCompact(kind: Kind, index: nat, ts: seq<string>)
    requires ts != [] && AllNumerals(ts)
    ensures var l := CompactText(kind, index, ts); IsLine(l) && Terminated(l) && !IsMixed(l) && ParseReceipt(l).None?
  {
    hide IsMixed, ParseReceipt, CompactKind, LegacyKind, AllNumerals, JoinWith;
    var l := CompactText(kind, index, ts);
    ParseOfCompact(kind, index, ts);
    TagChar(l);
    NotLegacy(l);
    OneCompactLine(kind, index, ts);
  }

  lemma OneCompactLine(kind: Kind, index: nat, ts: seq<string>)
    requires AllNumerals(ts)
    ensures IsLine(CompactText(kind, index, ts))
  {
    JoinNumerals(ts);
    var head, n, vs := Tag(kind) + " i=", Decimal(index), JoinWith(ts, ',');
    var l := head + n + " v=" + vs;
    assert CompactText(kind, index, ts) == l + "\n";
    assert Lacks(head, '\n') && Lacks(n, '\n') && Lacks(vs, '\n');
    assert Lacks(l, '\n');
  }

  lemma FieldParses(key: string, t: string)
    requires Clean(key) && IsNumeral(t)
    ensures var f := key + "=" + t; Solid(f) && IsField(f, key) && SplitOn(f, '=')[1] == t
  {
    var f := key + "=" + t;
    assert [key, t][1..] == [t];
    assert JoinWith([t], '=') == t;
    assert JoinWith([key, t], '=') == key + "=" + t;
    SplitJoin([key, t], '=');
  }

  lemma FieldsSolid(kind: Kind, ts: seq<string>)
    requires |ts| == |Keys(kind)| && AllNumerals(ts)
    ensures forall i :: 0 <= i < |ts| ==> Solid(Fields(Keys(kind), ts)[i])
  {
    hide Keys, Solid, Clean, IsNumeral;
    forall i | 0 <= i < |ts| ensures Solid(Fields(Keys(kind), ts)[i]) {
      KeysClean(kind, i);
      FieldParses(Keys(kind)[i], ts[i]);
    }
  }

  /** A legacy row in schema order is parsed into its numerals. */
  lemma ParseOfLegacy(kind: Kind, ts: seq<string>)
    requires |ts| == |Keys(kind)| && AllNumerals(ts)
    ensures ParseLegacy(kind, LegacyText(kind, ts)) == Some(ts)
  {
    hide Keys, Solid, Clean, IsNumeral, Words, SplitOn, JoinWith;
    var keys := Keys(kind);
    var fs := Fields(keys, ts);
    var words := [Prefix(kind)] + fs;
    assert Solid(Prefix(kind)) by { PrefixSolid(kind); }
    FieldsSolid(kind, ts);
    forall i | 0 <= i < |words| ensures Solid(words[i]) {
      if i > 0 { assert words[i] == fs[i - 1]; }
    }
    WordsOfJoin(words);
    KeysNonempty(kind);
    SpacedCons(Prefix(kind), fs);
    assert Words(LegacyText(kind, ts)) == words;
    var parts := words[1..];
    assert parts == fs;
    forall i | 0 <= i < |keys| ensures IsField(parts[i], keys[i]) && SplitOn(parts[i], '=')[1] == ts[i] {
      KeysClean(kind, i);
      FieldParses(keys[i], ts[i]);
    }
    assert ParseLegacy(kind, LegacyText(kind, ts)).Some?;
    assert ParseLegacy(kind, LegacyText(kind, ts)).value == ts;
  }

  lemma SpacedCons(t: string, ts: seq<string>)
    requires ts != []
    ensures JoinWith([t] + ts, ' ') == t + " " + JoinWith(ts, ' ')
  {
    assert ([t] + ts)[1..] == ts;
  }

  lemma PrefixSolid(kind: Kind)
    ensures Solid(Prefix(kind))
  {}

  lemma KeysNonempty(kind: Kind)
    ensures |Keys(kind)| > 0
    ensures kind.Power? ==> Keys(kind)[0] == "power_state"
  {}

  lemma {:induction false} SolidJoinOneLine(ts: seq<string>)
    requires forall i :: 0 <= i < |ts| ==> Solid(ts[i])
    ensures Lacks(JoinWith(ts, ' '), '\n')
  {
    if |ts| == 1 {
      assert Solid(ts[0]);
    } else if ts != [] {
      assert Solid(ts[0]);
      SolidJoinOneLine(ts[1..]);
    }
  }

  lemma FormOfLegacy(kind: Kind, ts: seq<string>)
    requires |ts| == |Keys(kind)| && AllNumerals(ts)
    ensures var l := LegacyText(kind, ts); IsLine(l) && Terminated(l) && CompactKind(l).None?
  {
    hide Keys, IsNumeral, JoinWith, Fields;
    FieldsSolid(kind, ts);
    SolidJoinOneLine(Fields(Keys(kind), ts));
    PrefixSolid(kind);
    var l, p := LegacyText(kind, ts), Prefix(kind);
    var vs := JoinWith(Fields(Keys(kind), ts), ' ');
    assert l == p + " " + vs + "\n";
    assert Lacks(p, '\n');
    assert l[5] == p[5];
    assert forall i :: 0 <= i < |l| - 1 ==> l[i] != '\n';
  }

  /** A legacy row is recognised as one of its kind, and never mistaken for the receipt. */
  lemma KindOfLegacy(kind: Kind, ts: seq<string>)
    requires |ts| == |Keys(kind)|
    ensures LegacyKind(LegacyText(kind, ts)) == Some(kind)
  {
    var l, p := LegacyText(kind, ts), Prefix(kind);
    KeysNonempty(kind);
    var fs := Fields(Keys(kind), ts);
    assert p <= l;
    match kind
    case Power =>
      assert JoinWith(fs, ' ')[0] == fs[0][0] == 'p';
      assert l[16] == 'p';
    case Idle => assert l[9] == 'i';
    case Entry => assert l[4] == 'i';
  }

  // ------------------------------------------- what a line can be mistaken for

  lemma RowChar(line: string)
    requires LegacyKind(line).Some?
    ensures |line| > 5 && (line[5] == 'o' || line[5] == 'd')
  {
    var p := Prefix(LegacyKind(line).value);
    assert line[5] == p[5];
  }

  lemma ReceiptIsNoRow(line: string)
    requires RETAINED <= line
    ensures LegacyKind(line).None?
  {
    assert line[9] == RETAINED[9] == 'p' && line[5] == RETAINED[5] == 'o';
    assert Prefix(Idle)[9] == 'i' && Prefix(Entry)[5] == 'd';
  }

  lemma RowIsNoReceipt(line: string)
    requires LegacyKind(line).Some?
    ensures ParseReceipt(line).None? && !IsHeader(line)
  {
    hide LegacyKind, IsHeader;
    RowChar(line);
    if IsHeader(line) { HeaderChar(line); }
    if RETAINED <= Chomp(line) {
      assert RETAINED <= line;
      ReceiptIsNoRow(line);
    }
  }

  lemma MixedIsRow(line: string)
    requires IsMixed(line)
    ensures LegacyKind(line).Some?
  {
    if "cpu-load-power: power_state=" <= line {
      assert line[16] == 'p' && RETAINED[16] == 'r';
      assert Prefix(Power) <= "cpu-load-power: power_state=";
    }
  }

  lemma FormOfHeader(idle: bool, entry: bool)
    ensures var h := HeaderText(idle, entry) + "\n";
      && IsLine(h) && Terminated(h) && IsHeader(h) && IsTagged(h) && !IsMixed(h)
      && CompactKind(h).None? && ParseReceipt(h).None? && LegacyKind(h).None?
  {
    hide IsMixed, ParseReceipt, CompactKind, LegacyKind;
    var h := HeaderText(idle, entry) + "\n";
    assert h[..|FORMAT|] == FORMAT;
    TaggedForms(h);
    HeaderChar(h);
    NotLegacy(h);
    OneHeaderLine(idle, entry);
  }

  lemma OneHeaderLine(idle: bool, entry: bool)
    ensures IsLine(HeaderText(idle, entry) + "\n")
  {
    var a, b := "cpu-capture-format: v=2 idle=", " entry=";
    var l := HeaderText(idle, entry);
    assert l == a + Bit(idle) + b + Bit(entry);
    assert Lacks(a, '\n') && Lacks(b, '\n') && Lacks(Bit(idle), '\n') && Lacks(Bit(entry), '\n');
    assert Lacks(l, '\n');
  }

  lemma ParseOfHeader(idle: bool, entry: bool)
    ensures ParseHeader(HeaderText(idle, entry) + "\n") == Some((idle, entry))
  {
    hide HeaderText;
    var h := HeaderText(idle, entry);
    assert Chomp(h + "\n") == h;
    HeadersDiffer(idle, entry, false, false);
    HeadersDiffer(idle, entry, false, true);
    HeadersDiffer(idle, entry, true, false);
    HeadersDiffer(idle, entry, true, true);
  }

  lemma HeadersDiffer(a: bool, b: bool, c: bool, d: bool)
    ensures HeaderText(a, b) == HeaderText(c, d) <==> a == c && b == d
  {
    HeaderBits(a, b);
    HeaderBits(c, d);
  }

  lemma HeaderBits(a: bool, b: bool)
    ensures |HeaderText(a, b)| == 38 && HeaderText(a, b)[29] == Bit(a)[0] && HeaderText(a, b)[37] == Bit(b)[0]
  {}
}
