/** The codec loses nothing: `compact_legacy` accepts exactly the canonical texts, and `expand_capture` inverts it. */
module CaptureRoundTrip {
  import opened Collections
  import opened Text
  import opened CaptureFormat
  import opened CaptureLines

  // ------------------------------------------------------------- canonical texts

  /** A row printed from its values: schema order, single spaces, no leading zeros, below 2^64. */
  predicate PrintedFrom(kind: Kind, line: string, vs: seq<nat>) {
    |vs| == |Keys(kind)| && Narrow(vs) && line == LegacyText(kind, Decimals(vs))
  }

  ghost predicate CanonicalRow(kind: Kind, line: string) {
    exists vs: seq<nat> :: PrintedFrom(kind, line, vs)
  }

  ghost predicate CanonicalRows(ls: seq<string>) {
    forall k :: 0 <= k < |ls| && LegacyKind(ls[k]).Some? ==> CanonicalRow(LegacyKind(ls[k]).value, ls[k])
  }

  /** One retention receipt without overflow, for 1 to 24 samples. */
  predicate OneReceipt(ls: seq<string>, count: nat) {
    |Receipts(ls)| == 1 && Receipts(ls)[0].1 == "0" && Value(Receipts(ls)[0].0) == count && 0 < count <= 24
  }

  /** As many rows of each kind as the text's own mention of the kind calls for. */
  predicate RowCounts(text: string, ls: seq<string>, count: nat) {
    && LegacyRows(ls, Power) == count
    && LegacyRows(ls, Idle) == (if Contains(text, Prefix(Idle)) then count else 0)
    && LegacyRows(ls, Entry) == (if Contains(text, Prefix(Entry)) then count else 0)
  }

  ghost predicate Canonical(text: string) {
    var ls := Lines(text);
    && !Contains(text, FORMAT)
    && !AnyTagged(ls)
    && (AnyRow(ls) ==> CanonicalRows(ls) && exists count :: OneReceipt(ls, count) && RowCounts(text, ls, count))
  }

  // ------------------------------------------------------------ rows, one by one

  predicate NoHeader(ls: seq<string>) {
    forall k :: 0 <= k < |ls| ==> !IsHeader(ls[k])
  }

  predicate NoCompact(ls: seq<string>) {
    forall k :: 0 <= k < |ls| ==> CompactKind(ls[k]).None?
  }

  /** A row taken through both directions comes back as the print of its values. */
  lemma RestoredRow(before: seq<string>, line: string)
    requires LegacyKind(line).Some? && ParseLegacy(LegacyKind(line).value, line).Some?
    ensures var kind := LegacyKind(line).value; var vs := Values(ParseLegacy(kind, line).value);
      && ParseCompact(CompactLine(before, line)) == Some(Row(kind, LegacyRows(before, kind), vs))
      && CompactKind(CompactLine(before, line)) == Some(kind)
      && ExpandLine(CompactLine(before, line)) == LegacyText(kind, Decimals(vs))
  {
    hide LegacyKind, ParseLegacy, ParseCompact, CompactKind, CompactText, Keys, LegacyText;
    var kind := LegacyKind(line).value;
    KeysNonempty(kind);
    ParseOfCompact(kind, LegacyRows(before, kind), ParseLegacy(kind, line).value);
  }

  lemma PrintedParses(kind: Kind, line: string, vs: seq<nat>)
    requires PrintedFrom(kind, line, vs)
    ensures LegacyKind(line) == Some(kind)
    ensures ParseLegacy(kind, line) == Some(Decimals(vs))
    ensures AllNumerals(Decimals(vs)) && Values(Decimals(vs)) == vs
  {
    hide LegacyKind, ParseLegacy, Keys, LegacyText;
    var ts := Decimals(vs);
    assert AllNumerals(ts);
    KindOfLegacy(kind, ts);
    ParseOfLegacy(kind, ts);
    forall i | 0 <= i < |vs| ensures Values(ts)[i] == vs[i] { ValueOfDecimal(vs[i]); }
  }

  /** What canonical means of the row's own fields. */
  predicate PlainRow(kind: Kind, line: string) {
    var ts := ParseLegacy(kind, line);
    && ts.Some? && line == LegacyText(kind, ts.value) && Narrow(Values(ts.value))
    && forall i :: 0 <= i < |ts.value| ==> !LeadingZero(ts.value[i])
  }

  /** A row is canonical if and only if its fields print as the row and none has a leading zero or is too large. */
  lemma CanonicalPlain(kind: Kind, line: string)
    ensures CanonicalRow(kind, line) <==> PlainRow(kind, line)
  {
    hide ParseLegacy, LegacyText, Keys, LegacyKind;
    if PlainRow(kind, line) {
      var ts := ParseLegacy(kind, line).value;
      forall i | 0 <= i < |ts| ensures Decimals(Values(ts))[i] == ts[i] { DecimalOfValue(ts[i]); }
      assert Decimals(Values(ts)) == ts;
      assert PrintedFrom(kind, line, Values(ts));
    }
    if CanonicalRow(kind, line) {
      var vs: seq<nat> :| PrintedFrom(kind, line, vs);
      PrintedParses(kind, line, vs);
    }
  }

  // --------------------------------------------------------- lists, line by line

  lemma ExpandedSnoc(ls: seq<string>, l: string)
    ensures ExpandedLines(ls + [l]) == ExpandedLines(ls) + if IsHeader(l) then [] else [ExpandLine(l)]
  {
    assert (ls + [l])[..|ls|] == ls;
  }

  lemma RowsSnoc(ls: seq<string>, l: string, kind: Kind)
    ensures CompactRows(ls + [l], kind) == CompactRows(ls, kind) + if CompactKind(l) == Some(kind) then 1 else 0
  {
    assert (ls + [l])[..|ls|] == ls;
  }

  lemma ReceiptsSnoc(ls: seq<string>, l: string)
    ensures Receipts(ls + [l]) == Receipts(ls) + if ParseReceipt(l).Some? then [ParseReceipt(l).value] else []
  {
    assert (ls + [l])[..|ls|] == ls;
  }

  lemma FitSnoc(ls: seq<string>, l: string, count: nat)
    ensures AllFit(ls + [l], count) <==> AllFit(ls, count) && LineFits(ls + [l], |ls|, count)
  {
    hide RowFits, CompactKind, IsHeader, IsTagged;
    var all := ls + [l];
    forall k | 0 <= k < |ls| ensures LineFits(all, k, count) == LineFits(ls, k, count) {
      assert all[..k] == ls[..k];
    }
  }

  /** The lines after compaction and expansion. */
  function Restored(ls: seq<string>): (r: seq<string>)
    ensures |r| == |ls|
  {
    if ls == [] then []
    else Restored(ls[..|ls| - 1]) + [ExpandLine(CompactLine(ls[..|ls| - 1], ls[|ls| - 1]))]
  }

  lemma {:induction false} RestoredAt(ls: seq<string>, k: nat)
    requires k < |ls|
    ensures Restored(ls)[k] == ExpandLine(CompactLine(ls[..k], ls[k]))
  {
    if k < |ls| - 1 {
      RestoredAt(ls[..|ls| - 1], k);
      assert ls[..|ls| - 1][..k] == ls[..k];
    }
  }

  /** A replaced line is a line of its own kind; a kept one is unchanged. */
  lemma CompactLineForm(before: seq<string>, line: string)
    requires LegacyKind(line).Some? ==> ParseLegacy(LegacyKind(line).value, line).Some?
    requires !IsHeader(line)
    ensures !IsHeader(CompactLine(before, line)) && !IsMixed(CompactLine(before, line))
    ensures ParseReceipt(CompactLine(before, line)) == ParseReceipt(line)
    ensures LegacyKind(line).Some? ==> IsLine(CompactLine(before, line)) && Terminated(CompactLine(before, line))
  {
    hide LegacyKind, ParseLegacy, ParseCompact, CompactKind, CompactText, Keys, IsMixed, IsHeader, ParseReceipt, IsLine;
    if LegacyKind(line).Some? {
      var kind := LegacyKind(line).value;
      RestoredRow(before, line);
      TaggedForms(CompactLine(before, line));
      RowIsNoReceipt(line);
      KeysNonempty(kind);
      FormOfCompact(kind, LegacyRows(before, kind), ParseLegacy(kind, line).value);
    } else if IsMixed(line) {
      MixedIsRow(line);
    }
  }

  lemma {:induction false} ExpandOfCompacted(ls: seq<string>, h: string)
    requires NoHeader(ls) && AllParse(ls) && IsHeader(h)
    ensures ExpandedLines(CompactedLines(ls, h)) == Restored(ls)
  {
    hide LegacyKind, ParseLegacy, CompactLine, ExpandLine, IsHeader, AnyRow;
    if ls != [] {
      var before, line := ls[..|ls| - 1], ls[|ls| - 1];
      ExpandOfCompacted(before, h);
      CompactLineForm(before, line);
      var c := CompactedLines(before, h);
      ExpandedSnoc(c, h);
      ExpandedSnoc(c, CompactLine(before, line));
      ExpandedSnoc(c + [h], CompactLine(before, line));
      assert c + [] == c;
    }
  }

  lemma CompactedSnoc(ls: seq<string>, h: string)
    requires ls != []
    ensures var before, line := ls[..|ls| - 1], ls[|ls| - 1];
      CompactedLines(ls, h) ==
      (if LegacyKind(line).Some? && !AnyRow(before) then CompactedLines(before, h) + [h] else CompactedLines(before, h))
        + [CompactLine(before, line)]
  {}

  lemma AnyRowSnoc(ls: seq<string>)
    requires ls != []
    ensures AnyRow(ls) == (AnyRow(ls[..|ls| - 1]) || LegacyKind(ls[|ls| - 1]).Some?)
  {
    var before := ls[..|ls| - 1];
    assert forall k :: 0 <= k < |before| ==> before[k] == ls[k];
  }

  lemma {:induction false} HeaderOfCompacted(ls: seq<string>, h: string)
    requires NoHeader(ls) && AllParse(ls) && IsHeader(h)
    ensures Select(CompactedLines(ls, h), IsHeader) == if AnyRow(ls) then [h] else []
  {
    hide LegacyKind, ParseLegacy, CompactLine, IsHeader, AnyRow, CompactedLines, Select;
    if ls == [] {
      CompactEmpty(h);
      NoneSelected([], IsHeader);
    } else {
      var before, line := ls[..|ls| - 1], ls[|ls| - 1];
      HeaderOfCompacted(before, h);
      CompactLineForm(before, line);
      AnyRowSnoc(ls);
      CompactedSnoc(ls, h);
      var c := CompactedLines(before, h);
      SelectSnoc(c, h, IsHeader);
      SelectSnoc(c, CompactLine(before, line), IsHeader);
      SelectSnoc(c + [h], CompactLine(before, line), IsHeader);
    }
  }

  lemma {:induction false} ReceiptsOfCompacted(ls: seq<string>, h: string)
    requires NoHeader(ls) && AllParse(ls) && ParseReceipt(h).None?
    ensures Receipts(CompactedLines(ls, h)) == Receipts(ls)
  {
    hide LegacyKind, ParseLegacy, CompactLine, ParseReceipt, AnyRow;
    if ls != [] {
      var before, line := ls[..|ls| - 1], ls[|ls| - 1];
      ReceiptsOfCompacted(before, h);
      CompactLineForm(before, line);
      var c := CompactedLines(before, h);
      ReceiptsSnoc(c, h);
      ReceiptsSnoc(c, CompactLine(before, line));
      ReceiptsSnoc(c + [h], CompactLine(before, line));
      assert c + [] == c;
    }
  }

  lemma {:induction false} CompactedUnmixed(ls: seq<string>, h: string)
    requires NoHeader(ls) && AllParse(ls) && !IsMixed(h)
    ensures NoneMixed(CompactedLines(ls, h))
  {
    hide LegacyKind, ParseLegacy, CompactLine, IsMixed, AnyRow;
    if ls != [] {
      var before, line := ls[..|ls| - 1], ls[|ls| - 1];
      CompactedUnmixed(before, h);
      CompactLineForm(before, line);
    }
  }

  lemma {:induction false} CountsOfCompacted(ls: seq<string>, h: string, kind: Kind)
    requires NoCompact(ls) && AllParse(ls) && CompactKind(h).None?
    ensures CompactRows(CompactedLines(ls, h), kind) == LegacyRows(ls, kind)
  {
    hide LegacyKind, ParseLegacy, CompactKind, AnyRow, CompactLine, CompactedLines, CompactRows;
    if ls == [] {
      CompactEmpty(h);
      Empty();
    } else {
      var before, line := ls[..|ls| - 1], ls[|ls| - 1];
      CountsOfCompacted(before, h, kind);
      CompactedSnoc(ls, h);
      KindOfCompactLine(before, line);
      var c, l := CompactedLines(before, h), CompactLine(before, line);
      RowsSnoc(c, h, kind);
      RowsSnoc(c, l, kind);
      RowsSnoc(c + [h], l, kind);
    }
  }

  lemma KindOfCompactLine(before: seq<string>, line: string)
    requires LegacyKind(line).Some? ==> ParseLegacy(LegacyKind(line).value, line).Some?
    ensures CompactKind(CompactLine(before, line)) ==
      if LegacyKind(line).Some? then LegacyKind(line) else CompactKind(line)
  {
    hide LegacyKind, ParseLegacy, CompactKind, CompactText;
    if LegacyKind(line).Some? { RestoredRow(before, line); }
  }

  lemma {:induction false} LinesOfCompacted(ls: seq<string>, h: string)
    requires NoHeader(ls) && AllParse(ls) && IsLine(h) && Terminated(h) && WholeLines(ls)
    ensures WholeLines(CompactedLines(ls, h))
  {
    hide LegacyKind, ParseLegacy, IsLine, Terminated, AnyRow, CompactText, CompactedLines;
    if ls == [] {
      CompactEmpty(h);
    } else {
      var before, line := ls[..|ls| - 1], ls[|ls| - 1];
      LinesOfCompacted(before, h);
      CompactLineForm(before, line);
      CompactedSnoc(ls, h);
      var c, l := CompactedLines(before, h), CompactLine(before, line);
      assert ls[|ls| - 1] in ls && WholeLine(ls[|ls| - 1]);
      WholeSnoc(c, h);
      WholeSnoc(c, l);
      WholeSnoc(c + [h], l);
    }
  }

  lemma WholeSnoc(c: seq<string>, l: string)
    requires WholeLines(c) && IsLine(l) && Terminated(l)
    ensures WholeLines(c + [l])
  {
    hide IsLine, Terminated;
  }

  lemma CompactedAreLines(ls: seq<string>, h: string)
    requires NoHeader(ls) && AllParse(ls) && AreLines(ls) && IsLine(h) && Terminated(h)
    ensures AreLines(CompactedLines(ls, h))
  {
    hide LegacyKind, ParseLegacy, IsLine, Terminated, AnyRow, CompactLine, CompactedLines, IsHeader;
    if ls == [] {
      CompactEmpty(h);
    } else {
      var before, line := ls[..|ls| - 1], ls[|ls| - 1];
      WholeInit(ls);
      LinesOfCompacted(before, h);
      CompactedSnoc(ls, h);
      var c, l := CompactedLines(before, h), CompactLine(before, line);
      assert IsLine(l) by { CompactLineIsLine(before, line); }
      WholeSnoc(c, h);
      WholeThen(c, [l]);
      WholeThen(c + [h], [l]);
    }
  }

  lemma CompactLineIsLine(before: seq<string>, line: string)
    requires IsLine(line) && !IsHeader(line)
    requires LegacyKind(line).Some? ==> ParseLegacy(LegacyKind(line).value, line).Some?
    ensures IsLine(CompactLine(before, line))
  {
    hide LegacyKind, ParseLegacy, IsLine, Terminated, CompactText, IsHeader;
    CompactLineForm(before, line);
  }

  /** What line `k` of a legacy text must be for its compact counterpart to be accepted. */
  predicate Suits(ls: seq<string>, k: nat, count: nat)
    requires k < |ls|
  {
    var kind := LegacyKind(ls[k]);
    if kind.None? then !IsTagged(ls[k])
    else
      var ts := ParseLegacy(kind.value, ls[k]);
      ts.Some? && LegacyRows(ls[..k], kind.value) < count && Narrow(Values(ts.value))
  }

  predicate AllSuit(ls: seq<string>, count: nat) {
    forall k :: 0 <= k < |ls| ==> Suits(ls, k, count)
  }

  lemma SuitSnoc(ls: seq<string>, count: nat)
    requires ls != []
    ensures AllSuit(ls, count) <==> AllSuit(ls[..|ls| - 1], count) && Suits(ls, |ls| - 1, count)
  {
    hide LegacyKind, ParseLegacy, IsTagged, LegacyRows;
    var before := ls[..|ls| - 1];
    forall k | 0 <= k < |before| ensures Suits(before, k, count) == Suits(ls, k, count) {
      assert before[..k] == ls[..k];
    }
  }

  lemma {:induction false} FitOfCompacted(ls: seq<string>, h: string, count: nat)
    requires NoHeader(ls) && NoCompact(ls) && AllParse(ls) && IsHeader(h)
    ensures AllFit(CompactedLines(ls, h), count) <==> AllSuit(ls, count)
  {
    hide AllFit, AllSuit, Suits, LegacyKind, ParseLegacy, CompactLine, IsHeader, CompactKind, AnyRow, CompactText,
      CompactedLines, LineFits;
    if ls == [] {
      CompactEmpty(h);
      NothingFits(count);
    } else {
      var before, line := ls[..|ls| - 1], ls[|ls| - 1];
      FitOfCompacted(before, h, count);
      SuitSnoc(ls, count);
      var c, l := CompactedLines(before, h), CompactLine(before, line);
      CompactedSnoc(ls, h);
      assert ls == before + [line];
      FitSnoc(c, h, count);
      HeaderFits(c, h, count);
      FitSnoc(c, l, count);
      FitSnoc(c + [h], l, count);
      LastFits(before, line, h, count, c);
      LastFits(before, line, h, count, c + [h]);
      assert c + [] == c;
    }
  }

  lemma NothingFits(count: nat)
    ensures AllFit([], count) && AllSuit([], count)
  {}

  lemma HeaderFits(c: seq<string>, h: string, count: nat)
    requires IsHeader(h)
    ensures LineFits(c + [h], |c|, count)
  {}

  lemma LastFits(before: seq<string>, line: string, h: string, count: nat, c: seq<string>)
    requires NoHeader(before) && NoCompact(before) && AllParse(before + [line]) && IsHeader(h)
    requires !IsHeader(line) && CompactKind(line).None?
    requires c == CompactedLines(before, h) || c == CompactedLines(before, h) + [h]
    ensures LineFits(c + [CompactLine(before, line)], |c|, count) <==> Suits(before + [line], |before|, count)
  {
    hide LegacyKind, ParseLegacy, ParseCompact, CompactKind, AnyRow, CompactText, IsTagged, IsHeader, Keys;
    var ls := before + [line];
    assert ls[|before|] == line && ls[..|before|] == before;
    TaggedForms(h);
    if LegacyKind(line).Some? {
      var kind := LegacyKind(line).value;
      RestoredRow(before, line);
      TaggedForms(CompactLine(before, line));
      CountsOfCompacted(before, h, kind);
      RowsSnoc(CompactedLines(before, h), h, kind);
      assert (c + [CompactLine(before, line)])[..|c|] == c;
    }
  }

  // --------------------------------------------------------------- whole texts

  lemma DeclaredByCompacted(text: string, ls: seq<string>)
    requires NoHeader(ls) && AllParse(ls) && AnyRow(ls)
    ensures var d := Declared(CompactedLines(ls, HeaderFor(text)));
      && (d.Some? ==> OneReceipt(ls, d.value.count)
                      && d.value.idle == Contains(text, Prefix(Idle)) && d.value.entry == Contains(text, Prefix(Entry)))
      && (forall count :: OneReceipt(ls, count) ==> d.Some? && d.value.count == count)
  {
    hide AnyRow, CompactedLines, Contains, IsHeader, HeaderText, ParseHeader, Receipts, ParseReceipt;
    var h, idle, entry := HeaderFor(text), Contains(text, Prefix(Idle)), Contains(text, Prefix(Entry));
    FormOfHeader(idle, entry);
    ParseOfHeader(idle, entry);
    HeaderOfCompacted(ls, h);
    ReceiptsOfCompacted(ls, h);
  }

  lemma QuotaOfCompacted(text: string, ls: seq<string>, d: Declaration)
    requires NoCompact(ls) && AllParse(ls)
    requires d.idle == Contains(text, Prefix(Idle)) && d.entry == Contains(text, Prefix(Entry))
    ensures Complete(CompactedLines(ls, HeaderFor(text)), d) <==> RowCounts(text, ls, d.count)
  {
    hide CompactedLines, Contains, HeaderText, CompactRows, LegacyRows;
    var h := HeaderFor(text);
    var cs := CompactedLines(ls, h);
    FormOfHeader(d.idle, d.entry);
    forall kind: Kind ensures CompactRows(cs, kind) == LegacyRows(ls, kind) { CountsOfCompacted(ls, h, kind); }
    if RowCounts(text, ls, d.count) {
      forall kind: Kind ensures CompactRows(cs, kind) == Quota(d, kind) {
        match kind case Power => case Idle => case Entry =>
      }
    }
  }

  lemma AcceptableCompacted(text: string, ls: seq<string>)
    requires NoHeader(ls) && NoCompact(ls) && AllParse(ls) && AnyRow(ls)
    ensures Acceptable(CompactedLines(ls, HeaderFor(text))) <==>
      exists count :: OneReceipt(ls, count) && AllSuit(ls, count) && RowCounts(text, ls, count)
  {
    hide AnyRow, AllSuit, AllFit, RowCounts, Declared, Complete, OneReceipt, CompactedLines, NoneMixed, Contains,
      HeaderText, IsHeader, IsMixed;
    var h := HeaderFor(text);
    var cs := CompactedLines(ls, h);
    FormOfHeader(Contains(text, Prefix(Idle)), Contains(text, Prefix(Entry)));
    DeclaredByCompacted(text, ls);
    CompactedUnmixed(ls, h);
    var d := Declared(cs);
    if d.Some? {
      QuotaOfCompacted(text, ls, d.value);
      FitOfCompacted(ls, h, d.value.count);
    }
  }

  lemma {:induction false} RowsBelow(ls: seq<string>, k: nat)
    requires k < |ls| && LegacyKind(ls[k]).Some?
    ensures LegacyRows(ls[..k], LegacyKind(ls[k]).value) < LegacyRows(ls, LegacyKind(ls[k]).value)
  {
    hide LegacyKind;
    var before := ls[..|ls| - 1];
    if k < |before| {
      RowsBelow(before, k);
      assert before[..k] == ls[..k];
    }
  }

  lemma CanonicalSuits(text: string, ls: seq<string>, count: nat)
    requires !AnyTagged(ls) && CanonicalRows(ls) && RowCounts(text, ls, count)
    ensures AllParse(ls) && AllSuit(ls, count)
  {
    hide IsTagged, LegacyKind, ParseLegacy, Contains, LegacyRows, PrintedFrom, Narrow;
    forall k | 0 <= k < |ls|
      ensures LegacyKind(ls[k]).Some? ==> ParseLegacy(LegacyKind(ls[k]).value, ls[k]).Some?
      ensures Suits(ls, k, count)
    {
      if LegacyKind(ls[k]).Some? {
        var kind := LegacyKind(ls[k]).value;
        var vs: seq<nat> :| PrintedFrom(kind, ls[k], vs);
        PrintedParses(kind, ls[k], vs);
        PrintedNarrow(kind, ls[k], vs);
        RowsBelow(ls, k);
      }
    }
  }

  lemma PrintedNarrow(kind: Kind, line: string, vs: seq<nat>)
    requires PrintedFrom(kind, line, vs)
    ensures Narrow(vs)
  {}

  lemma CanonicalRestored(ls: seq<string>)
    requires !AnyTagged(ls) && CanonicalRows(ls) && AllParse(ls)
    ensures Restored(ls) == ls
  {
    hide IsTagged, LegacyKind, ParseLegacy, ParseCompact, CompactKind, Restored;
    forall k | 0 <= k < |ls| ensures Restored(ls)[k] == ls[k] {
      RestoredAt(ls, k);
      if LegacyKind(ls[k]).Some? {
        var kind := LegacyKind(ls[k]).value;
        var vs: seq<nat> :| PrintedFrom(kind, ls[k], vs);
        PrintedParses(kind, ls[k], vs);
        RestoredRow(ls[..k], ls[k]);
      } else {
        UntaggedKept(ls[k]);
      }
    }
  }

  lemma UntaggedKept(line: string)
    requires !IsTagged(line)
    ensures ExpandLine(line) == line && CompactKind(line).None? && !IsHeader(line)
  {
    TaggedForms(line);
  }

  lemma RestoredAreLines(ls: seq<string>)
    requires AreLines(ls) && AllParse(ls)
    ensures AreLines(Restored(ls))
  {
    hide IsLine, Terminated, LegacyKind, ParseLegacy, ParseCompact, LegacyText, Restored, Keys;
    forall k | 0 <= k < |ls|
      ensures IsLine(Restored(ls)[k]) && (Terminated(ls[k]) ==> Terminated(Restored(ls)[k]))
    {
      RestoredAt(ls, k);
      var l := CompactLine(ls[..k], ls[k]);
      if ParseCompact(l).Some? && |ParseCompact(l).value.values| == |Keys(ParseCompact(l).value.kind)| {
        var row := ParseCompact(l).value;
        assert AllNumerals(Decimals(row.values));
        FormOfLegacy(row.kind, Decimals(row.values));
      } else if LegacyKind(ls[k]).Some? {
        RestoredRow(ls[..k], ls[k]);
        assert false;
      }
    }
  }

  lemma {:induction false} Kept(ls: seq<string>, h: string, k: nat)
    requires k < |ls| && LegacyKind(ls[k]).None?
    ensures ls[k] in CompactedLines(ls, h)
  {
    hide LegacyKind, AnyRow;
    if k < |ls| - 1 {
      Kept(ls[..|ls| - 1], h, k);
    }
  }

  lemma RowUntagged(line: string)
    requires LegacyKind(line).Some?
    ensures !IsTagged(line)
  {
    var p := Prefix(LegacyKind(line).value);
    assert line[4] == p[4] && line[5] == p[5];
    assert "cpu-capture-"[4] == 'c';
    assert line[5..7][0] == line[5];
  }

  /** A compact row never expands to itself. */
  lemma ExpansionDiffers(line: string)
    requires ParseCompact(line).Some? && |ParseCompact(line).value.values| == |Keys(ParseCompact(line).value.kind)|
    ensures ExpandLine(line) != line
  {
    hide Keys, LegacyText;
    var row := ParseCompact(line).value;
    assert AllNumerals(Decimals(row.values));
    FormOfLegacy(row.kind, Decimals(row.values));
  }

  lemma RestoredUntagged(ls: seq<string>, h: string, count: nat)
    requires NoHeader(ls) && AllParse(ls) && Restored(ls) == ls && AllFit(CompactedLines(ls, h), count)
    ensures !AnyTagged(ls)
  {
    hide IsTagged, LegacyKind, ParseLegacy, ParseCompact, CompactKind, Restored, CompactedLines, ExpandLine, Keys;
    forall k | 0 <= k < |ls| ensures !IsTagged(ls[k]) {
      if LegacyKind(ls[k]).Some? {
        RowUntagged(ls[k]);
      } else if IsTagged(ls[k]) {
        Kept(ls, h, k);
        var j :| 0 <= j < |CompactedLines(ls, h)| && CompactedLines(ls, h)[j] == ls[k];
        assert LineFits(CompactedLines(ls, h), j, count);
        RestoredAt(ls, k);
        ExpansionDiffers(ls[k]);
        assert false;
      }
    }
  }

  lemma RestoredRowsCanonical(ls: seq<string>, count: nat)
    requires AllParse(ls) && Restored(ls) == ls && AllSuit(ls, count)
    ensures CanonicalRows(ls)
  {
    hide IsTagged, LegacyKind, ParseLegacy, Restored, ExpandLine, Keys, Narrow;
    forall k | 0 <= k < |ls| && LegacyKind(ls[k]).Some? ensures CanonicalRow(LegacyKind(ls[k]).value, ls[k]) {
      var kind := LegacyKind(ls[k]).value;
      RestoredAt(ls, k);
      RestoredRow(ls[..k], ls[k]);
      assert Suits(ls, k, count);
      assert PrintedFrom(kind, ls[k], Values(ParseLegacy(kind, ls[k]).value));
    }
  }

  lemma NoHeaderInside(text: string)
    requires !Contains(text, FORMAT)
    ensures NoHeader(Lines(text))
  {
    hide Contains;
    JoinLines(text);
    forall k | 0 <= k < |Lines(text)| ensures !IsHeader(Lines(text)[k]) {
      if IsHeader(Lines(text)[k]) { LineContains(Lines(text), k, FORMAT); }
    }
  }

  lemma TaggedNeedsHeader(ls: seq<string>)
    requires NoHeader(ls)
    ensures !Acceptable(ls)
  {
    NoneSelected(ls, IsHeader);
  }

  lemma {:induction false} NothingToCompact(ls: seq<string>, h: string)
    requires !AnyRow(ls)
    ensures CompactedLines(ls, h) == ls
  {
    hide LegacyKind;
    if ls != [] {
      NothingToCompact(ls[..|ls| - 1], h);
    }
  }

  /** Texts with rows: the compact text expands to the original exactly when the original is canonical. */
  lemma RowsExact(text: string)
    requires !Contains(text, FORMAT) && AllParse(Lines(text)) && AnyRow(Lines(text))
    ensures Expand(Join(CompactedLines(Lines(text), HeaderFor(text)))) == Ok(text) <==> Canonical(text)
  {
    hide Contains, Lines, AnyRow, AllParse, CompactedLines, AreLines, HeaderText, IsHeader, IsTagged, CanonicalRows,
      OneReceipt, RowCounts, AllSuit, AllFit, Restored, Declared, Complete, NoneMixed;
    var ls, h := Lines(text), HeaderFor(text);
    var cs := CompactedLines(ls, h);
    JoinLines(text);
    NoHeaderInside(text);
    FormOfHeader(Contains(text, Prefix(Idle)), Contains(text, Prefix(Entry)));
    CompactedAreLines(ls, h);
    LinesJoin(cs);
    HeaderPresent(ls, h);
    ExpandOfCompacted(ls, h);
    if Expand(Join(cs)) == Ok(text) {
      RestoredAreLines(ls);
      LinesJoin(Restored(ls));
      var d := Declared(cs).value;
      RestoredUntagged(ls, h, d.count);
      UntaggedNoCompact(ls);
      AcceptableCompacted(text, ls);
      var count :| OneReceipt(ls, count) && AllSuit(ls, count) && RowCounts(text, ls, count);
      RestoredRowsCanonical(ls, count);
    }
    if Canonical(text) {
      var count :| OneReceipt(ls, count) && RowCounts(text, ls, count);
      CanonicalSuits(text, ls, count);
      UntaggedNoCompact(ls);
      AcceptableCompacted(text, ls);
      CanonicalRestored(ls);
    }
  }

  lemma UntaggedNoCompact(ls: seq<string>)
    requires !AnyTagged(ls)
    ensures NoCompact(ls)
  {
    hide IsTagged, CompactKind;
    forall k | 0 <= k < |ls| ensures CompactKind(ls[k]).None? { UntaggedKept(ls[k]); }
  }

  lemma HeaderPresent(ls: seq<string>, h: string)
    requires AnyRow(ls) && NoHeader(ls) && AllParse(ls) && IsHeader(h)
    ensures AnyTagged(CompactedLines(ls, h))
  {
    hide AnyRow, CompactedLines, IsHeader, IsTagged, LegacyKind, ParseLegacy;
    var cs := CompactedLines(ls, h);
    HeaderOfCompacted(ls, h);
    Selected(cs, IsHeader);
    TaggedForms(h);
    assert h in [h];
    var k :| 0 <= k < |cs| && cs[k] == h;
  }

  /**
   * The run-time round-trip check of `compact_legacy` never fires on a canonical text, and
   * a text it lets through is canonical: acceptance and canonical form are the same thing.
   */
  lemma CompactExact(text: string)
    ensures Compact(text).Ok? <==> Canonical(text)
    ensures Canonical(text) ==> Expand(Compact(text).text) == Ok(text)
  {
    hide Contains, Lines, Expand, CompactedLines, AllParse, AnyRow, Canonical;
    if Canonical(text) { CanonicalMeans(text); }
    if !Contains(text, FORMAT) {
      if !AnyRow(Lines(text)) {
        NoRowsExact(text);
      } else if AllParse(Lines(text)) {
        RowsExact(text);
      }
    }
  }

  lemma CanonicalMeans(text: string)
    requires Canonical(text)
    ensures !Contains(text, FORMAT) && AllParse(Lines(text))
  {
    hide Contains, Lines, IsTagged, LegacyKind, ParseLegacy, PrintedFrom;
    var ls := Lines(text);
    if AnyRow(ls) {
      var count :| OneReceipt(ls, count) && RowCounts(text, ls, count);
      CanonicalSuits(text, ls, count);
    }
  }

  lemma NoRowsExact(text: string)
    requires !Contains(text, FORMAT) && !AnyRow(Lines(text))
    ensures AllParse(Lines(text))
    ensures Expand(Join(CompactedLines(Lines(text), HeaderFor(text)))) == Ok(text) <==> Canonical(text)
  {
    hide Contains, Lines, CompactedLines, Acceptable, IsTagged, LegacyKind, ParseLegacy;
    var ls := Lines(text);
    JoinLines(text);
    NoHeaderInside(text);
    NothingToCompact(ls, HeaderFor(text));
    TaggedNeedsHeader(ls);
  }

  /** A legacy row, however spaced, that holds a numeral with a leading zero is refused, never rewritten. */
  lemma LeadingZeroRefused(text: string, k: nat, kind: Kind, i: nat)
    requires k < |Lines(text)| && LegacyKind(Lines(text)[k]) == Some(kind)
    requires var ts := ParseLegacy(kind, Lines(text)[k]); ts.Some? && i < |ts.value| && LeadingZero(ts.value[i])
    ensures Compact(text).Refused?
  {
    hide Lines, Keys, LegacyText, Compact, IsTagged, LegacyKind, ParseLegacy, Contains, PrintedFrom;
    CompactExact(text);
    if Compact(text).Ok? {
      var ls := Lines(text);
      assert AnyRow(ls);
      assert CanonicalRow(kind, ls[k]);
      var vs: seq<nat> :| PrintedFrom(kind, ls[k], vs);
      PrintedParses(kind, ls[k], vs);
      assert false;
    }
  }

  /**
   * What compaction leaves: no legacy row, one compact row for each, the receipts,
   * and one header when there are rows.
   */
  lemma CompactedForm(text: string)
    requires Compact(text).Ok?
    ensures var ls, cs := Lines(text), Lines(Compact(text).text);
      && NoneMixed(cs) && Receipts(cs) == Receipts(ls)
      && (forall kind: Kind :: CompactRows(cs, kind) == LegacyRows(ls, kind))
      && Select(cs, IsHeader) == if AnyRow(ls) then [HeaderFor(text)] else []
  {
    hide Contains, Lines, Expand, CompactedLines, AllParse, AnyRow, AreLines, NoneMixed, Receipts, CompactRows,
      LegacyRows, HeaderText, IsHeader, IsMixed, IsTagged, CompactKind, ParseReceipt, CanonicalRows;
    var ls, h := Lines(text), HeaderFor(text);
    CompactExact(text);
    JoinLines(text);
    NoHeaderInside(text);
    UntaggedNoCompact(ls);
    FormOfHeader(Contains(text, Prefix(Idle)), Contains(text, Prefix(Entry)));
    CompactedAreLines(ls, h);
    LinesJoin(CompactedLines(ls, h));
    CompactedUnmixed(ls, h);
    ReceiptsOfCompacted(ls, h);
    HeaderOfCompacted(ls, h);
    forall kind: Kind
      ensures CompactRows(CompactedLines(ls, h), kind) == LegacyRows(ls, kind)
    {
      CountsOfCompacted(ls, h, kind);
    }
  }
}
