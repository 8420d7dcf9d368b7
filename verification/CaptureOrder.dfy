/** What acceptance by `expand_capture` says about a tagged text: numbering, totals, untouched lines, tamper refusal. */
module CaptureOrder {
  import opened Collections
  import opened Text
  import opened CaptureFormat
  import opened CaptureLines

  // ------------------------------------------------------------- concatenation

  lemma {:induction false} RowsConcat(a: seq<string>, b: seq<string>, kind: Kind)
    ensures CompactRows(a + b, kind) == CompactRows(a, kind) + CompactRows(b, kind)
    decreases |b|
  {
    hide CompactKind;
    if b == [] {
      assert a + b == a;
    } else {
      RowsConcat(a, b[..|b| - 1], kind);
      assert (a + b)[..|a + b| - 1] == a + b[..|b| - 1];
    }
  }

  lemma {:induction false} ReceiptsConcat(a: seq<string>, b: seq<string>)
    ensures Receipts(a + b) == Receipts(a) + Receipts(b)
    decreases |b|
  {
    hide ParseReceipt;
    if b == [] {
      assert a + b == a;
    } else {
      ReceiptsConcat(a, b[..|b| - 1]);
      assert (a + b)[..|a + b| - 1] == a + b[..|b| - 1];
    }
  }

  // ------------------------------------------------------------------ numbering

  /** Every compact row carries the number of rows of its kind before it, and the declared kinds are complete. */
  lemma NumberedInOrder(ls: seq<string>, k: nat)
    requires Acceptable(ls) && k < |ls| && CompactKind(ls[k]).Some?
    ensures ParseCompact(ls[k]).Some?
    ensures var row := ParseCompact(ls[k]).value;
      row.kind == CompactKind(ls[k]).value
      && row.index == CompactRows(ls[..k], row.kind) < CompactRows(ls, row.kind) == Quota(Declared(ls).value, row.kind)
  {
    hide CompactKind, ParseCompact, CompactRows, Declared, IsTagged, IsHeader, Quota, NoneMixed, Keys, Narrow;
    TaggedForms(ls[k]);
    KindKept(ls[k]);
    assert LineFits(ls, k, Declared(ls).value.count);
    var kind := CompactKind(ls[k]).value;
    assert ls == ls[..k] + ([ls[k]] + ls[k + 1..]);
    RowsConcat(ls[..k], [ls[k]] + ls[k + 1..], kind);
    RowsConcat([ls[k]], ls[k + 1..], kind);
    OneRow(ls[k], kind);
  }

  lemma KindKept(l: string)
    ensures ParseCompact(l).Some? ==> CompactKind(l) == Some(ParseCompact(l).value.kind)
  {}

  lemma OneRow(l: string, kind: Kind)
    ensures CompactRows([l], kind) == if CompactKind(l) == Some(kind) then 1 else 0
  {
    assert [l][..0] == [];
  }

  lemma RowDeclaresNothing(a: seq<string>, l: string, b: seq<string>)
    requires CompactKind(l).Some?
    ensures Declared(a + [l] + b) == Declared(a + b)
  {
    hide CompactKind, IsHeader, ParseReceipt, ParseHeader;
    TaggedForms(l);
    SelectConcat(a + [l], b, IsHeader);
    SelectConcat(a, [l], IsHeader);
    SelectConcat(a, b, IsHeader);
    ReceiptsConcat(a + [l], b);
    ReceiptsConcat(a, [l]);
    ReceiptsConcat(a, b);
    assert [l][..0] == [];
    TagIsNoReceipt(l);
  }

  lemma TagIsNoReceipt(l: string)
    requires CompactKind(l).Some?
    ensures ParseReceipt(l).None?
  {
    assert l[5] == '2';
    assert |Chomp(l)| > 5 && Chomp(l)[5] == l[5];
    assert RETAINED[5] == 'o';
  }

  /** A compact row added anywhere, a duplicate included, spoils an acceptable text; so does one removed. */
  lemma RowCountFixed(a: seq<string>, l: string, b: seq<string>)
    requires CompactKind(l).Some?
    ensures !(Acceptable(a + b) && Acceptable(a + [l] + b))
  {
    hide CompactKind, Declared, AllFit, Quota, NoneMixed;
    var kind := CompactKind(l).value;
    RowDeclaresNothing(a, l, b);
    RowsConcat(a + [l], b, kind);
    RowsConcat(a, [l], kind);
    RowsConcat(a, b, kind);
    OneRow(l, kind);
  }

  function Swapped(ls: seq<string>, i: nat, j: nat): seq<string>
    requires i < |ls| && j < |ls|
  {
    ls[i := ls[j]][j := ls[i]]
  }

  lemma RowBefore(ls: seq<string>, i: nat, j: nat, kind: Kind)
    requires i < j < |ls| && CompactKind(ls[i]) == Some(kind)
    ensures CompactRows(ls[..i], kind) < CompactRows(ls[..j], kind)
  {
    hide CompactKind, CompactRows;
    assert ls[..j] == ls[..i] + ([ls[i]] + ls[i + 1..j]);
    RowsConcat(ls[..i], [ls[i]] + ls[i + 1..j], kind);
    RowsConcat([ls[i]], ls[i + 1..j], kind);
    OneRow(ls[i], kind);
  }

  // ------------------------------------------------------------- untouched lines

  predicate Plain(line: string) { !IsTagged(line) }

  predicate Unmixed(line: string) { !IsMixed(line) }

  lemma ExpandedRowMixed(line: string)
    requires ParseCompact(line).Some? && |ParseCompact(line).value.values| == |Keys(ParseCompact(line).value.kind)|
    ensures IsMixed(ExpandLine(line))
  {
    var row := ParseCompact(line).value;
    LegacyMixed(row.kind, Decimals(row.values));
  }

  lemma LegacyMixed(kind: Kind, ts: seq<string>)
    requires |ts| == |Keys(kind)|
    ensures IsMixed(LegacyText(kind, ts))
  {
    hide Keys, JoinWith;
    var l := LegacyText(kind, ts);
    if kind.Power? {
      PowerStart(ts);
      assert l[..28] == "cpu-load-power: " + JoinWith(Fields(Keys(kind), ts), ' ')[..12];
      assert "cpu-load-power: " + "power_state=" == "cpu-load-power: power_state=";
      assert "cpu-load-power: power_state=" <= l;
    } else {
      assert l[..|Prefix(kind)|] == Prefix(kind);
    }
  }

  lemma PowerStart(ts: seq<string>)
    requires |ts| == |Keys(Power)|
    ensures var js := JoinWith(Fields(Keys(Power), ts), ' '); |js| >= 12 && js[..12] == "power_state="
  {
    KeysNonempty(Power);
    var fs := Fields(Keys(Power), ts);
    var js := JoinWith(fs, ' ');
    assert fs[0] == "power_state" + "=" + ts[0];
    assert fs[0] <= js;
    assert fs[0][..12] == "power_state=";
  }

  /** Expansion only replaces compact rows and drops the header: all other lines stay, in order. */
  lemma {:induction false} OthersKept(ls: seq<string>, count: nat)
    requires NoneMixed(ls) && AllFit(ls, count)
    ensures Select(ExpandedLines(ls), Unmixed) == Select(ls, Plain)
  {
    hide CompactKind, IsTagged, IsHeader, IsMixed, ParseCompact, ExpandLine, Keys;
    if ls != [] {
      var before, line := ls[..|ls| - 1], ls[|ls| - 1];
      assert ls == before + [line];
      assert AllFit(before, count) by {
        forall k | 0 <= k < |before| ensures LineFits(before, k, count) {
          assert LineFits(ls, k, count);
          assert before[..k] == ls[..k];
        }
      }
      OthersKept(before, count);
      var e := ExpandLine(line);
      SelectConcat(ExpandedLines(before), [e], Unmixed);
      assert [e][..0] == [] && Select([], Unmixed) == [];
      assert ExpandedLines(before) + [] == ExpandedLines(before);
      TaggedForms(line);
      if IsTagged(line) && !IsHeader(line) {
        assert LineFits(ls, |before|, count);
        ExpandedRowMixed(line);
      } else if !IsHeader(line) {
        PlainKept(line);
        assert Unmixed(e) && Plain(line);
        assert Select([e], Unmixed) == [e];
      }
    }
  }

  lemma PlainKept(line: string)
    requires !IsTagged(line)
    ensures ExpandLine(line) == line
  {
    TaggedForms(line);
  }
}
