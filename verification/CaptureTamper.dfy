/** Tampering with the compact rows of an accepted text: deleting, repeating or exchanging any of them is refused. */
module CaptureTamper {
  import opened Collections
  import opened Text
  import opened CaptureFormat
  import opened CaptureOrder

  // ---------------------------------------------------------------------- deletion

  /** Deleting any compact row of an accepted text makes it refused. */
  lemma DeletionRefused(a: seq<string>, l: string, b: seq<string>)
    requires AreLines(a + [l] + b) && CompactKind(l).Some? && Expand(Join(a + [l] + b)).Ok?
    ensures Expand(Join(a + b)).Refused?
  {
    hide CompactKind, Acceptable, Lines, IsTagged;
    ShorterAreLines(a, l, b);
    LinesJoin(a + [l] + b);
    LinesJoin(a + b);
    TaggedForms(l);
    assert (a + [l] + b)[|a|] == l;
    DeletedStillTagged(a, l, b);
    RowCountFixed(a, l, b);
  }

  lemma ShorterAreLines(a: seq<string>, l: string, b: seq<string>)
    requires AreLines(a + [l] + b)
    ensures AreLines(a + b)
  {
    hide IsLine, Terminated;
    var ls, short := a + [l] + b, a + b;
    forall k | 0 <= k < |short| ensures short[k] == ls[if k < |a| then k else k + 1] {}
  }

  /** The declaration survives a deletion, so the shortened text is still tagged. */
  lemma DeletedStillTagged(a: seq<string>, l: string, b: seq<string>)
    requires Acceptable(a + [l] + b) && CompactKind(l).Some?
    ensures AnyTagged(a + b)
  {
    hide CompactKind, IsHeader, IsTagged, ParseReceipt, ParseHeader, AllFit, NoneMixed;
    RowDeclaresNothing(a, l, b);
    Selected(a + b, IsHeader);
    var h := Select(a + b, IsHeader)[0];
    assert h in Select(a + b, IsHeader);
    TaggedForms(h);
    var k :| 0 <= k < |a + b| && (a + b)[k] == h;
  }

  // A row that loses its LF, or gets none, runs into the next line:
  // the lines of the tampered text have to be found first.

  // ------------------------------------------------------------------ rows with a tail

  lemma TagLength(kind: Kind)
    ensures |Tag(kind)| == 7
  {}

  lemma SameKind(l: string, f: string)
    requires CompactKind(l).Some? && Chomp(l) <= f
    ensures CompactKind(f) == CompactKind(l)
  {
    var c := Chomp(l);
    var t := Tag(CompactKind(l).value);
    assert t[6] == ':' && t <= l;
    assert t <= c by { assert |l| == 7 ==> l[6] == ':'; }
    assert t <= f;
    assert Tag(Power)[4] == 'p' && Tag(Idle)[4] == 'i' && Tag(Entry)[4] == 'e';
  }

  lemma ChompLonger(c: string, f: string)
    requires c <= f && !Terminated(c)
    ensures c <= Chomp(f)
  {
    if |f| == |c| { assert f == c; }
  }

  lemma SameRun(r: string, q: string)
    requires r <= q && DigitRun(r) < |r|
    ensures DigitRun(q) == DigitRun(r)
  {
    assert forall i :: 0 <= i < |r| ==> q[i] == r[i];
  }

  lemma NoInnerBreak(l: string)
    requires IsLine(l)
    ensures !Terminated(Chomp(l)) && Lacks(Chomp(l), '\n')
  {}

  /** What the parser takes from a row before its values. */
  function IndexText(l: string): Option<string> {
    var kind, body := CompactKind(l), Chomp(l);
    if kind.None? || |body| < 10 then None else
    var rest := body[10..];
    var n := DigitRun(rest);
    if n + 3 <= |rest| && rest[n..n + 3] == " v=" then Some(rest[..n]) else None
  }

  lemma ParsedIndex(l: string)
    requires ParseCompact(l).Some?
    ensures IndexText(l).Some? && IsNumeral(IndexText(l).value)
    ensures ParseCompact(l).value.index == Value(IndexText(l).value)
  {
    hide AllNumerals, Values, SplitOn, Tag;
    TagLength(CompactKind(l).value);
  }

  lemma SameIndexText(l: string, f: string)
    requires IsLine(l) && Chomp(l) <= f && IndexText(l).Some? && CompactKind(f) == CompactKind(l)
    ensures IndexText(f) == IndexText(l)
  {
    hide CompactKind;
    NoInnerBreak(l);
    ChompLonger(Chomp(l), f);
    var r, q := Chomp(l)[10..], Chomp(f)[10..];
    assert r <= q;
    SameRun(r, q);
    var n := DigitRun(r);
    assert q[..n] == r[..n] && q[n..n + 3] == r[n..n + 3];
  }

  /** A longer line with the row as a prefix still has the row's kind and index, if it parses at all. */
  lemma SameIndex(l: string, f: string)
    requires IsLine(l) && ParseCompact(l).Some? && Chomp(l) <= f
    ensures CompactKind(f) == CompactKind(l)
    ensures ParseCompact(f).Some? ==> ParseCompact(f).value.index == ParseCompact(l).value.index
  {
    hide CompactKind, ParseCompact, IndexText, Value;
    assert CompactKind(l).Some? by { KindKept(l); }
    SameKind(l, f);
    ParsedIndex(l);
    SameIndexText(l, f);
    if ParseCompact(f).Some? { ParsedIndex(f); }
  }

  lemma {:induction false} NumeralsPlain(t: string, i: nat)
    requires AllNumerals(SplitOn(t, ',')) && i < |t|
    ensures IsDigit(t[i]) || t[i] == ','
    decreases |t|
  {
    var n, ts := IndexOf(t, ','), SplitOn(t, ',');
    assert IsNumeral(ts[0]);
    if n < |t| && i > n {
      var rest := SplitOn(t[n + 1..], ',');
      forall k | 0 <= k < |rest| ensures IsNumeral(rest[k]) { assert rest[k] == ts[k + 1]; }
      NumeralsPlain(t[n + 1..], i - n - 1);
    }
  }

  /** Two rows in one line do not parse: the second starts with a letter. */
  lemma TwoRows(l: string, m: string)
    requires IsLine(l) && !Terminated(l) && ParseCompact(l).Some? && CompactKind(m).Some?
    ensures ParseCompact(l + m).None?
  {
    hide CompactKind, ParseCompact, IndexText;
    var f := l + m;
    SameIndex(l, f);
    ParsedIndex(l);
    SameIndexText(l, f);
    assert m != "" && m[0] == 'c' by { StartsC(m); }
    if ParseCompact(f).Some? { ValuesPlain(l, f, |l|); }
  }

  lemma StartsC(m: string)
    requires CompactKind(m).Some?
    ensures |m| >= 7 && m[0] == 'c'
  {
    assert Tag(CompactKind(m).value)[0] == 'c';
  }

  lemma ParsedValues(f: string)
    requires ParseCompact(f).Some?
    ensures IndexText(f).Some?
    ensures var n := 13 + |IndexText(f).value|; n <= |Chomp(f)| && AllNumerals(SplitOn(Chomp(f)[n..], ','))
  {
    hide AllNumerals, Values, SplitOn, Tag;
    TagLength(CompactKind(f).value);
    var rest := Chomp(f)[10..];
    var n := DigitRun(rest);
    assert rest[n + 3..] == Chomp(f)[13 + n..];
  }

  /** Past the index of a row that parses there are only digits and commas. */
  lemma ValuesPlain(l: string, f: string, i: nat)
    requires ParseCompact(l).Some? && IsLine(l) && !Terminated(l) && l < f && ParseCompact(f).Some? && |l| <= i < |f|
    ensures f[i] != 'c'
  {
    hide ParseCompact, IndexText, CompactKind, AllNumerals, SplitOn;
    SameIndex(l, f);
    ParsedIndex(l);
    ParsedValues(l);
    ParsedValues(f);
    SameIndexText(l, f);
    var n, body := 13 + |IndexText(f).value|, Chomp(f);
    if i < |body| {
      assert body[n..][i - n] == f[i];
      NumeralsPlain(body[n..], i - n);
    }
  }

  // ---------------------------------------------------------------------- exchange

  /** The first line of what starts with a row has that row as its prefix. */
  lemma FirstOf(l: string, more: string)
    requires IsLine(l)
    ensures var t := l + more; t != "" && Chomp(l) <= t[..LineLength(t)] && IsLine(t[..LineLength(t)])
  {
    var t, c := l + more, Chomp(l);
    NoInnerBreak(l);
    var n := LineLength(t);
    assert forall i :: 0 <= i < |c| ==> t[i] == c[i];
    assert n >= |c|;
    assert t[..n][..|c|] == c;
  }

  lemma WholeText(a: seq<string>)
    requires WholeLines(a)
    ensures (Join(a) == "" || Terminated(Join(a))) && Lines(Join(a)) == a
  {
    hide IsLine, Terminated, Lines, Join;
    assert AreLines(a) by { WholeThen(a, []); assert a + [] == a; }
    LinesJoin(a);
    WholeEnds(a);
  }

  lemma WholeEnds(a: seq<string>)
    requires WholeLines(a)
    ensures Join(a) == "" || Terminated(Join(a))
  {
    if a != [] {
      hide Terminated, IsLine, Join;
      var init, last := a[..|a| - 1], a[|a| - 1];
      assert a == init + [last] && last in a;
      JoinAppend(init, [last]);
      assert Join([last]) == last by { JoinSingle(last); }
      EndsSame(Join(init), last);
    }
  }

  lemma JoinSingle(l: string)
    ensures Join([l]) == l
  {
    assert [l][1..] == [];
  }

  lemma EndsSame(a: string, b: string)
    requires Terminated(b)
    ensures Terminated(a + b)
  {}

  /** After whole lines a row with any text behind it is one line of its own number. */
  lemma RowAfter(a: seq<string>, l: string, more: string) returns (f: string, rest: seq<string>)
    requires WholeLines(a) && IsLine(l)
    ensures Lines(Join(a) + (l + more)) == a + ([f] + rest) && Chomp(l) <= f && IsLine(f)
  {
    hide Lines, LineLength, IsLine, Terminated, WholeLines, Join;
    WholeText(a);
    LinesConcat(Join(a), l + more);
    var t := l + more;
    FirstOf(l, more);
    LinesCons(t);
    f, rest := t[..LineLength(t)], Lines(t[LineLength(t)..]);
  }

  lemma WrongIndex(a: seq<string>, f: string, rest: seq<string>, l: string)
    requires IsLine(l) && ParseCompact(l).Some? && Chomp(l) <= f
    requires ParseCompact(l).value.index != CompactRows(a, ParseCompact(l).value.kind)
    ensures AnyTagged(a + ([f] + rest)) && !Acceptable(a + ([f] + rest))
  {
    hide CompactKind, ParseCompact, CompactRows, Declared, IsTagged, IsHeader, Quota, NoneMixed, Keys, Narrow, IsLine;
    var ls := a + ([f] + rest);
    assert ls[|a|] == f && ls[..|a|] == a;
    SameIndex(l, f);
    KindKept(l);
    KindKept(f);
    TaggedForms(f);
    forall count: nat ensures !AllFit(ls, count) { assert !LineFits(ls, |a|, count); }
  }

  lemma SwapText(ls: seq<string>, i: nat, j: nat)
    requires i < j < |ls|
    ensures Join(Swapped(ls, i, j)) == Join(ls[..i]) + (ls[j] + Join(Swapped(ls, i, j)[i + 1..]))
  {
    hide Join;
    var s := Swapped(ls, i, j);
    assert s == ls[..i] + ([ls[j]] + s[i + 1..]);
    JoinAppend(ls[..i], [ls[j]] + s[i + 1..]);
    JoinCons(ls[j], s[i + 1..]);
  }

  lemma PrefixWhole(ls: seq<string>, i: nat)
    requires AreLines(ls) && i < |ls|
    ensures WholeLines(ls[..i]) && IsLine(ls[i])
  {
    hide IsLine, Terminated;
    forall x | x in ls[..i] ensures WholeLine(x) { var k :| 0 <= k < i && ls[..i][k] == x; assert ls[k] == x; }
  }

  lemma AcceptedText(ls: seq<string>, k: nat)
    requires AreLines(ls) && Expand(Join(ls)).Ok? && k < |ls| && CompactKind(ls[k]).Some?
    ensures Acceptable(ls)
  {
    hide CompactKind, Acceptable, AreLines, Lines, IsTagged;
    LinesJoin(ls);
    TaggedForms(ls[k]);
  }

  /** Exchanging two compact rows of one kind in an accepted text makes it refused, LF or not. */
  lemma ExchangeRefused(ls: seq<string>, i: nat, j: nat)
    requires i < j < |ls| && AreLines(ls)
    requires CompactKind(ls[i]).Some? && CompactKind(ls[j]) == CompactKind(ls[i]) && Expand(Join(ls)).Ok?
    ensures Expand(Join(Swapped(ls, i, j))).Refused?
  {
    hide CompactKind, ParseCompact, Acceptable, AreLines, IsLine, Lines, Join, IsTagged, AnyTagged, CompactRows,
      Declared, Quota;
    AcceptedText(ls, i);
    PrefixWhole(ls, i);
    PrefixWhole(ls, j);
    SwapText(ls, i, j);
    NumberedInOrder(ls, j);
    RowBefore(ls, i, j, CompactKind(ls[i]).value);
    var f, rest := RowAfter(ls[..i], ls[j], Join(Swapped(ls, i, j)[i + 1..]));
    WrongIndex(ls[..i], f, rest, ls[j]);
  }

  // -------------------------------------------------------------------- repetition

  lemma WholeRepeated(a: seq<string>, l: string, b: seq<string>)
    requires AreLines(a + b) && WholeLines(a) && WholeLine(l)
    ensures AreLines(a + [l] + b)
  {
    hide IsLine, Terminated;
    assert AreLines(b) by { forall k | 0 <= k < |b| ensures b[k] == (a + b)[|a| + k] {} }
    assert WholeLines(a + [l]);
    WholeThen(a + [l], b);
  }

  /** Repeating a compact row of an accepted text at any line boundary makes it refused, LF or not. */
  lemma RepetitionRefused(a: seq<string>, l: string, b: seq<string>)
    requires AreLines(a + b) && WholeLines(a) && l in a + b && CompactKind(l).Some? && Expand(Join(a + b)).Ok?
    ensures Expand(Join(a + [l] + b)).Refused?
  {
    hide CompactKind, Acceptable, AreLines, Lines, IsTagged, IsLine, Terminated, WholeLines, Join;
    var k :| 0 <= k < |a + b| && (a + b)[k] == l;
    AcceptedText(a + b, k);
    PrefixWhole(a + b, k);
    if Terminated(l) {
      WholeRepeated(a, l, b);
      LinesJoin(a + [l] + b);
      TaggedForms(l);
      assert (a + [l] + b)[|a|] == l;
      RowCountFixed(a, l, b);
    } else {
      UnfinishedRepeated(a, l, b);
    }
  }

  lemma LastIsUnfinished(a: seq<string>, l: string, b: seq<string>)
    requires AreLines(a + b) && WholeLines(a) && l in a + b && !Terminated(l)
    ensures b != [] && b[|b| - 1] == l && IsLine(l)
  {
    hide IsLine, Terminated;
    var k :| 0 <= k < |a + b| && (a + b)[k] == l;
    assert k < |a| ==> l in a;
    assert k == |a + b| - 1;
  }

  lemma GluedLine(l: string, m: string)
    requires IsLine(l) && !Terminated(l) && IsLine(m)
    ensures IsLine(l + m) && (Terminated(m) ==> Terminated(l + m))
  {
    assert Lacks(l, '\n');
  }

  /** The copy of an unfinished row and the line after it are one line. */
  lemma GluedLines(a: seq<string>, l: string, b: seq<string>)
    requires AreLines(a + b) && WholeLines(a) && IsLine(l) && !Terminated(l) && b != []
    ensures Lines(Join(a + [l] + b)) == a + ([l + b[0]] + b[1..])
  {
    hide IsLine, Terminated, Join, Lines, WholeLine;
    var rest := b[1..];
    assert a + [l] + b == a + ([l, b[0]] + rest);
    JoinGlued(a, l, b[0], rest);
    assert AreLines(rest) && IsLine(b[0]) && (rest != [] ==> Terminated(b[0])) by { TailLines(a, b); }
    GluedLine(l, b[0]);
    AreLinesCons(l + b[0], rest);
    WholeThen(a, [l + b[0]] + rest);
    LinesJoin(a + ([l + b[0]] + rest));
  }

  lemma TailLines(a: seq<string>, b: seq<string>)
    requires AreLines(a + b) && b != []
    ensures AreLines(b[1..]) && IsLine(b[0]) && (b[1..] != [] ==> Terminated(b[0]))
  {
    hide IsLine, Terminated;
    forall k | 0 <= k < |b| ensures b[k] == (a + b)[|a| + k] {}
  }

  /** Two rows run together do not parse. */
  lemma RowGlued(a: seq<string>, l: string, m: string, rest: seq<string>)
    requires IsLine(l) && !Terminated(l) && ParseCompact(l).Some? && CompactKind(m).Some?
    ensures AnyTagged(a + ([l + m] + rest)) && !Acceptable(a + ([l + m] + rest))
  {
    hide CompactKind, ParseCompact, CompactRows, Declared, IsTagged, IsHeader, Quota, NoneMixed, Keys, Narrow, IsLine;
    var f := l + m;
    var ls := a + ([f] + rest);
    assert ls[|a|] == f && ls[..|a|] == a;
    TwoRows(l, m);
    KindKept(l);
    SameKind(l, f);
    TaggedForms(f);
    forall count: nat ensures !AllFit(ls, count) { assert !LineFits(ls, |a|, count); }
  }

  /** A copy run together with another line still counts, so the last row has the wrong number. */
  lemma OtherGlued(a: seq<string>, l: string, m: string, mid: seq<string>)
    requires IsLine(l) && !Terminated(l) && CompactKind(l).Some? && CompactKind(m).None?
    requires Acceptable(a + ([m] + (mid + [l])))
    ensures var ls := a + ([l + m] + (mid + [l])); AnyTagged(ls) && !Acceptable(ls)
  {
    hide CompactKind, ParseCompact, CompactRows, Acceptable, IsLine, AnyTagged, Declared, Quota;
    var was := a + ([m] + (mid + [l]));
    NumberedInOrder(was, |was| - 1);
    var kind, before, now := CompactKind(l).value, a + ([m] + mid), a + ([l + m] + mid);
    assert was[..|was| - 1] == before && was[|was| - 1] == l;
    SameKind(l, l + m);
    RowsConcat(a, [m] + mid, kind);
    RowsConcat([m], mid, kind);
    RowsConcat(a, [l + m] + mid, kind);
    RowsConcat([l + m], mid, kind);
    OneRow(m, kind);
    OneRow(l + m, kind);
    WrongIndex(now, l, [], l);
    assert now + ([l] + []) == a + ([l + m] + (mid + [l]));
  }

  /** The unfinished row is the last line, and its copy runs into the next one. */
  lemma UnfinishedRepeated(a: seq<string>, l: string, b: seq<string>)
    requires AreLines(a + b) && WholeLines(a) && l in a + b && !Terminated(l) && CompactKind(l).Some?
    requires Acceptable(a + b)
    ensures Expand(Join(a + [l] + b)).Refused?
  {
    hide CompactKind, Acceptable, AreLines, Lines, IsLine, Join, ParseCompact, AnyTagged, WholeLines, CompactRows,
      Declared, Quota;
    LastIsUnfinished(a, l, b);
    GluedLines(a, l, b);
    if CompactKind(b[0]).Some? {
      assert (a + b)[|a + b| - 1] == l;
      NumberedInOrder(a + b, |a + b| - 1);
      RowGlued(a, l, b[0], b[1..]);
    } else {
      var mid := b[1..|b| - 1];
      assert b == [b[0]] + (mid + [l]) && b[1..] == mid + [l];
      OtherGlued(a, l, b[0], mid);
    }
  }
}
