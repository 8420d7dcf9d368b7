/** Log text as the tools read it: LF-terminated lines, separated fields and decimal numerals. */
module Text {

  // ---------------------------------------------------------------- lines

  /** Length of the first line, its LF included. */
  function LineLength(s: string): (n: nat)
    requires s != ""
    ensures 1 <= n <= |s|
    ensures forall i :: 0 <= i < n - 1 ==> s[i] != '\n'
    ensures s[n - 1] == '\n' || n == |s|
  {
    if s[0] == '\n' || |s| == 1 then 1 else 1 + LineLength(s[1..])
  }

  /** `text.splitlines(keepends=True)`. */
  function Lines(s: string): seq<string>
    decreases |s|
  {
    if s == "" then [] else [s[..LineLength(s)]] + Lines(s[LineLength(s)..])
  }

  /** `''.join(lines)`. */
  function Join(ls: seq<string>): string {
    if ls == [] then "" else ls[0] + Join(ls[1..])
  }

  predicate Terminated(l: string) {
    l != "" && l[|l| - 1] == '\n'
  }

  predicate IsLine(l: string) {
    l != "" && forall i :: 0 <= i < |l| - 1 ==> l[i] != '\n'
  }

  /** What splitting a text can yield: only the last line may lack its LF. */
  predicate AreLines(ls: seq<string>) {
    && (forall i :: 0 <= i < |ls| ==> IsLine(ls[i]))
    && (forall i :: 0 <= i < |ls| - 1 ==> Terminated(ls[i]))
  }

  predicate WholeLine(l: string) { IsLine(l) && Terminated(l) }

  predicate WholeLines(ls: seq<string>) { forall x :: x in ls ==> WholeLine(x) }

  /** The line without its LF. */
  function Chomp(l: string): string {
    if Terminated(l) then l[..|l| - 1] else l
  }

  lemma {:induction false} JoinLines(s: string)
    ensures Join(Lines(s)) == s && AreLines(Lines(s))
    decreases |s|
  {
    if s != "" {
      var n := LineLength(s);
      var l, rest := s[..n], s[n..];
      JoinLines(rest);
      hide *;
      FirstLine(s);
      JoinCons(l, Lines(rest));
      NoLines();
      AreLinesCons(l, Lines(rest));
      LinesCons(s);
    } else {
      NoLines();
    }
  }

  lemma FirstLine(s: string)
    requires s != ""
    ensures var n := LineLength(s); IsLine(s[..n]) && (s[n..] != "" ==> Terminated(s[..n])) && s == s[..n] + s[n..]
  {}

  lemma NoLines()
    ensures Lines("") == []
  {}

  lemma LinesCons(s: string)
    requires s != ""
    ensures Lines(s) == [s[..LineLength(s)]] + Lines(s[LineLength(s)..])
  {}

  lemma JoinCons(l: string, ls: seq<string>)
    ensures Join([l] + ls) == l + Join(ls)
  {
    assert ([l] + ls)[1..] == ls;
  }

  lemma AreLinesCons(l: string, rest: seq<string>)
    requires IsLine(l) && AreLines(rest) && (rest != [] ==> Terminated(l))
    ensures AreLines([l] + rest)
  {
    hide IsLine, Terminated;
    var ls := [l] + rest;
    forall i | 1 <= i < |ls| ensures ls[i] == rest[i - 1] {}
  }

  lemma {:induction false} LineLengthUnique(s: string, n: nat)
    requires 1 <= n <= |s|
    requires forall i :: 0 <= i < n - 1 ==> s[i] != '\n'
    requires s[n - 1] == '\n' || n == |s|
    ensures LineLength(s) == n
  {
    if n > 1 {
      assert s[0] != '\n';
      LineLengthUnique(s[1..], n - 1);
    }
  }

  lemma AreLinesRest(ls: seq<string>)
    requires AreLines(ls) && ls != []
    ensures AreLines(ls[1..]) && IsLine(ls[0]) && (ls[1..] != [] ==> Terminated(ls[0]))
  {
    hide IsLine, Terminated;
    var rest := ls[1..];
    forall i | 0 <= i < |rest| ensures rest[i] == ls[i + 1] {}
  }

  lemma LinesStep(h: string, rest: string)
    requires IsLine(h) && (rest != "" ==> Terminated(h))
    ensures Lines(h + rest) == [h] + Lines(rest)
  {
    var s := h + rest;
    LineLengthUnique(s, |h|);
    assert s[..|h|] == h && s[|h|..] == rest;
  }

  lemma {:induction false} LinesJoin(ls: seq<string>)
    requires AreLines(ls)
    ensures Lines(Join(ls)) == ls
  {
    if ls == [] {
      NoLines();
    } else {
      hide Lines, IsLine, Terminated, AreLines;
      var l, rest := ls[0], ls[1..];
      AreLinesRest(ls);
      LinesJoin(rest);
      LinesStep(l, Join(rest));
      assert ls == [l] + rest;
    }
  }

  lemma WholeInit(ls: seq<string>)
    requires AreLines(ls) && ls != []
    ensures WholeLines(ls[..|ls| - 1]) && IsLine(ls[|ls| - 1])
  {
    hide IsLine, Terminated;
    var init := ls[..|ls| - 1];
    forall x | x in init ensures WholeLine(x) { var k :| 0 <= k < |init| && init[k] == x; assert ls[k] == x; }
  }

  lemma WholeThen(ls: seq<string>, last: seq<string>)
    requires WholeLines(ls) && AreLines(last)
    ensures AreLines(ls + last)
  {
    hide IsLine, Terminated;
    forall k | 0 <= k < |ls| ensures WholeLine(ls[k]) { assert ls[k] in ls; }
  }

  lemma Regroup(x: seq<string>, y: seq<string>, z: seq<string>)
    ensures x + (y + z) == x + y + z
  {}

  /** Text after a line boundary splits on its own. */
  lemma {:induction false} LinesConcat(a: string, b: string)
    requires a == "" || Terminated(a)
    ensures Lines(a + b) == Lines(a) + Lines(b)
    decreases |a|
  {
    if a == "" {
      assert a + b == b && Lines(a) + Lines(b) == Lines(b);
    } else {
      ConcatStep(a, b);
    }
  }

  lemma {:induction false} ConcatStep(a: string, b: string)
    requires Terminated(a)
    ensures Lines(a + b) == Lines(a) + Lines(b)
    decreases |a|, 0
  {
    hide Lines, LineLength;
    var n := LineLength(a);
    var h, rest := a[..n], a[n..];
    assert a == h + rest && a + b == h + (rest + b);
    assert IsLine(h) && Terminated(h);
    if rest != "" { assert rest[|rest| - 1] == a[|a| - 1]; }
    LinesStep(h, rest);
    LinesStep(h, rest + b);
    LinesConcat(rest, b);
    Regroup([h], Lines(rest), Lines(b));
  }

  lemma {:induction false} JoinAppend(a: seq<string>, b: seq<string>)
    ensures Join(a + b) == Join(a) + Join(b)
  {
    if a == [] {
      assert a + b == b;
    } else {
      assert (a + b)[1..] == a[1..] + b;
      JoinAppend(a[1..], b);
    }
  }

  predicate OccursAt(s: string, sub: string, i: nat) {
    i + |sub| <= |s| && s[i..i + |sub|] == sub
  }

  /** `sub in s`. */
  predicate Contains(s: string, sub: string) {
    exists i :: 0 <= i <= |s| && OccursAt(s, sub, i)
  }

  lemma LineContains(ls: seq<string>, k: nat, sub: string)
    requires k < |ls| && sub <= ls[k]
    ensures Contains(Join(ls), sub)
  {
    hide Join;
    var a, l, b := ls[..k], ls[k], ls[k + 1..];
    assert ls == a + ([l] + b);
    JoinAppend(a, [l] + b);
    JoinCons(l, b);
    var s, i := Join(ls), |Join(a)|;
    assert s == Join(a) + (l + Join(b));
    assert OccursAt(s, sub, i);
  }

  lemma JoinGlued(p: seq<string>, u: string, v: string, q: seq<string>)
    ensures Join(p + ([u, v] + q)) == Join(p + ([u + v] + q))
  {
    hide Join;
    JoinAppend(p, [u, v] + q);
    JoinAppend(p, [u + v] + q);
    assert [u, v] + q == [u] + ([v] + q);
    JoinCons(u, [v] + q);
    JoinCons(v, q);
    JoinCons(u + v, q);
    assert u + (v + Join(q)) == u + v + Join(q);
  }

  // ------------------------------------------------- separators and fields

  function JoinWith(ts: seq<string>, sep: char): string {
    if ts == [] then "" else if |ts| == 1 then ts[0] else ts[0] + [sep] + JoinWith(ts[1..], sep)
  }

  /** Index of the first `c` in `s`, or `|s|`. */
  function IndexOf(s: string, c: char): (n: nat)
    ensures n <= |s| && (forall i :: 0 <= i < n ==> s[i] != c) && (n < |s| ==> s[n] == c)
  {
    if s == "" || s[0] == c then 0 else 1 + IndexOf(s[1..], c)
  }

  /** `s.split(sep)` for a one-character separator. */
  function SplitOn(s: string, sep: char): (ts: seq<string>)
    ensures ts != []
    decreases |s|
  {
    var n := IndexOf(s, sep);
    if n == |s| then [s] else [s[..n]] + SplitOn(s[n + 1..], sep)
  }

  predicate Lacks(s: string, c: char) {
    forall i :: 0 <= i < |s| ==> s[i] != c
  }

  lemma {:induction false} IndexAfter(t: string, sep: char, rest: string)
    requires Lacks(t, sep)
    ensures IndexOf(t + [sep] + rest, sep) == |t|
  {
    if t != "" {
      assert (t + [sep] + rest)[1..] == t[1..] + [sep] + rest;
      IndexAfter(t[1..], sep, rest);
    }
  }

  lemma {:induction false} IndexAbsent(t: string, sep: char)
    requires Lacks(t, sep)
    ensures IndexOf(t, sep) == |t|
  {
    if t != "" { IndexAbsent(t[1..], sep); }
  }

  lemma SplitAfter(t: string, sep: char, rest: string)
    requires Lacks(t, sep)
    ensures SplitOn(t + [sep] + rest, sep) == [t] + SplitOn(rest, sep)
  {
    var s := t + [sep] + rest;
    IndexAfter(t, sep, rest);
    assert s[..|t|] == t && s[|t| + 1..] == rest;
  }

  lemma {:induction false} SplitJoin(ts: seq<string>, sep: char)
    requires ts != [] && forall i :: 0 <= i < |ts| ==> Lacks(ts[i], sep)
    ensures SplitOn(JoinWith(ts, sep), sep) == ts
  {
    hide SplitOn, Lacks;
    var t := ts[0];
    if |ts| == 1 {
      SplitOne(t, sep);
      assert ts == [t];
    } else {
      SplitAfter(t, sep, JoinWith(ts[1..], sep));
      SplitJoin(ts[1..], sep);
      assert ts == [t] + ts[1..];
    }
  }

  lemma SplitOne(t: string, sep: char)
    requires Lacks(t, sep)
    ensures SplitOn(t, sep) == [t]
  {
    IndexAbsent(t, sep);
  }

  /** Splitting loses only the separators. */
  lemma {:induction false} JoinSplit(s: string, sep: char)
    ensures JoinWith(SplitOn(s, sep), sep) == s
    decreases |s|
  {
    hide JoinWith;
    var n := IndexOf(s, sep);
    if n < |s| {
      JoinSplit(s[n + 1..], sep);
      JoinMore(s[..n], SplitOn(s[n + 1..], sep), sep);
      assert s == s[..n] + [sep] + s[n + 1..];
    } else {
      JoinOne(s, sep);
    }
  }

  lemma JoinOne(t: string, sep: char)
    ensures JoinWith([t], sep) == t
  {}

  lemma JoinMore(t: string, ts: seq<string>, sep: char)
    requires ts != []
    ensures JoinWith([t] + ts, sep) == t + [sep] + JoinWith(ts, sep)
  {
    assert ([t] + ts)[1..] == ts;
  }

  predicate IsSpace(c: char) {
    c == ' ' || '\t' <= c <= '\r' || '\U{1c}' <= c <= '\U{1f}'
  }

  predicate Solid(t: string) {
    t != "" && forall i :: 0 <= i < |t| ==> !IsSpace(t[i])
  }

  /** Number of leading characters that are not white space. */
  function SolidPrefix(s: string): (n: nat)
    ensures n <= |s| && (forall i :: 0 <= i < n ==> !IsSpace(s[i])) && (n < |s| ==> IsSpace(s[n]))
  {
    if s == "" || IsSpace(s[0]) then 0 else 1 + SolidPrefix(s[1..])
  }

  /** `s.split()`: the maximal runs without white space. */
  function Words(s: string): seq<string>
    decreases |s|
  {
    if s == "" then []
    else if IsSpace(s[0]) then Words(s[1..])
    else [s[..SolidPrefix(s)]] + Words(s[SolidPrefix(s)..])
  }

  lemma {:induction false} SolidThenSpace(t: string, rest: string)
    requires forall i :: 0 <= i < |t| ==> !IsSpace(t[i])
    requires rest != "" && IsSpace(rest[0])
    ensures SolidPrefix(t + rest) == |t|
  {
    if t == "" {
      assert t + rest == rest;
    } else {
      assert (t + rest)[1..] == t[1..] + rest;
      SolidThenSpace(t[1..], rest);
    }
  }

  lemma WordsStep(t: string, rest: string)
    requires Solid(t) && rest != "" && IsSpace(rest[0])
    ensures Words(t + rest) == [t] + Words(rest[1..])
  {
    var s := t + rest;
    SolidThenSpace(t, rest);
    assert s[..|t|] == t && s[|t|..] == rest;
  }

  lemma WordsLast(t: string)
    requires Solid(t)
    ensures Words(t + "\n") == [t]
  {
    hide Solid, Words;
    WordsStep(t, "\n");
    assert "\n"[1..] == "";
    NoWords();
  }

  lemma WordsMore(t: string, more: string)
    requires Solid(t)
    ensures Words(t + [' '] + more) == [t] + Words(more)
  {
    hide Solid, Words;
    var rest := [' '] + more;
    WordsStep(t, rest);
    assert t + [' '] + more == t + rest && rest[1..] == more;
  }

  lemma NoMoreWords()
    ensures Words(JoinWith([], ' ') + "\n") == []
  {
    assert JoinWith([], ' ') + "\n" == "\n" && "\n"[1..] == "";
  }

  lemma {:induction false} WordsOfJoin(ts: seq<string>)
    requires forall i :: 0 <= i < |ts| ==> Solid(ts[i])
    ensures Words(JoinWith(ts, ' ') + "\n") == ts
  {
    hide Words, Solid, JoinWith;
    if ts == [] {
      NoMoreWords();
    } else {
      var t, rest := ts[0], ts[1..];
      assert ts == [t] + rest;
      if rest == [] {
        assert ts == [t];
        JoinOne(t, ' ');
        WordsLast(t);
      } else {
        JoinMore(t, rest, ' ');
        WordsOfJoin(rest);
        WordsMore(t, JoinWith(rest, ' ') + "\n");
        assert JoinWith(ts, ' ') + "\n" == t + [' '] + (JoinWith(rest, ' ') + "\n");
      }
    }
  }

  lemma NoWords()
    ensures Words("") == []
  {}

  // ------------------------------------------------------ decimal numerals

  predicate IsDigit(c: char) {
    '0' <= c <= '9'
  }

  /** How many digits a string starts with. */
  function DigitRun(s: string): (n: nat)
    ensures n <= |s| && (forall i :: 0 <= i < n ==> IsDigit(s[i])) && (n < |s| ==> !IsDigit(s[n]))
  {
    if s == "" || !IsDigit(s[0]) then 0 else 1 + DigitRun(s[1..])
  }

  /** A non-empty run of digits, as `\d+` matches and `isdigit` accepts. */
  predicate IsNumeral(s: string) {
    s != "" && forall i :: 0 <= i < |s| ==> IsDigit(s[i])
  }

  /** `int(s)` of a numeral. */
  function Value(s: string): nat
    requires forall i :: 0 <= i < |s| ==> IsDigit(s[i])
  {
    if s == "" then 0 else assert IsDigit(s[|s| - 1]); 10 * Value(s[..|s| - 1]) + (s[|s| - 1] - '0') as nat
  }

  /** `str(n)`. */
  function Decimal(n: nat): (s: string)
    ensures IsNumeral(s)
    ensures |s| > 1 ==> s[0] != '0'
  {
    var d := ['0' + (n % 10) as char];
    if n < 10 then d else Decimal(n / 10) + d
  }

  predicate LeadingZero(s: string) {
    |s| > 1 && s[0] == '0'
  }

  lemma {:induction false} ValueOfDecimal(n: nat)
    ensures Value(Decimal(n)) == n
  {
    var s := Decimal(n);
    if n >= 10 {
      ValueOfDecimal(n / 10);
      assert s[..|s| - 1] == Decimal(n / 10);
    } else {
      assert s[..0] == "";
    }
  }

  lemma {:induction false} DecimalOfValue(s: string)
    requires IsNumeral(s) && !LeadingZero(s)
    ensures Decimal(Value(s)) == s
    ensures |s| > 1 ==> Value(s) >= 10
  {
    var init, c := s[..|s| - 1], s[|s| - 1];
    var d := (c - '0') as nat;
    assert IsDigit(c) && 0 <= d < 10;
    assert '0' + d as char == c;
    assert s == init + [c];
    if init == "" {
      assert Value(init) == 0;
    } else {
      assert init[0] == s[0];
      assert Value(init) >= 1 by {
        if |init| == 1 { assert init[..0] == ""; assert IsDigit(init[0]); }
        else { DecimalOfValue(init); }
      }
      DecimalOfValue(init);
      assert Value(s) / 10 == Value(init) && Value(s) % 10 == d;
    }
  }
}
