/** Exactly when the saved tail keeps the critical records, for every log whose padded proof fits. */
module TailLaws {
  import opened Text
  import opened CaptureTail

  // ---------------------------------------------------------------- the unfinished line

  /** Where the last line without an LF starts. */
  function Break(s: string): (n: nat)
    ensures n <= |s| && (n == 0 || s[n - 1] == '\n') && forall i :: n <= i < |s| ==> s[i] != '\n'
  {
    if s == "" || s[|s| - 1] == '\n' then |s| else Break(s[..|s| - 1])
  }

  function Finished(s: string): string { s[..Break(s)] }

  function Unfinished(s: string): string { s[Break(s)..] }

  lemma Pieces(s: string)
    ensures s == Finished(s) + Unfinished(s) && Lacks(Unfinished(s), '\n')
    ensures Finished(s) == "" || Terminated(Finished(s))
    ensures s == "" || Terminated(s) <==> Unfinished(s) == ""
  {
    hide Break;
  }

  lemma EmptyInert()
    ensures RecordOf("") == multiset{}
  {
    XsNotCritical(0);
    assert Xs(0) == "";
  }

  lemma LineRecords(l: string)
    requires Lacks(l, '\n')
    ensures CriticalRecords(l + "\n") == RecordOf(l)
  {
    hide Critical;
    var line := l + "\n";
    OneLine(line);
    var none: seq<string> := [];
    assert [line][..0] == none && CriticalLines(none) == multiset{} && Chomp(line) == l;
    assert CriticalLines([line]) == RecordOf(l);
  }

  lemma UnfinishedRecords(l: string)
    requires Lacks(l, '\n')
    ensures CriticalRecords(l) == RecordOf(l)
  {
    hide Critical;
    var none: seq<string> := [];
    if l == "" {
      EmptyInert();
    } else {
      LineLengthUnique(l, |l|);
      assert l[..|l|] == l && l[|l|..] == "" && Lines(l) == [l];
      assert [l][..0] == none && CriticalLines(none) == multiset{} && Chomp(l) == l;
      assert CriticalLines([l]) == RecordOf(l);
    }
  }

  lemma TextRecords(s: string)
    ensures CriticalRecords(s) == CriticalRecords(Finished(s)) + RecordOf(Unfinished(s))
  {
    hide CriticalRecords, RecordOf, Finished, Unfinished, Terminated, Lacks;
    Pieces(s);
    UnfinishedRecords(Unfinished(s));
    RecordsConcat(Finished(s), Unfinished(s));
  }

  // -------------------------------------------------------------------------- gluing

  /** The line that the padding makes of an unfinished one. */
  function Glued(l: string, n: nat): string { l + PAD_TAG + Xs(n) }

  lemma PaddedRecords(s: string, n: nat)
    ensures CriticalRecords(s + Padding(n)) == CriticalRecords(Finished(s)) + RecordOf(Glued(Unfinished(s), n))
  {
    hide CriticalRecords, RecordOf, Finished, Unfinished, Terminated, Critical, Lacks, Padding, Glued;
    Pieces(s);
    var l := Unfinished(s);
    GluedText(Finished(s), l, n);
    LineRecords(Glued(l, n));
    RecordsConcat(Finished(s), Glued(l, n) + "\n");
  }

  lemma GluedText(head: string, l: string, n: nat)
    requires Lacks(l, '\n')
    ensures Lacks(Glued(l, n), '\n') && head + l + Padding(n) == head + (Glued(l, n) + "\n")
  {
    TagPlain();
    LacksBoth(l, PAD_TAG, '\n');
    LacksBoth(l + PAD_TAG, Xs(n), '\n');
  }

  lemma TailRecords(layout: string, padding: nat)
    requires Proof(layout) != "" && |Proof(layout)| + |Padding(padding)| <= TAIL
    ensures CriticalRecords(Tail(layout, padding)) == CriticalRecords(Proof(layout) + Padding(padding))
  {
    hide Tail, Padding, Rest, CriticalRecords, Proof, Terminated;
    var post, pad := Proof(layout), Padding(padding);
    var n := TAIL - |post| - |pad|;
    TailIsProof(layout, padding);
    RestNotCritical(n);
    assert Rest(n) + post + pad == Rest(n) + (post + pad);
    RecordsConcat(Rest(n), post + pad);
  }

  predicate EndsWith(s: string, t: string) { |t| <= |s| && s[|s| - |t|..] == t }

  const DONE := " completed=yes"
  const NEARLY_DONE := " completed=ye"

  /** A progress line cut just before the letter that the padding happens to supply. */
  predicate Completes(l: string) { "cpu-load:" <= l && EndsWith(l, NEARLY_DONE) }

  lemma GluedAt(l: string, n: nat, i: nat)
    requires i < |Glued(l, n)|
    ensures i < |l| ==> Glued(l, n)[i] == l[i]
    ensures i == |l| ==> Glued(l, n)[i] == 's'
    ensures i == |l| + 1 ==> Glued(l, n)[i] == 'y'
    ensures i >= |l| ==> Glued(l, n)[i] != ' '
  {
    var a, b := "synthetic-receipt-", "width-and-capacity-padding:";
    assert Lacks(a, ' ') && Lacks(b, ' ') && a[0] == 's' && a[1] == 'y';
    assert PAD_TAG == a + b;
    assert Glued(l, n) == l + (PAD_TAG + Xs(n));
    assert i >= |l| ==> Glued(l, n)[i] == (PAD_TAG + Xs(n))[i - |l|];
  }

  lemma GluedLonger(l: string, n: nat)
    ensures |Glued(l, n)| > |l| + 1 && l <= Glued(l, n)
  {
    var a := "synthetic-receipt-";
    assert |PAD_TAG| >= |a| >= 2;
    assert Glued(l, n) == l + (PAD_TAG + Xs(n));
  }

  /** A prefix without an `s` is not completed by the padding. */
  lemma PrefixGlued(x: string, l: string, n: nat)
    requires Lacks(x, 's')
    ensures x <= Glued(l, n) <==> x <= l
  {
    hide Glued;
    GluedLonger(l, n);
    if x <= Glued(l, n) && |l| < |x| { GluedAt(l, n, |l|); }
  }

  lemma BannerGlued(l: string, n: nat)
    ensures BANNER <= Glued(l, n) <==> BANNER <= l
  {
    hide Glued;
    GluedLonger(l, n);
    var b := BANNER;
    assert |b| == 18 && b[13] == 's' && b[14] == 'i' && forall i :: 0 <= i < 18 && i != 13 ==> b[i] != 's';
    if b <= Glued(l, n) && |l| < 18 {
      GluedAt(l, n, |l|);
      GluedAt(l, n, |l| + 1);
    }
  }

  lemma DoneGlued(l: string, n: nat)
    ensures Contains(Glued(l, n), DONE) <==> Contains(l, DONE) || EndsWith(l, NEARLY_DONE)
  {
    hide Glued;
    var g := Glued(l, n);
    GluedLonger(l, n);
    if Contains(l, DONE) {
      var j :| 0 <= j <= |l| && OccursAt(l, DONE, j);
      assert OccursAt(g, DONE, j);
    }
    if EndsWith(l, NEARLY_DONE) { DoneCompleted(l, n); }
    if Contains(g, DONE) {
      var j :| 0 <= j <= |g| && OccursAt(g, DONE, j);
      DoneCrosses(l, n, j);
    }
  }

  lemma DoneCompleted(l: string, n: nat)
    requires EndsWith(l, NEARLY_DONE)
    ensures Contains(Glued(l, n), DONE)
  {
    hide Glued;
    var g, j := Glued(l, n), |l| - |NEARLY_DONE|;
    GluedLonger(l, n);
    GluedAt(l, n, |l|);
    assert NEARLY_DONE + "s" == DONE;
    assert g[j..|l|] == l[j..] && g[j..|l| + 1] == g[j..|l|] + "s";
    assert OccursAt(g, DONE, j);
  }

  lemma DoneCrosses(l: string, n: nat, j: nat)
    requires OccursAt(Glued(l, n), DONE, j)
    ensures OccursAt(l, DONE, j) || EndsWith(l, NEARLY_DONE)
  {
    hide Glued;
    var g, d := Glued(l, n), DONE;
    GluedLonger(l, n);
    assert |d| == 14 && d[0] == ' ' && d[..13] == NEARLY_DONE && forall i :: 0 <= i < 13 ==> d[i] != 's';
    assert forall i :: 0 <= i < 14 ==> g[j + i] == d[i];
    GluedAt(l, n, j);
    if j + 14 <= |l| {
      assert l[j..j + 14] == g[j..j + 14];
    } else {
      GluedAt(l, n, |l|);
      assert g[j + (|l| - j)] == d[|l| - j];
      assert l[j..] == d[..13];
    }
  }

  lemma AlwaysLacksS(i: nat)
    requires i < |ALWAYS|
    ensures Lacks(ALWAYS[i], 's')
  {
    assert Lacks("cpu-load-capture:", 's') && Lacks("cpu-load-power:", 's') && Lacks("cpu-load-idle:", 's');
    assert Lacks("cpu-capture-", 's');
    assert Lacks("cpu-p2:", 's') && Lacks("cpu-i2:", 's') && Lacks("cpu-e2:", 's') && Lacks("cpu-idle-", 's');
    assert Lacks("cpu-mwait", 's');
    assert Lacks("ap-owner:", 's') && Lacks("ap-owner-cpu:", 's') && Lacks("ap-c3:", 's') && Lacks("ap-c3-peer:", 's');
    assert Lacks("ap-c3-round:", 's') && Lacks("ap-package", 's') && Lacks("ap-platform", 's');
  }

  lemma StartsGlued(l: string, n: nat)
    ensures StartsAny(Glued(l, n), ALWAYS) <==> StartsAny(l, ALWAYS)
  {
    hide Glued, Lacks;
    forall i | 0 <= i < |ALWAYS| ensures ALWAYS[i] <= Glued(l, n) <==> ALWAYS[i] <= l {
      AlwaysLacksS(i);
      PrefixGlued(ALWAYS[i], l, n);
    }
  }

  /** Gluing makes a critical line of a critical one, and of a progress line that lacks only its last letter. */
  lemma GluedCritical(l: string, n: nat)
    ensures Critical(Glued(l, n)) <==> Critical(l) || Completes(l)
  {
    hide Glued, Lacks, Contains, StartsAny, EndsWith;
    PrefixesLackS();
    PrefixGlued("cpu-load:", l, n);
    PrefixGlued("cpu-load: completed=", l, n);
    PrefixGlued("laptop-capture: completed=", l, n);
    BannerGlued(l, n);
    DoneGlued(l, n);
    StartsGlued(l, n);
  }

  lemma PrefixesLackS()
    ensures Lacks("cpu-load:", 's') && Lacks("cpu-load: completed=", 's') && Lacks("laptop-capture: completed=", 's')
  {}

  // --------------------------------------------------------------- a banner at a line start

  /** The record that gluing makes where there was none. */
  function Made(l: string, n: nat): multiset<string> { if Completes(l) then multiset{Glued(l, n)} else multiset{} }

  predicate LineStart(s: string) { s == "" || Terminated(s) }

  lemma LineStartExact(layout: string, padding: nat)
    requires Proof(layout) != "" && |Proof(layout)| + |Padding(padding)| <= TAIL && LineStart(Preamble(layout))
    ensures CriticalRecords(Tail(layout, padding)) == CriticalRecords(layout) <==>
      !Critical(Unfinished(Proof(layout)))
        && CriticalRecords(Preamble(layout)) == Made(Unfinished(Proof(layout)), padding)
  {
    hide Tail, Padding, CriticalRecords, Proof, Preamble, Finished, Unfinished, Critical, Completes, Glued, Terminated;
    var pre, post := Preamble(layout), Proof(layout);
    var l := Unfinished(post);
    Parts(layout);
    RecordsConcat(pre, post);
    TailRecords(layout, padding);
    PaddedRecords(post, padding);
    TextRecords(post);
    GluedCritical(l, padding);
    GluedLonger(l, padding);
    Balance(CriticalRecords(Finished(post)), CriticalRecords(pre), RecordOf(l), RecordOf(Glued(l, padding)));
    if Critical(l) { assert RecordOf(Glued(l, padding))[l] == 0 && RecordOf(l)[l] == 1; }
  }

  lemma Balance(common: multiset<string>, pre: multiset<string>, b: multiset<string>, g: multiset<string>)
    ensures common + g == pre + (common + b) <==> g == pre + b
  {
    Shuffle(pre, common, b);
    Cancel(g, pre + b, common);
  }

  // ----------------------------------------------------------------- a banner inside a line

  predicate Banners(m: multiset<string>) { exists x :: x in m && BANNER <= x }

  lemma {:induction false} RecordIsLine(ls: seq<string>, x: string)
    requires x in CriticalLines(ls)
    ensures exists k :: 0 <= k < |ls| && Chomp(ls[k]) == x
  {
    hide Critical, Chomp;
    if ls != [] {
      var init, last := ls[..|ls| - 1], ls[|ls| - 1];
      if x in CriticalLines(init) {
        RecordIsLine(init, x);
        var k :| 0 <= k < |init| && Chomp(init[k]) == x;
        assert ls[k] == init[k];
      } else {
        assert Chomp(ls[|ls| - 1]) == x;
      }
    }
  }

  lemma BannerInText(s: string)
    requires Banners(CriticalRecords(s))
    ensures Contains(s, BANNER)
  {
    hide CriticalLines, Lines, Contains;
    var x :| x in CriticalRecords(s) && BANNER <= x;
    RecordIsLine(Lines(s), x);
    var k :| 0 <= k < |Lines(s)| && Chomp(Lines(s)[k]) == x;
    JoinLines(s);
    LineContains(Lines(s), k, BANNER);
  }

  lemma OccursFurther(a: string, b: string, sub: string, j: nat)
    requires OccursAt(a, sub, j)
    ensures OccursAt(a + b, sub, j)
  {
    assert (a + b)[j..j + |sub|] == a[j..j + |sub|];
  }

  lemma OccursAfter(a: string, b: string, c: string, sub: string)
    requires sub <= b
    ensures OccursAt(a + b + c, sub, |a|)
  {
    assert (a + b + c)[|a|..|a| + |sub|] == b[..|sub|];
  }

  /** Nothing before the first banner, with the rest of its line added or not, starts with one. */
  lemma NoneBefore(layout: string, p: string, more: string)
    requires Proof(layout) != "" && p == Unfinished(Preamble(layout)) != "" && more <= Proof(layout)
    ensures !Banners(CriticalRecords(Finished(Preamble(layout))) + RecordOf(p + more))
  {
    hide CriticalRecords, Critical, Preamble, Proof, Finished, Unfinished, Contains;
    var head := Finished(Preamble(layout));
    Pieces(Preamble(layout));
    Parts(layout);
    assert Proof(layout) == more + Proof(layout)[|more|..];
    assert layout == head + (p + more) + Proof(layout)[|more|..];
    NoBannerIn(layout, head, p + more, Proof(layout)[|more|..]);
    if Banners(CriticalRecords(head)) { BannerInText(head); }
  }

  lemma NoBannerIn(layout: string, a: string, b: string, c: string)
    requires layout == a + b + c && |a| < |Preamble(layout)|
    ensures !Contains(a, BANNER) && !(BANNER <= b)
  {
    hide OccursAt;
    if Contains(a, BANNER) {
      var j :| 0 <= j <= |a| && OccursAt(a, BANNER, j);
      assert layout == a + (b + c);
      OccursFurther(a, b + c, BANNER, j);
    }
    if BANNER <= b { OccursAfter(a, b, c, BANNER); }
  }

  lemma ProofStarts(layout: string)
    requires Proof(layout) != ""
    ensures BANNER <= Proof(layout)
  {
    var n := FirstFrom(layout, BANNER, 0);
    assert layout[n..][..|BANNER|] == layout[n..n + |BANNER|];
  }

  /** The text of the line that the first banner starts. */
  function FirstText(post: string): string
    requires post != ""
  {
    Chomp(post[..LineLength(post)])
  }

  lemma FirstPiece(post: string)
    requires BANNER <= post && Finished(post) != ""
    ensures var f := FirstText(post); f + "\n" <= post && Lacks(f, '\n') && BANNER <= f
  {
    hide Break, LineLength;
    var n := LineLength(post);
    var b := Break(post);
    assert post[b - 1] == '\n' && n <= b;
    assert post[n - 1] == '\n';
    assert Lacks(BANNER, '\n');
    assert n > |BANNER|;
    assert post[..n - 1] + "\n" == post[..n];
  }

  lemma StartsCritical(l: string)
    requires BANNER <= l
    ensures Critical(l)
  {
    assert "cpu-load:" <= BANNER;
  }

  /** Without a finished line the only record of the tail is the glued banner line. */
  lemma OneLineDiffers(layout: string, padding: nat)
    requires Proof(layout) != "" && |Proof(layout)| + |Padding(padding)| <= TAIL && !LineStart(Preamble(layout))
    requires Finished(Proof(layout)) == ""
    ensures CriticalRecords(Tail(layout, padding)) != CriticalRecords(layout)
  {
    hide Tail, Padding, CriticalRecords, Proof, Preamble, Finished, Unfinished, Critical, Glued, Terminated, Lacks;
    var pre, post := Preamble(layout), Proof(layout);
    var p := Unfinished(pre);
    Pieces(pre);
    Pieces(post);
    Parts(layout);
    TailRecords(layout, padding);
    PaddedRecords(post, padding);
    assert CriticalRecords("") == multiset{} by { NoRecords(); }
    ProofStarts(layout);
    BannerGlued(post, padding);
    StartsCritical(Glued(post, padding));
    assert Unfinished(post) == post;
    MidLine(layout, p, post, "");
    NoneBefore(layout, p, post);
    assert Glued(post, padding) in CriticalRecords(Tail(layout, padding));
  }

  lemma NoRecords()
    ensures CriticalRecords("") == multiset{}
  {}

  lemma LacksBoth(a: string, b: string, c: char)
    requires Lacks(a, c) && Lacks(b, c)
    ensures Lacks(a + b, c)
  {}

  /** The records of a log whose banner does not start a line: `f` is the rest of that line. */
  lemma MidLine(layout: string, p: string, f: string, rest: string)
    requires p == Unfinished(Preamble(layout)) && Lacks(f, '\n') && Lacks(p, '\n')
    requires Proof(layout) == f + rest && (rest == "" || rest[0] == '\n')
    ensures CriticalRecords(layout) ==
      CriticalRecords(Finished(Preamble(layout))) + RecordOf(p + f)
        + (if rest == "" then multiset{} else CriticalRecords(rest[1..]))
  {
    hide CriticalRecords, Critical, Proof, Preamble, Finished, Unfinished, Terminated, Lacks;
    var pre := Preamble(layout);
    var head := Finished(pre);
    Pieces(pre);
    Parts(layout);
    LacksBoth(p, f, '\n');
    if rest == "" {
      assert layout == head + (p + f);
      UnfinishedRecords(p + f);
      RecordsConcat(head, p + f);
    } else {
      var line := p + f + "\n";
      assert rest == "\n" + rest[1..];
      assert layout == head + (line + rest[1..]);
      LineRecords(p + f);
      assert Terminated(line) by { Ends(p + f); }
      RecordsConcat(line, rest[1..]);
      RecordsConcat(head, line + rest[1..]);
      assert CriticalRecords(head) + (RecordOf(p + f) + CriticalRecords(rest[1..])) ==
        CriticalRecords(head) + RecordOf(p + f) + CriticalRecords(rest[1..]);
    }
  }

  lemma Ends(l: string)
    ensures Terminated(l + "\n")
  {}

  lemma AfterFirst(post: string, f: string)
    requires f + "\n" <= post
    ensures post == f + post[|f|..] && post[|f|..][1..] == post[|f| + 1..] && post[|f|] == '\n' && f <= post
    ensures post == f + "\n" + post[|f| + 1..]
  {
    assert (f + "\n")[|f|] == '\n';
  }

  lemma FirstThenPadded(post: string, f: string, padding: nat)
    requires f + "\n" <= post && Lacks(f, '\n')
    ensures var after := post[|f| + 1..];
      CriticalRecords(post + Padding(padding)) ==
        RecordOf(f) + (CriticalRecords(Finished(after)) + RecordOf(Glued(Unfinished(after), padding)))
  {
    hide Padding, CriticalRecords, Finished, Unfinished, Critical, Glued, Terminated, Lacks;
    var after := post[|f| + 1..];
    AfterFirst(post, f);
    assert post + Padding(padding) == (f + "\n") + (after + Padding(padding));
    LineRecords(f);
    Ends(f);
    RecordsConcat(f + "\n", after + Padding(padding));
    PaddedRecords(after, padding);
  }

  /** The tail of such a log has one banner record more. */
  lemma LinesDiffer(layout: string, padding: nat)
    requires Proof(layout) != "" && |Proof(layout)| + |Padding(padding)| <= TAIL && !LineStart(Preamble(layout))
    requires Finished(Proof(layout)) != ""
    ensures CriticalRecords(Tail(layout, padding)) != CriticalRecords(layout)
  {
    hide Tail, Padding, CriticalRecords, Proof, Preamble, Finished, Unfinished, Critical, Glued, Terminated, Lacks,
      FirstText;
    var pre, post := Preamble(layout), Proof(layout);
    var p, f := Unfinished(pre), FirstText(post);
    Pieces(pre);
    ProofStarts(layout);
    FirstPiece(post);
    var rest, after := post[|f|..], post[|f| + 1..];
    AfterFirst(post, f);
    MidLine(layout, p, f, rest);
    NoneBefore(layout, p, f);
    TextRecords(after);
    TailRecords(layout, padding);
    FirstThenPadded(post, f, padding);
    StartsCritical(f);
    var l := Unfinished(after);
    if BANNER <= l {
      StartsCritical(l);
      BannerGlued(l, padding);
      StartsCritical(Glued(l, padding));
      GluedLonger(l, padding);
    }
    var none := CriticalRecords(Finished(pre)) + RecordOf(p + f);
    MoreBanners(none, CriticalRecords(Finished(after)), f, l, Glued(l, padding));
  }

  lemma MoreBanners(none: multiset<string>, common: multiset<string>, f: string, l: string, g: string)
    requires !Banners(none) && BANNER <= f && (BANNER <= l ==> BANNER <= g && l != g && Critical(l) && Critical(g))
    ensures multiset{f} + (common + RecordOf(g)) != none + (common + RecordOf(l))
  {
    hide Critical;
    var x := if BANNER <= l then g else f;
    assert BANNER <= x && x in multiset{f} + RecordOf(g) && x !in none && x !in RecordOf(l);
    assert x !in none + RecordOf(l);
    Shuffle(multiset{f}, common, RecordOf(g));
    Shuffle(none, common, RecordOf(l));
    Cancel(multiset{f} + RecordOf(g), none + RecordOf(l), common);
  }

  lemma Shuffle(a: multiset<string>, b: multiset<string>, c: multiset<string>)
    ensures a + (b + c) == b + (a + c)
  {}

  lemma Cancel(a: multiset<string>, b: multiset<string>, common: multiset<string>)
    ensures common + a == common + b <==> a == b
  {
    assert common + a - common == a && common + b - common == b;
  }

  // ------------------------------------------------------------------- the exact theorem

  /**
   * When the proof and its padding fit, the tail keeps the critical records if and only if the banner
   * starts a line, the proof does not end in an unfinished critical line, and nothing critical precedes
   * the banner but the very record that gluing makes (none, when the proof ends in an LF).
   */
  lemma TailExact(layout: string, padding: nat)
    requires Proof(layout) != "" && |Proof(layout)| + |Padding(padding)| <= TAIL
    ensures CriticalRecords(Tail(layout, padding)) == CriticalRecords(layout) <==>
      && LineStart(Preamble(layout)) && !Critical(Unfinished(Proof(layout)))
      && CriticalRecords(Preamble(layout)) == Made(Unfinished(Proof(layout)), padding)
  {
    hide Tail, Padding, CriticalRecords, Proof, Preamble, Finished, Unfinished, Critical, Made, LineStart;
    if LineStart(Preamble(layout)) {
      LineStartExact(layout, padding);
    } else if Finished(Proof(layout)) == "" {
      OneLineDiffers(layout, padding);
    } else {
      LinesDiffer(layout, padding);
    }
  }

  lemma PaddingShort()
    ensures |Padding(0)| <= 100
  {
    var a, b := "synthetic-receipt-", "width-and-capacity-padding:";
    assert |PAD_TAG| == |a| + |b| <= 60;
  }

  /** A log that fits but is not kept: without its final LF the banner line is altered by the padding. */
  lemma UnfinishedIsLost()
    ensures var log := BANNER + "1";
      |Proof(log)| + |Padding(0)| <= TAIL && CriticalRecords(Tail(log, 0)) != CriticalRecords(log)
  {
    hide Tail, CriticalRecords, Critical, Made, Preamble, Proof, Padding, Unfinished;
    var log := BANNER + "1";
    assert "" + BANNER + "1" == log;
    BannerFirst("", "1");
    PaddingShort();
    TailExact(log, 0);
    assert Unfinished(log) == log by { NeverFinished(log); }
    StartsCritical(log);
  }

  lemma NeverFinished(log: string)
    requires log == BANNER + "1"
    ensures Unfinished(log) == log
  {
    assert Lacks(BANNER, '\n');
    assert Lacks(log, '\n');
    assert Break(log) == 0 && log[0..] == log;
  }

  /** Another: a banner inside a line starts one in the tail. */
  lemma InsideIsLost()
    ensures var log := "x" + BANNER + "1\n";
      |Proof(log)| + |Padding(0)| <= TAIL && CriticalRecords(Tail(log, 0)) != CriticalRecords(log)
  {
    hide Tail, CriticalRecords, Critical, Made, Preamble, Proof, Padding, Unfinished;
    BannerFirst("x", "1\n");
    PaddingShort();
    TailExact("x" + BANNER + "1\n", 0);
  }

  lemma StartsWith(s: string, sub: string, i: nat)
    requires OccursAt(s, sub, i) && sub != ""
    ensures s[i] == sub[0]
  {
    assert s[i..i + |sub|][0] == s[i];
  }

  lemma BannerFirst(pre: string, post: string)
    requires pre == "" || pre == "x"
    ensures Preamble(pre + BANNER + post) == pre && Proof(pre + BANNER + post) == BANNER + post
  {
    hide OccursAt;
    var s := pre + BANNER + post;
    OccursAfter(pre, BANNER, post, BANNER);
    assert BANNER[0] == 'c';
    if OccursAt(s, BANNER, 0) { StartsWith(s, BANNER, 0); }
    assert FirstFrom(s, BANNER, 0) == |pre|;
    assert s[|pre|..] == BANNER + post;
  }

  /** For a log that ends in an LF and whose banner starts a line: exactly when nothing critical precedes it. */
  lemma TailKeepsRecords(layout: string, padding: nat)
    requires Proof(layout) != "" && |Proof(layout)| + |Padding(padding)| <= TAIL
    requires Terminated(layout) && LineStart(Preamble(layout))
    ensures CriticalRecords(Tail(layout, padding)) == CriticalRecords(layout) <==>
      CriticalRecords(Preamble(layout)) == multiset{}
  {
    hide Tail, Padding, CriticalRecords, Proof, Preamble, Unfinished, Critical, Terminated;
    TailExact(layout, padding);
    Parts(layout);
    Pieces(Proof(layout));
    EmptyInert();
    assert !Completes("");
  }
}
