/** What the padded tail budget promises: every log that the padding covers keeps its proof in the saved tail. */
module TailBudget {
  import opened Text
  import opened CaptureTail
  import opened TailLaws
  import opened WidthBudget

  // -------------------------------------------------------------- lines before the banner

  lemma {:induction false} NoCapPrefix(line: string, i: nat)
    requires forall j :: i <= j < |CAPS| ==> !(CAPS[j].0 <= line)
    ensures CapPrefix(line, i).None?
    decreases |CAPS| - i
  {
    if i < |CAPS| { NoCapPrefix(line, i + 1); }
  }

  lemma {:induction false} NoCap(prefix: string, i: nat)
    requires forall j :: i <= j < |CAPS| ==> CAPS[j].0 != prefix
    ensures CapOf(prefix, i).None?
    decreases |CAPS| - i
  {
    if i < |CAPS| { NoCap(prefix, i + 1); }
  }

  const LOAD := "cpu-load:"

  lemma OtherCaps(i: nat)
    requires i < |CAPS|
    ensures var p := CAPS[i].0; |p| > 4 && (p[0] != 'c' || p[4] != 'l' || (|p| > 8 && p[8] == '-'))
  {}

  lemma CapIsNotLoad(i: nat, line: string)
    requires i < |CAPS| && LOAD <= line
    ensures CAPS[i].0 != LOAD && !(CAPS[i].0 <= line)
  {
    OtherCaps(i);
    assert LOAD[0] == 'c' && LOAD[4] == 'l' && LOAD[8] == ':';
  }

  /** The lines of the load summary are a group without a capacity. */
  lemma LoadUncapped(line: string)
    requires LOAD <= line
    ensures GroupOf(line) == LOAD && CapOf(LOAD, 0).None?
  {
    hide CapPrefix, CapOf;
    forall j | 0 <= j < |CAPS| ensures CAPS[j].0 != LOAD && !(CAPS[j].0 <= line) { CapIsNotLoad(j, line); }
    NoCapPrefix(line, 0);
    NoCap(LOAD, 0);
    var t, rest := "cpu-load", line[|LOAD|..];
    assert t + ":" == LOAD && line == t + [':'] + rest;
    assert Lacks(t, ':');
    SplitAfter(t, ':', rest);
  }

  lemma PrefixChomped(p: string, line: string)
    requires p <= line && Lacks(p, '\n')
    ensures p <= Chomp(line)
  {}

  lemma CountedIsAlways(i: nat)
    requires 0 < i < |COUNTED|
    ensures i < |ALWAYS| && COUNTED[i] == ALWAYS[i] && Lacks(COUNTED[i], '\n')
  {
    assert Lacks("cpu-load-power:", '\n') && Lacks("cpu-load-idle:", '\n') && Lacks("cpu-capture-", '\n');
    assert Lacks("cpu-p2:", '\n') && Lacks("cpu-i2:", '\n') && Lacks("cpu-e2:", '\n') && Lacks("cpu-idle-", '\n');
    assert Lacks("cpu-mwait", '\n') && Lacks("ap-owner:", '\n') && Lacks("ap-owner-cpu:", '\n');
    assert Lacks("ap-c3:", '\n') && Lacks("ap-c3-peer:", '\n') && Lacks("ap-c3-round:", '\n');
    assert Lacks("ap-package", '\n') && Lacks("ap-platform", '\n');
  }

  /** A counted line is a line of the load summary or critical. */
  lemma CountedIsCritical(line: string)
    requires Counts(line) && !(LOAD <= line)
    ensures Critical(Chomp(line))
  {
    var i :| 0 <= i < |COUNTED| && COUNTED[i] <= line;
    assert COUNTED[0] == LOAD;
    CountedIsAlways(i);
    PrefixChomped(COUNTED[i], line);
    assert ALWAYS[i] <= Chomp(line);
  }

  lemma {:induction false} CriticalListed(ls: seq<string>, k: nat)
    requires k < |ls| && Critical(Chomp(ls[k]))
    ensures Chomp(ls[k]) in CriticalLines(ls)
  {
    hide Critical, Chomp;
    if k < |ls| - 1 { CriticalListed(ls[..|ls| - 1], k); }
  }

  /** If only load summaries are critical before the banner, only uncapped groups have rows there. */
  lemma OnlyLoadsCounted(ls: seq<string>)
    requires forall x :: x in CriticalLines(ls) ==> LOAD <= x
    ensures Uncapped(ls)
  {
    hide Critical, CriticalLines, Counts, GroupOf, CapOf;
    forall k | 0 <= k < |ls| && Counts(ls[k]) ensures CapOf(GroupOf(ls[k]), 0).None? {
      if !(LOAD <= ls[k]) {
        CountedIsCritical(ls[k]);
        CriticalListed(ls, k);
      }
      LoadUncapped(ls[k]);
    }
  }

  // ------------------------------------------------------------------------ the saved tail

  /** The saved tail ends in any last part that is no longer than the tail. */
  lemma TailHolds(pre: string, post: string, n: nat)
    requires |post| <= n
    ensures exists x :: LastBytes(pre + post, n) == x + post && EndsWith(pre, x)
  {
    var s := pre + post;
    var x := if |s| <= n then pre else pre[|s| - n..];
    assert LastBytes(s, n) == x + post && EndsWith(pre, x);
  }

  lemma EndLineStart(pre: string, x: string)
    requires LineStart(pre) && EndsWith(pre, x)
    ensures LineStart(x)
  {
    if x != "" { assert x[|x| - 1] == pre[|pre| - 1]; }
  }

  /** The padding of a log whose compact rows fit their schemas. */
  function PaddingBytes(layout: string): nat
    requires PaddingOf(layout).Some?
  {
    PaddingNonNegative(layout);
    PaddingOf(layout).value
  }

  /** The proof and the padding of the log fit the saved tail together. */
  predicate Fits(layout: string) {
    PaddingOf(layout).Some? && |Proof(layout)| + |Padding(PaddingBytes(layout))| <= TAIL
  }

  /** No log that the padding covers has a proof longer than the tail. */
  lemma ProofFits(layout: string, other: string)
    requires LineStart(Preamble(layout)) && Uncapped(Lines(Preamble(layout))) && Fits(layout)
    requires Comparable(Lines(Proof(layout)), Lines(Proof(other)))
    ensures |Proof(other)| <= TAIL
  {
    hide PaddingOf, Lines, Comparable, Preamble, Proof, Uncapped;
    Parts(layout);
    PaddingCovers(Preamble(layout), Proof(layout), Proof(other));
  }

  /**
   * A log with no rows of a fixed capacity before its banner, whose proof fits the tail with its padding, vouches for
   * every log whose proof has the same kinds of rows, no wider and no more than fit: the saved tail of that
   * log ends in its whole proof, and when its banner starts a line the tail has all records of the proof.
   */
  lemma BudgetKeepsProof(layout: string, other: string)
    requires LineStart(Preamble(layout)) && Uncapped(Lines(Preamble(layout))) && Fits(layout)
    requires Comparable(Lines(Proof(layout)), Lines(Proof(other)))
    ensures EndsWith(LastBytes(other, TAIL), Proof(other))
    ensures LineStart(Preamble(other)) ==> CriticalRecords(Proof(other)) <= CriticalRecords(LastBytes(other, TAIL))
    ensures LineStart(Preamble(other)) && CriticalRecords(Preamble(other)) == multiset{} ==>
      CriticalRecords(other) <= CriticalRecords(LastBytes(other, TAIL))
  {
    hide PaddingOf, Padding, Lines, Comparable, Preamble, Proof, Uncapped, LineStart, CriticalRecords, LastBytes;
    ProofFits(layout, other);
    var pre, post := Preamble(other), Proof(other);
    Parts(other);
    TailHolds(pre, post, TAIL);
    var x :| LastBytes(pre + post, TAIL) == x + post && EndsWith(pre, x);
    if LineStart(pre) {
      EndLineStart(pre, x);
      StartRecords(x, post);
      StartRecords(pre, post);
    }
  }

  lemma StartRecords(pre: string, post: string)
    requires LineStart(pre)
    ensures CriticalRecords(pre + post) == CriticalRecords(pre) + CriticalRecords(post)
  {
    hide CriticalRecords;
    RecordsConcat(pre, post);
  }

  /** What the verdict says about the lines before the banner. */
  lemma VerdictUncapped(layout: string, padding: nat)
    requires Proof(layout) != "" && |Proof(layout)| + |Padding(padding)| <= TAIL
    requires CriticalRecords(Tail(layout, padding)) == CriticalRecords(layout)
    ensures LineStart(Preamble(layout)) && Uncapped(Lines(Preamble(layout)))
  {
    hide Padding, Lines, Preamble, Proof, Uncapped, LineStart, CriticalLines, Tail, Unfinished, Critical, EndsWith;
    TailExact(layout, padding);
    var l, ls := Unfinished(Proof(layout)), Lines(Preamble(layout));
    forall x | x in CriticalLines(ls) ensures LOAD <= x {
      assert x in Made(l, padding);
      GluedLonger(l, padding);
    }
    OnlyLoadsCounted(ls);
  }

  /** The same for a log that passes the assessment: what it needs of its preamble is part of the verdict. */
  lemma AssessmentVouches(layout: string, other: string)
    requires Proof(layout) != "" && Fits(layout)
    requires CriticalRecords(Tail(layout, PaddingBytes(layout))) == CriticalRecords(layout)
    requires Comparable(Lines(Proof(layout)), Lines(Proof(other)))
    ensures EndsWith(LastBytes(other, TAIL), Proof(other))
    ensures LineStart(Preamble(other)) ==> CriticalRecords(Proof(other)) <= CriticalRecords(LastBytes(other, TAIL))
    ensures LineStart(Preamble(other)) && CriticalRecords(Preamble(other)) == multiset{} ==>
      CriticalRecords(other) <= CriticalRecords(LastBytes(other, TAIL))
  {
    hide PaddingOf, PaddingBytes, Padding, Lines, Comparable, Preamble, Proof, Uncapped, LineStart, CriticalRecords,
      LastBytes, Tail, Unfinished, Critical, Made;
    VerdictUncapped(layout, PaddingBytes(layout));
    BudgetKeepsProof(layout, other);
  }
}
