/** The 64 KiB log tail: which records it must keep, and how much padding models the widest log. */
module CaptureTail {
  import opened Text

  // ----------------------------------------------------------------- critical records

  const BANNER := "cpu-load: version="
  const TAIL: nat := 65536
  const CHATTER: nat := 131072
  const CHATTER_TAG := "synthetic-pre-final-chatter:"
  const PAD_TAG := "synthetic-receipt-" + "width-and-capacity-padding:"

  const ALWAYS: seq<string> := [
    "cpu-load-capture:", "cpu-load-power:", "cpu-load-idle:", "cpu-capture-", "cpu-p2:", "cpu-i2:", "cpu-e2:",
    "cpu-idle-", "cpu-mwait", "ap-owner:", "ap-owner-cpu:", "ap-c3:", "ap-c3-peer:", "ap-c3-round:",
    "ap-package", "ap-platform"]

  predicate StartsAny(line: string, ps: seq<string>) {
    exists i :: 0 <= i < |ps| && ps[i] <= line
  }

  /** A proof line that the saved tail must not lose. */
  predicate Critical(line: string) {
    if "cpu-load:" <= line
    then Contains(line, " completed=yes") || BANNER <= line || "cpu-load: completed=" <= line
    else StartsAny(line, ALWAYS) || "laptop-capture: completed=" <= line
  }

  /** What a line, its LF removed, contributes. */
  function RecordOf(l: string): multiset<string> { if Critical(l) then multiset{l} else multiset{} }

  function CriticalLines(ls: seq<string>): multiset<string> {
    if ls == [] then multiset{} else CriticalLines(ls[..|ls| - 1]) + RecordOf(Chomp(ls[|ls| - 1]))
  }

  /** `critical_records`: the bag of critical lines. */
  function CriticalRecords(text: string): multiset<string> { CriticalLines(Lines(text)) }

  method CollectCritical(text: string) returns (rows: multiset<string>)
    ensures rows == CriticalRecords(text)
  {
    hide Critical;
    rows := multiset{};
    var ls, k := Lines(text), 0;
    while k < |ls|
      invariant k <= |ls| && rows == CriticalLines(ls[..k])
    {
      assert ls[..k + 1][..k] == ls[..k];
      if Critical(Chomp(ls[k])) { rows := rows + multiset{Chomp(ls[k])}; }
      k := k + 1;
    }
    assert ls[..k] == ls;
  }

  lemma {:induction false} CriticalConcat(a: seq<string>, b: seq<string>)
    ensures CriticalLines(a + b) == CriticalLines(a) + CriticalLines(b)
    decreases |b|
  {
    hide RecordOf, Chomp;
    if b == [] {
      assert a + b == a;
    } else {
      CriticalConcat(a, b[..|b| - 1]);
      assert (a + b)[..|a + b| - 1] == a + b[..|b| - 1];
    }
  }

  lemma RecordsConcat(a: string, b: string)
    requires a == "" || Terminated(a)
    ensures CriticalRecords(a + b) == CriticalRecords(a) + CriticalRecords(b)
  {
    LinesConcat(a, b);
    CriticalConcat(Lines(a), Lines(b));
  }

  // -------------------------------------------------------------------------- the tail

  function Xs(n: nat): (s: string)
    ensures |s| == n && forall i :: 0 <= i < n ==> s[i] == 'x'
  {
    seq(n, _ => 'x')
  }

  function Padding(n: nat): string { PAD_TAG + Xs(n) + "\n" }

  function LastBytes(s: string, n: nat): string { if |s| <= n then s else s[|s| - n..] }

  /** Position of the first `sub` from `i` on, or the length. */
  function FirstFrom(s: string, sub: string, i: nat): (n: nat)
    requires i <= |s|
    ensures i <= n <= |s| && (n < |s| ==> OccursAt(s, sub, n)) && forall j :: i <= j < n ==> !OccursAt(s, sub, j)
    decreases |s| - i
  {
    if i == |s| || OccursAt(s, sub, i) then i else FirstFrom(s, sub, i + 1)
  }

  /** Everything before the banner, and everything from it on. */
  function Preamble(layout: string): string { layout[..FirstFrom(layout, BANNER, 0)] }

  function Proof(layout: string): string { layout[FirstFrom(layout, BANNER, 0)..] }

  const FILLER := CHATTER_TAG + Xs(CHATTER) + "\n"

  /** The stressed log: chatter before the first banner (if there is one), padding at the end, cut to the saved tail. */
  function Stressed(layout: string): string {
    if Proof(layout) == "" then layout else Preamble(layout) + FILLER + Proof(layout)
  }

  function Tail(layout: string, padding: nat): string {
    LastBytes(Stressed(layout) + Padding(padding), TAIL)
  }

  /** What the cut leaves of the chatter. */
  function Rest(n: nat): string {
    if n == 0 then "" else Xs(n - 1) + "\n"
  }

  lemma FillerEnds(n: nat)
    requires n <= TAIL
    ensures |FILLER| == |CHATTER_TAG| + CHATTER + 1 && FILLER[|FILLER| - n..] == Rest(n)
  {
    var f, t := FILLER, |CHATTER_TAG|;
    assert |f| == t + CHATTER + 1;
    var s := f[|f| - n..];
    forall i | 0 <= i < n ensures s[i] == Rest(n)[i] {
      assert s[i] == f[|f| - n + i];
      if i < n - 1 { assert f[|f| - n + i] == Xs(CHATTER)[CHATTER + 1 - n + i]; }
    }
  }

  /** If the proof and its padding fit, the cut falls inside the chatter. */
  lemma TailIsProof(layout: string, padding: nat)
    requires Proof(layout) != "" && |Proof(layout)| + |Padding(padding)| <= TAIL
    ensures Tail(layout, padding) ==
      Rest(TAIL - |Proof(layout)| - |Padding(padding)|) + Proof(layout) + Padding(padding)
  {
    hide Proof, Preamble, Padding, Rest;
    var post, pad := Proof(layout), Padding(padding);
    var n := TAIL - |post| - |pad|;
    FillerEnds(n);
    var all := Preamble(layout) + FILLER + post + pad;
    var cut := |all| - TAIL;
    assert all == (Preamble(layout) + FILLER[..|FILLER| - n]) + (FILLER[|FILLER| - n..] + post + pad);
    assert |Preamble(layout) + FILLER[..|FILLER| - n]| == cut;
    assert all[cut..] == FILLER[|FILLER| - n..] + post + pad;
  }

  lemma OneLine(l: string)
    requires IsLine(l) && Terminated(l)
    ensures Lines(l) == [l]
  {
    LineLengthUnique(l, |l|);
    assert l[..|l|] == l && l[|l|..] == "";
  }

  lemma XsNotCritical(n: nat)
    ensures !Critical(Xs(n))
  {
    var l := Xs(n);
    forall i | 0 <= i < |ALWAYS| ensures !(ALWAYS[i] <= l) { assert ALWAYS[i] != "" && ALWAYS[i][0] != 'x'; }
    assert "cpu-load:"[0] == 'c' && "laptop-capture: completed="[0] == 'l';
  }

  lemma OneRecord(l: string)
    requires IsLine(l) && Terminated(l) && !Critical(l[..|l| - 1])
    ensures CriticalRecords(l) == multiset{}
  {
    hide Critical;
    OneLine(l);
    var none: seq<string> := [];
    assert [l][..0] == none && CriticalLines(none) == multiset{};
    assert CriticalLines([l]) == multiset{};
  }

  lemma RestNotCritical(n: nat)
    ensures CriticalRecords(Rest(n)) == multiset{} && (Rest(n) == "" || Terminated(Rest(n)))
  {
    hide Critical;
    var l := Rest(n);
    if n > 0 {
      assert l[..|l| - 1] == Xs(n - 1);
      XsNotCritical(n - 1);
      OneRecord(l);
    }
  }

  lemma TagPlain()
    ensures PAD_TAG != "" && PAD_TAG[0] == 's' && Lacks(PAD_TAG, '\n')
  {
    var a, b := "synthetic-receipt-", "width-and-capacity-padding:";
    assert Lacks(a, '\n') && Lacks(b, '\n') && a[0] == 's';
  }

  lemma Parts(layout: string)
    ensures layout == Preamble(layout) + Proof(layout)
    ensures Terminated(layout) && Proof(layout) != "" ==> Terminated(Proof(layout))
  {
    var post := Proof(layout);
    if post != "" { assert layout[|layout| - 1] == post[|post| - 1]; }
  }
}
