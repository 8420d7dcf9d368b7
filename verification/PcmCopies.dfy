/** Exact copies of the expected signal, one after the other: accepted precisely when the signal is playable. */
module PcmCopies {
  import opened PcmStream
  import opened PcmDecomposition

  function Copies(e: seq<Frame>, k: nat): seq<Frame> {
    if k == 0 then [] else Copies(e, k - 1) + e
  }

  predicate IsReference(r: Reference) {
    r.first == FirstLoud(r.expected) < |r.expected| && r.last == LastLoud(r.expected)
  }

  /** No internal silence reaches `GAP` frames, and at least `GAP` frames follow the last loud one. */
  predicate Playable(r: Reference) {
    NoLongSilence(r.expected, r.first, r.last) && r.last + GAP < |r.expected|
  }

  lemma {:induction false} CopyBlock(e: seq<Frame>, k: nat, i: nat)
    requires i < k
    ensures |Copies(e, k)| == k * |e| && 0 <= i * |e| && i * |e| + |e| <= k * |e|
    ensures Copies(e, k)[i * |e|..i * |e| + |e|] == e
  {
    CopiesLength(e, k);
    CopiesLength(e, k - 1);
    Multiples(|e|, i, k);
    if i < k - 1 {
      CopyBlock(e, k - 1, i);
      assert Copies(e, k)[i * |e|..i * |e| + |e|] == Copies(e, k - 1)[i * |e|..i * |e| + |e|];
    }
  }

  lemma {:induction false} CopiesLength(e: seq<Frame>, k: nat)
    ensures |Copies(e, k)| == k * |e|
  {
    if k > 0 {
      CopiesLength(e, k - 1);
      assert k * |e| == (k - 1) * |e| + |e|;
    }
  }

  lemma Multiples(n: nat, i: nat, j: nat)
    requires i < j
    ensures 0 <= i * n && i * n + n <= j * n
  {
    var d: nat := j - i - 1;
    assert j == i + 1 + d;
    Spread(n, i, d);
  }

  lemma Spread(n: nat, i: nat, d: nat)
    ensures (i + 1 + d) * n == i * n + n + d * n
  {}

  lemma Quotient(n: nat, p: nat, k: nat) returns (i: nat)
    requires n > 0 && p < k * n
    ensures i < k && 0 <= i * n <= p < i * n + n
  {
    i := p / n;
    assert p == i * n + p % n;
    assert i >= k ==> (i - k) * n >= 0;
    assert i * n == k * n + (i - k) * n;
  }

  /** Each copy, at offset `b`, is one complete stream. */
  lemma CopyIsStream(r: Reference, capture: seq<Frame>, b: nat)
    requires IsReference(r) && Playable(r) && r.tolerance >= 0
    requires b + |r.expected| <= |capture| && capture[b..b + |r.expected|] == r.expected
    ensures Stream(r, capture, Segment(b + r.first, b + r.last))
  {
    hide Loud, Near, NoLongSilence, FirstLoud, LastLoud;
    var e := r.expected;
    forall p | b <= p < b + |e| ensures capture[p] == e[p - b] { assert capture[b..b + |e|][p - b] == capture[p]; }
    forall p | b <= p < b + |e| ensures Near(r, capture[p], p - b) { CopyNear(r, p - b); }
    SilenceShifts(e, capture, b, r.first, r.last);
    assert capture[b + r.first] == e[r.first] && capture[b + r.last] == e[r.last];
    assert r.first <= r.last;
  }

  lemma CopyNear(r: Reference, o: nat)
    requires o < |r.expected| && r.tolerance >= 0
    ensures Near(r, r.expected[o], o)
  {
    SelfNear(r.expected[o]);
  }

  lemma SilenceShifts(e: seq<Frame>, capture: seq<Frame>, b: nat, a: nat, z: nat)
    requires b + |e| <= |capture| && (forall p :: b <= p < b + |e| ==> capture[p] == e[p - b])
    requires z < |e| && NoLongSilence(e, a, z)
    ensures NoLongSilence(capture, b + a, b + z)
  {
    hide Loud;
    forall p: nat | b + a <= p && p + GAP <= b + z ensures !Mute(capture, p) {
      assert !Mute(e, p - b);
      var q: nat :| p - b <= q < p - b + GAP && q < |e| && Loud(e[q]);
      assert capture[b + q] == e[q];
    }
  }

  lemma SelfNear(f: Frame)
    ensures Deviation(f, f) == 0
  {}

  function Segments(r: Reference, k: nat): seq<Segment> {
    var n := |r.expected|;
    seq(k, i requires 0 <= i < k => Multiples(n, i, k); Segment(i * n + r.first, i * n + r.last))
  }

  lemma SegmentsOrdered(r: Reference, k: nat)
    requires r.last + GAP < |r.expected|
    ensures Ordered(Segments(r, k))
  {
    forall i, j | 0 <= i < j < k
      ensures Segments(r, k)[i].end + GAP < Segments(r, k)[j].start
    {
      Multiples(|r.expected|, i, j);
    }
  }

  /** Playable copies decompose into one stream per copy. */
  lemma CopiesDecompose(r: Reference, k: nat)
    requires IsReference(r) && Playable(r) && r.tolerance >= 0 && k > 0
    ensures Decomposes(r, Copies(r.expected, k), Segments(r, k))
  {
    hide Loud, Stream, NoLongSilence, Copies, Segments, IsReference, Playable;
    var capture, segs := Copies(r.expected, k), Segments(r, k);
    SegmentsLength(r, k);
    forall i | 0 <= i < k ensures Stream(r, capture, segs[i]) { CopyStream(r, k, i); }
    assert r.last + GAP < |r.expected| by { PlayableTail(r); }
    SegmentsOrdered(r, k);
    forall p: nat | p < |capture| && Loud(capture[p]) ensures Inside(segs, p) { LoudInside(r, k, p); }
    StreamBounds(r, capture, segs[k - 1]);
  }

  lemma PlayableTail(r: Reference)
    requires Playable(r)
    ensures r.last + GAP < |r.expected|
  {}

  lemma SegmentsLength(r: Reference, k: nat)
    ensures |Segments(r, k)| == k
  {}

  lemma CopyStream(r: Reference, k: nat, i: nat)
    requires IsReference(r) && Playable(r) && r.tolerance >= 0 && i < k
    ensures Stream(r, Copies(r.expected, k), Segments(r, k)[i])
  {
    hide Loud, Stream, NoLongSilence, Copies, Playable;
    CopyBlock(r.expected, k, i);
    CopyIsStream(r, Copies(r.expected, k), i * |r.expected|);
  }

  lemma LoudInside(r: Reference, k: nat, p: nat)
    requires IsReference(r) && p < |Copies(r.expected, k)| && Loud(Copies(r.expected, k)[p])
    ensures Inside(Segments(r, k), p)
  {
    hide Loud, Copies, FirstLoud, LastLoud;
    var n, capture := |r.expected|, Copies(r.expected, k);
    CopiesLength(r.expected, k);
    var i := Quotient(n, p, k);
    var b := i * n;
    CopyBlock(r.expected, k, i);
    assert capture[b..b + n][p - b] == capture[p];
    assert Loud(r.expected[p - b]);
    assert r.first <= p - b <= r.last;
    assert Segments(r, k)[i] == Segment(b + r.first, b + r.last);
  }

  /** A decomposition of copies starts with the whole loud span of the signal. */
  lemma FirstSegment(r: Reference, capture: seq<Frame>, segs: seq<Segment>)
    requires IsReference(r) && r.expected <= capture && segs != [] && Decomposes(r, capture, segs)
    ensures segs[0] == Segment(r.first, r.last) && r.last + GAP < |r.expected|
  {
    hide Loud, Deviation, NoLongSilence, Stream;
    var e, g := r.expected, segs[0];
    assert Stream(r, capture, g);
    assert capture[r.first] == e[r.first];
    assert Inside(segs, r.first);
    var i :| 0 <= i < |segs| && segs[i].start <= r.first <= segs[i].end + GAP;
    StreamBounds(r, capture, g);
    assert i > 0 ==> g.end + GAP < segs[i].start;
    WholeSpan(r, capture, g);
  }

  lemma WholeSpan(r: Reference, capture: seq<Frame>, g: Segment)
    requires IsReference(r) && r.expected <= capture && Stream(r, capture, g) && g.start <= r.first
    ensures g == Segment(r.first, r.last) && r.last + GAP < |r.expected|
  {
    hide Loud, Near, NoLongSilence, FirstLoud, LastLoud;
    var e := r.expected;
    assert capture[g.start] == e[g.start];
    assert g.start == r.first;
    assert Near(r, capture[g.end + GAP], g.end + GAP - g.start + r.first);
    NearInside(r, capture[g.end + GAP], g.end + GAP);
    assert capture[g.end] == e[g.end];
    assert g.end <= r.last;
    assert r.last <= g.end + 2;
    assert capture[r.last] == e[r.last];
  }

  lemma NearInside(r: Reference, f: Frame, index: int)
    requires Near(r, f, index)
    ensures index < |r.expected|
  {}

  lemma SilenceTransfers(e: seq<Frame>, capture: seq<Frame>, a: nat, z: nat)
    requires e <= capture && z < |e| && NoLongSilence(capture, a, z)
    ensures NoLongSilence(e, a, z)
  {
    hide Loud;
    forall p: nat | a <= p && p + GAP <= z ensures !Mute(e, p) {
      assert !Mute(capture, p);
      var q: nat :| p <= q < p + GAP && q < |capture| && Loud(capture[q]);
      assert e[q] == capture[q];
    }
  }

  /** Exact copies are accepted if and only if the signal is playable, and then without any error. */
  lemma CopiesExact(r: Reference, k: nat)
    requires IsReference(r) && k > 0
    ensures var res := Conclude(Run(r, Copies(r.expected, k)), |Copies(r.expected, k)|, k);
      && (res.Accepted? <==> Playable(r) && r.tolerance >= 0)
      && (res.Accepted? ==> res.maximumError == 0 && res.streams == k && res.frames == k * |r.expected|)
  {
    hide Decomposes, Stream, Loud, Deviation, NoLongSilence, Run, Copies, Gauged, Playable;
    var capture := Copies(r.expected, k);
    CopiesLength(r.expected, k);
    AcceptExact(r, capture, k);
    if Conclude(Run(r, capture), |capture|, k).Accepted? {
      var segs :| |segs| == k && Decomposes(r, capture, segs);
      CopiesStart(r.expected, k);
      DecomposedIsPlayable(r, capture, segs);
    }
    if Playable(r) && r.tolerance >= 0 {
      CopiesDecompose(r, k);
      var segs := Segments(r, k);
      assert |segs| == k;
      ReportExact(r, capture, segs);
      NoError(r, k);
      var res := Conclude(Run(r, capture), |capture|, k);
      ZeroError(r, capture, segs, START.(peak := res.peak, maximumError := res.maximumError));
    }
  }

  lemma CopiesStart(e: seq<Frame>, k: nat)
    requires k > 0
    ensures e <= Copies(e, k)
  {
    CopyBlock(e, k, 0);
    assert Copies(e, k)[0..|e|] == e;
  }

  lemma DecomposedIsPlayable(r: Reference, capture: seq<Frame>, segs: seq<Segment>)
    requires IsReference(r) && r.expected <= capture && segs != [] && Decomposes(r, capture, segs)
    ensures Playable(r) && r.tolerance >= 0
  {
    hide Loud, Deviation, NoLongSilence;
    FirstSegment(r, capture, segs);
    assert Stream(r, capture, segs[0]);
    SilenceTransfers(r.expected, capture, r.first, r.last);
    assert Near(r, capture[r.first], r.first);
  }

  lemma ZeroError(r: Reference, capture: seq<Frame>, segs: seq<Segment>, s: Scan)
    requires s.Scan? && Gauged(r, capture, segs, |capture|, s)
    requires forall i, p :: 0 <= i < |segs| && 0 <= p < |capture| && Within(segs[i], p) ==>
      ErrorAt(r, capture, segs[i], p) == 0
    ensures s.maximumError == 0
  {}

  lemma NoError(r: Reference, k: nat)
    requires IsReference(r) && Playable(r) && k > 0
    ensures forall i, p :: 0 <= i < k && 0 <= p < |Copies(r.expected, k)| && Within(Segments(r, k)[i], p) ==>
      ErrorAt(r, Copies(r.expected, k), Segments(r, k)[i], p) == 0
  {
    hide ErrorAt, Within, IsReference, Playable, Copies, Segments;
    SegmentsLength(r, k);
    forall i, p: nat | 0 <= i < k && p < |Copies(r.expected, k)| && Within(Segments(r, k)[i], p)
      ensures ErrorAt(r, Copies(r.expected, k), Segments(r, k)[i], p) == 0
    {
      NoErrorAt(r, k, i, p);
    }
  }

  lemma NoErrorAt(r: Reference, k: nat, i: nat, p: nat)
    requires IsReference(r) && Playable(r) && i < k && p < |Copies(r.expected, k)| && Within(Segments(r, k)[i], p)
    ensures ErrorAt(r, Copies(r.expected, k), Segments(r, k)[i], p) == 0
  {
    hide Deviation, Loud, NoLongSilence, Copies, FirstLoud, LastLoud;
    CopyBlock(r.expected, k, i);
    var b, n, capture := i * |r.expected|, |r.expected|, Copies(r.expected, k);
    assert Segments(r, k)[i] == Segment(b + r.first, b + r.last);
    assert b <= p < b + n;
    assert capture[b..b + n][p - b] == capture[p];
    SelfNear(capture[p]);
  }

  /** The same for the program: copies of the scaled source, read in any blocks. */
  lemma SourceCopiesExact(source: seq<Frame>, k: nat, tolerance: int)
    requires k > 0
    ensures var r := ReferenceFor(source, tolerance);
      var res := Analyze(Copies(Scaled(source), k), source, k, tolerance);
      && (res.Accepted? <==> r.Some? && Playable(r.value) && tolerance >= 0)
      && (res.Accepted? ==> res.maximumError == 0 && res.streams == k && res.frames == k * |source|)
  {
    hide Playable, Run, Copies, Conclude, Loud, Scaled;
    var r := ReferenceFor(source, tolerance);
    if r.Some? {
      CopiesLength(Scaled(source), k);
      CopiesExact(r.value, k);
    }
  }
}
