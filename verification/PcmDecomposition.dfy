/** What acceptance of a capture means, stated without the automaton, and the exact theorems that tie the two. */
module PcmDecomposition {
  import opened Collections
  import opened PcmStream

  // ------------------------------------------------------------- the declarative form

  predicate Silent(capture: seq<Frame>, from: nat, to: nat) {
    forall p :: from <= p < to && p < |capture| ==> !Loud(capture[p])
  }

  /** Between two loud frames no `GAP` frames in a row are quiet. */
  predicate NoLongSilence(capture: seq<Frame>, a: nat, z: nat) {
    forall p :: a <= p && p + GAP <= z ==> !Mute(capture, p)
  }

  predicate Mute(capture: seq<Frame>, p: nat) { Silent(capture, p, p + GAP) }

  predicate Near(r: Reference, f: Frame, index: int) {
    0 <= index < |r.expected| && Deviation(f, r.expected[index]) <= r.tolerance
  }

  /** Frames `[a, e)` follow the expected signal from its first loud frame on. */
  predicate Matches(r: Reference, capture: seq<Frame>, a: nat, e: nat) {
    forall p :: a <= p < e && p < |capture| ==> Near(r, capture[p], p - a + r.first)
  }

  /** The loud part `[a, z]` of a stream. */
  predicate Span(capture: seq<Frame>, a: nat, z: nat) {
    a <= z < |capture| && Loud(capture[a]) && Loud(capture[z]) && NoLongSilence(capture, a, z)
  }

  /** A complete stream: a loud span of the expected length, closed by `GAP` quiet frames, all within tolerance. */
  predicate Stream(r: Reference, capture: seq<Frame>, g: Segment) {
    && Span(capture, g.start, g.end)
    && g.end + GAP < |capture|
    && Silent(capture, g.end + 1, g.end + GAP + 1)
    && Matches(r, capture, g.start, g.end + GAP + 1)
    && Abs((g.end - g.start) - (r.last - r.first)) <= 2
  }

  predicate Ordered(segs: seq<Segment>) {
    forall i, j :: 0 <= i < j < |segs| ==> segs[i].end + GAP < segs[j].start
  }

  predicate Inside(segs: seq<Segment>, p: nat) {
    exists i :: 0 <= i < |segs| && segs[i].start <= p <= segs[i].end + GAP
  }

  /** The capture is exactly these streams, in order and disjoint, with quiet everywhere else and after the last. */
  predicate Decomposes(r: Reference, capture: seq<Frame>, segs: seq<Segment>) {
    && (forall i :: 0 <= i < |segs| ==> Stream(r, capture, segs[i]))
    && Ordered(segs)
    && (forall p :: 0 <= p < |capture| && !Inside(segs, p) ==> !Loud(capture[p]))
    && |capture| - (if segs == [] then 0 else segs[|segs| - 1].end) >= GAP
  }

  // ---------------------------------------------------------------------- soundness

  predicate Covered(s: Scan, p: nat)
    requires s.Scan?
  {
    Inside(s.segments, p) || (s.active.Some? && s.active.value <= p)
  }

  /** What the automaton knows after the first `n` frames. */
  predicate Sound(r: Reference, capture: seq<Frame>, n: nat, s: Scan) {
    && n <= |capture| && s.Scan? && Ordered(s.segments)
    && (forall i :: 0 <= i < |s.segments| ==> Stream(r, capture, s.segments[i]) && s.segments[i].end + GAP < n)
    && (forall p :: 0 <= p < n && !Covered(s, p) ==> !Loud(capture[p]))
    && (s.active.None? ==> s.lastActive == if s.segments == [] then 0 else s.segments[|s.segments| - 1].end)
    && (s.active.Some? ==> Open(r, capture, n, s))
  }

  /** The stream still being read. */
  predicate Open(r: Reference, capture: seq<Frame>, n: nat, s: Scan)
    requires s.Scan? && s.active.Some?
  {
    var a := s.active.value;
    && (forall i :: 0 <= i < |s.segments| ==> s.segments[i].end + GAP < a)
    && Span(capture, a, s.lastActive)
    && s.lastActive < n <= s.lastActive + GAP
    && Silent(capture, s.lastActive + 1, n)
    && Matches(r, capture, a, n)
  }

  lemma SpanGrows(capture: seq<Frame>, a: nat, z: nat, n: nat)
    requires Span(capture, a, z) && z < n <= z + GAP && n < |capture| && Loud(capture[n])
    ensures Span(capture, a, n)
  {
    hide Loud;
    forall p: nat | a <= p && p + GAP <= n ensures !Mute(capture, p) {
      if p + GAP > z { assert p <= z < p + GAP; }
    }
  }

  lemma SoundIdle(r: Reference, capture: seq<Frame>, n: nat, s: Scan, t: Scan)
    requires n < |capture| && Sound(r, capture, n, s) && s.active.None? && !Loud(capture[n])
    requires t.Scan? && t.segments == s.segments && t.active == None && t.lastActive == s.lastActive
    ensures Sound(r, capture, n + 1, t)
  {
    hide Loud, Stream;
  }

  lemma SoundOpening(r: Reference, capture: seq<Frame>, n: nat, s: Scan, t: Scan)
    requires n < |capture| && Sound(r, capture, n, s) && s.active.None? && Loud(capture[n])
    requires Near(r, capture[n], r.first)
    requires t.Scan? && t.segments == s.segments && t.active == Some(n) && t.lastActive == n
    ensures Sound(r, capture, n + 1, t)
  {
    hide Loud, Stream, Near;
    assert NoLongSilence(capture, n, n);
  }

  lemma SoundReading(r: Reference, capture: seq<Frame>, n: nat, s: Scan, t: Scan)
    requires n < |capture| && Sound(r, capture, n, s) && s.active.Some?
    requires Near(r, capture[n], n - s.active.value + r.first)
    requires t.Scan? && t.segments == s.segments && t.active == s.active
    requires t.lastActive == if Loud(capture[n]) then n else s.lastActive
    requires n - t.lastActive < GAP
    ensures Sound(r, capture, n + 1, t)
  {
    hide Loud, Stream, Near, NoLongSilence;
    if Loud(capture[n]) { SpanGrows(capture, s.active.value, s.lastActive, n); }
  }

  lemma SoundClosing(r: Reference, capture: seq<Frame>, n: nat, s: Scan, t: Scan)
    requires n < |capture| && Sound(r, capture, n, s) && s.active.Some?
    requires Near(r, capture[n], n - s.active.value + r.first)
    requires !Loud(capture[n]) && n - s.lastActive >= GAP
    requires Abs((s.lastActive - s.active.value) - (r.last - r.first)) <= 2
    requires t.Scan? && t.segments == s.segments + [Segment(s.active.value, s.lastActive)] && t.active == None
    requires t.lastActive == s.lastActive
    ensures Sound(r, capture, n + 1, t)
  {
    hide Loud, Near, NoLongSilence, Stream;
    var g := Segment(s.active.value, s.lastActive);
    assert n == s.lastActive + GAP;
    ClosedStream(r, capture, n, s);
    assert t.segments[|s.segments|] == g;
    forall p: nat | p <= n && Covered(s, p) ensures Inside(t.segments, p) {
      if Inside(s.segments, p) {
        var i :| 0 <= i < |s.segments| && s.segments[i].start <= p <= s.segments[i].end + GAP;
        assert t.segments[i] == s.segments[i];
      }
    }
  }

  lemma ClosedStream(r: Reference, capture: seq<Frame>, n: nat, s: Scan)
    requires n < |capture| && s.Scan? && s.active.Some? && Open(r, capture, n, s)
    requires Near(r, capture[n], n - s.active.value + r.first)
    requires !Loud(capture[n]) && n == s.lastActive + GAP
    requires Abs((s.lastActive - s.active.value) - (r.last - r.first)) <= 2
    ensures Stream(r, capture, Segment(s.active.value, s.lastActive))
  {
    hide Loud, Near, NoLongSilence;
  }

  lemma SoundStep(r: Reference, capture: seq<Frame>, n: nat, s: Scan)
    requires n < |capture| && Sound(r, capture, n, s) && Step(r, s, n, capture[n]).Scan?
    ensures Sound(r, capture, n + 1, Step(r, s, n, capture[n]))
  {
    hide Loud, Deviation, Sound, Level;
    var f, t := capture[n], Step(r, s, n, capture[n]);
    assert s.Scan? && (s.active.Some? ==> s.active.value <= s.lastActive < n) by { SoundBounds(r, capture, n, s); }
    if s.active.None? {
      if Loud(f) { SoundOpening(r, capture, n, s, t); } else { SoundIdle(r, capture, n, s, t); }
    } else if t.active.Some? {
      SoundReading(r, capture, n, s, t);
    } else {
      SoundClosing(r, capture, n, s, t);
    }
  }

  lemma SoundBounds(r: Reference, capture: seq<Frame>, n: nat, s: Scan)
    requires Sound(r, capture, n, s)
    ensures s.Scan? && (s.active.Some? ==> s.active.value <= s.lastActive < n)
  {}

  lemma {:induction false} RunSound(r: Reference, capture: seq<Frame>, n: nat)
    requires n <= |capture| && Run(r, capture[..n]).Scan?
    ensures Sound(r, capture, n, Run(r, capture[..n]))
  {
    hide Step, Loud, Sound;
    if n == 0 {
      SoundAtStart(r, capture);
    } else {
      RunSnoc(r, capture[..n - 1], capture[n - 1]);
      assert capture[..n] == capture[..n - 1] + [capture[n - 1]];
      if Run(r, capture[..n - 1]).Failed? { FailedStep(r, n - 1, capture[n - 1]); }
      RunSound(r, capture, n - 1);
      SoundStep(r, capture, n - 1, Run(r, capture[..n - 1]));
    }
  }

  lemma FailedStep(r: Reference, n: nat, f: Frame)
    ensures Step(r, Failed, n, f) == Failed
  {}

  lemma SoundAtStart(r: Reference, capture: seq<Frame>)
    ensures Sound(r, capture, 0, START)
  {}

  // ------------------------------------------------------------------- completeness

  /** The automaton has followed the decomposition `segs` through the first `n` frames. */
  predicate Follows(r: Reference, capture: seq<Frame>, segs: seq<Segment>, n: nat, s: Scan) {
    && s.Scan? && |s.segments| <= |segs| && s.segments == segs[..|s.segments|]
    && var c := |s.segments|;
    && (c > 0 ==> segs[c - 1].end + GAP < n)
    && (c < |segs| ==> n <= segs[c].end + GAP)
    && (s.active.Some? <==> c < |segs| && segs[c].start < n)
    && (s.active.None? ==> s.lastActive == if c == 0 then 0 else segs[c - 1].end)
    && (s.active.Some? ==>
          && s.active.value == segs[c].start <= s.lastActive < n <= |capture|
          && Loud(capture[s.lastActive]) && Silent(capture, s.lastActive + 1, n))
  }

  /** Between streams a frame is loud exactly when it starts the next one. */
  lemma NextStarts(r: Reference, capture: seq<Frame>, segs: seq<Segment>, n: nat, c: nat)
    requires Decomposes(r, capture, segs) && n < |capture| && c <= |segs|
    requires c > 0 ==> segs[c - 1].end + GAP < n
    requires c < |segs| ==> n <= segs[c].start
    ensures Loud(capture[n]) <==> c < |segs| && n == segs[c].start
  {
    hide Loud, Stream;
    forall i | 0 <= i < |segs|
      ensures segs[i].start <= segs[i].end < |capture| && Loud(capture[segs[i].start])
    {
      StreamStarts(r, capture, segs[i]);
    }
    if Inside(segs, n) {
      var i :| 0 <= i < |segs| && segs[i].start <= n <= segs[i].end + GAP;
      Located(segs, n, c, i);
    }
  }

  lemma StreamStarts(r: Reference, capture: seq<Frame>, g: Segment)
    requires Stream(r, capture, g)
    ensures g.start <= g.end < |capture| && Loud(capture[g.start])
  {}

  lemma Located(segs: seq<Segment>, n: nat, c: nat, i: nat)
    requires Ordered(segs) && c <= |segs| && i < |segs| && segs[i].start <= n <= segs[i].end + GAP
    requires forall j :: 0 <= j < |segs| ==> segs[j].start <= segs[j].end
    requires c > 0 ==> segs[c - 1].end + GAP < n
    requires c < |segs| ==> n <= segs[c].start
    ensures i == c && n == segs[c].start
  {
    forall j | 0 <= j < c ensures segs[j].end + GAP < n {}
    forall j | c < j < |segs| ensures n < segs[j].start {}
  }

  /** Inside a stream the automaton neither fails nor closes early, and closes exactly `GAP` frames after its end. */
  lemma StaysInside(r: Reference, capture: seq<Frame>, g: Segment, n: nat, z: nat)
    requires Stream(r, capture, g) && g.start <= n <= g.end + GAP
    requires g.start <= z <= n && Loud(capture[z]) && Silent(capture, z + 1, n + 1)
    ensures Near(r, capture[n], n - g.start + r.first)
    ensures n - z >= GAP <==> n == g.end + GAP
    ensures n == g.end + GAP ==> z == g.end
  {
    hide Loud, Near;
    if n > g.end {
      assert z >= g.end;
      assert z == g.end;
    } else {
      assert z + 1 + GAP <= g.end ==> !Mute(capture, z + 1);
    }
  }

  lemma FollowsStep(r: Reference, capture: seq<Frame>, segs: seq<Segment>, n: nat, s: Scan)
    requires Decomposes(r, capture, segs) && n < |capture| && Follows(r, capture, segs, n, s)
    ensures Follows(r, capture, segs, n + 1, Step(r, s, n, capture[n]))
  {
    hide Loud, Deviation, Level, Stream;
    var c, f := |s.segments|, capture[n];
    if s.active.None? {
      NextStarts(r, capture, segs, n, c);
      if Loud(f) {
        assert Stream(r, capture, segs[c]);
        StreamBounds(r, capture, segs[c]);
        StaysInside(r, capture, segs[c], n, n);
      } else if c < |segs| {
        assert Stream(r, capture, segs[c]);
        StreamBounds(r, capture, segs[c]);
      }
    } else {
      var z := if Loud(f) then n else s.lastActive;
      assert Stream(r, capture, segs[c]);
      StaysInside(r, capture, segs[c], n, z);
      StreamBounds(r, capture, segs[c]);
      if c + 1 < |segs| { assert Stream(r, capture, segs[c + 1]); StreamBounds(r, capture, segs[c + 1]); }
      assert segs[..c + 1] == segs[..c] + [segs[c]];
    }
  }

  lemma StreamBounds(r: Reference, capture: seq<Frame>, g: Segment)
    requires Stream(r, capture, g)
    ensures g.start <= g.end && g.end + GAP < |capture| && Abs((g.end - g.start) - (r.last - r.first)) <= 2
  {}

  lemma {:induction false} RunFollows(r: Reference, capture: seq<Frame>, segs: seq<Segment>, n: nat)
    requires Decomposes(r, capture, segs) && n <= |capture|
    ensures Follows(r, capture, segs, n, Run(r, capture[..n]))
  {
    hide Step, Follows, Decomposes;
    if n == 0 {
      FollowsAtStart(r, capture, segs);
    } else {
      RunFollows(r, capture, segs, n - 1);
      RunSnoc(r, capture[..n - 1], capture[n - 1]);
      assert capture[..n] == capture[..n - 1] + [capture[n - 1]];
      FollowsStep(r, capture, segs, n - 1, Run(r, capture[..n - 1]));
    }
  }

  lemma FollowsAtStart(r: Reference, capture: seq<Frame>, segs: seq<Segment>)
    ensures Follows(r, capture, segs, 0, START)
  {}

  // ---------------------------------------------------------------- the exact theorem

  /** Acceptance is decomposability, and the decomposition is the only one. */
  lemma AcceptExact(r: Reference, capture: seq<Frame>, repeats: int)
    ensures Conclude(Run(r, capture), |capture|, repeats).Accepted? <==>
      exists segs :: |segs| == repeats && Decomposes(r, capture, segs)
    ensures forall segs :: Decomposes(r, capture, segs) ==> Run(r, capture).Scan? && Run(r, capture).segments == segs
  {
    hide Loud, Stream, Run;
    var s := Run(r, capture);
    assert capture[..|capture|] == capture;
    if Conclude(s, |capture|, repeats).Accepted? {
      RunSound(r, capture, |capture|);
      assert Decomposes(r, capture, s.segments);
    }
    forall segs | Decomposes(r, capture, segs)
      ensures s.Scan? && s.segments == segs && s.active.None? && |capture| - s.lastActive >= GAP
    {
      RunFollows(r, capture, segs, |capture|);
      if |s.segments| < |segs| { StreamBounds(r, capture, segs[|s.segments|]); }
      assert segs[..|segs|] == segs;
    }
  }

  // ------------------------------------------------------------- the reported maxima

  function ErrorAt(r: Reference, capture: seq<Frame>, g: Segment, p: nat): nat {
    var index := p - g.start + r.first;
    if p < |capture| && 0 <= index < |r.expected| then Deviation(capture[p], r.expected[index]) else 0
  }

  predicate Within(g: Segment, p: nat) { g.start <= p <= g.end + GAP }

  /** `peak` and `maximumError` are the exact maxima over the frames, respectively the stream frames, read so far. */
  predicate Gauged(r: Reference, capture: seq<Frame>, segs: seq<Segment>, n: nat, s: Scan)
    requires n <= |capture| && s.Scan?
  {
    && (forall p :: 0 <= p < n ==> Level(capture[p]) <= s.peak)
    && (s.peak == 0 || exists p :: 0 <= p < n && Level(capture[p]) == s.peak)
    && (forall i, p :: 0 <= i < |segs| && 0 <= p < n && Within(segs[i], p) ==>
         ErrorAt(r, capture, segs[i], p) <= s.maximumError)
    && (s.maximumError == 0
        || exists i, p ::
             0 <= i < |segs| && 0 <= p < n && Within(segs[i], p) && ErrorAt(r, capture, segs[i], p) == s.maximumError)
  }

  /** Frame `n` lies in a stream exactly when the automaton is reading one, and then in the next to close. */
  lemma ReadingWithin(r: Reference, capture: seq<Frame>, segs: seq<Segment>, n: nat, s: Scan, i: nat)
    requires Decomposes(r, capture, segs) && n < |capture| && Follows(r, capture, segs, n, s) && i < |segs|
    ensures Within(segs[i], n) <==> i == |s.segments| && (s.active.Some? || Loud(capture[n]))
  {
    hide Loud, Stream, Silent;
    var c := |s.segments|;
    forall j | 0 <= j < |segs| ensures segs[j].start <= segs[j].end < |capture| { StreamBounds(r, capture, segs[j]); }
    forall j | 0 <= j < c ensures segs[j].end + GAP < n {}
    forall j | c < j < |segs| ensures n < segs[j].start {}
    if s.active.None? { NextStarts(r, capture, segs, n, c); }
  }

  lemma GaugedStep(r: Reference, capture: seq<Frame>, segs: seq<Segment>, n: nat, s: Scan)
    requires Decomposes(r, capture, segs) && n < |capture| && Follows(r, capture, segs, n, s)
    requires Gauged(r, capture, segs, n, s)
    ensures var t := Step(r, s, n, capture[n]); t.Scan? && Gauged(r, capture, segs, n + 1, t)
  {
    hide Loud, Deviation, Level, Decomposes, Within;
    FollowsStep(r, capture, segs, n, s);
    var c, t := |s.segments|, Step(r, s, n, capture[n]);
    forall i | 0 <= i < |segs| ensures Within(segs[i], n) <==> i == c && (s.active.Some? || Loud(capture[n])) {
      ReadingWithin(r, capture, segs, n, s, i);
    }
    if s.active.Some? || Loud(capture[n]) {
      ReadingError(r, capture, segs, n, s);
    }
  }

  lemma ReadingError(r: Reference, capture: seq<Frame>, segs: seq<Segment>, n: nat, s: Scan)
    requires Decomposes(r, capture, segs) && n < |capture| && Follows(r, capture, segs, n, s)
    requires s.active.Some? || Loud(capture[n])
    ensures |s.segments| < |segs|
    ensures Step(r, s, n, capture[n]).Scan?
    ensures Step(r, s, n, capture[n]).maximumError == Max(s.maximumError, ErrorAt(r, capture, segs[|s.segments|], n))
  {
    hide Loud, Deviation, Level, Decomposes;
    FollowsStep(r, capture, segs, n, s);
    if s.active.None? { NextStarts(r, capture, segs, n, |s.segments|); }
  }

  lemma {:induction false} RunGauged(r: Reference, capture: seq<Frame>, segs: seq<Segment>, n: nat)
    requires Decomposes(r, capture, segs) && n <= |capture|
    ensures Run(r, capture[..n]).Scan? && Gauged(r, capture, segs, n, Run(r, capture[..n]))
  {
    hide Step, Follows, Decomposes, Gauged;
    if n == 0 {
      assert Gauged(r, capture, segs, 0, START) by { GaugedAtStart(r, capture, segs); }
    } else {
      RunGauged(r, capture, segs, n - 1);
      RunFollows(r, capture, segs, n - 1);
      RunSnoc(r, capture[..n - 1], capture[n - 1]);
      assert capture[..n] == capture[..n - 1] + [capture[n - 1]];
      GaugedStep(r, capture, segs, n - 1, Run(r, capture[..n - 1]));
    }
  }

  lemma GaugedAtStart(r: Reference, capture: seq<Frame>, segs: seq<Segment>)
    ensures Gauged(r, capture, segs, 0, START)
  {}

  /** An accepted capture is reported with its true length, stream count and maxima. */
  lemma ReportExact(r: Reference, capture: seq<Frame>, segs: seq<Segment>)
    requires Decomposes(r, capture, segs)
    ensures var res := Conclude(Run(r, capture), |capture|, |segs|);
      res.Accepted? && res.frames == |capture| && res.streams == |segs|
      && Gauged(r, capture, segs, |capture|, START.(peak := res.peak, maximumError := res.maximumError))
  {
    hide Decomposes;
    assert capture[..|capture|] == capture;
    AcceptExact(r, capture, |segs|);
    RunGauged(r, capture, segs, |capture|);
  }
}
