/** The streaming PCM verifier: segmentation of a stereo capture against repeated copies of one expected signal. */
module PcmStream {
  import opened Collections

  datatype Frame = Frame(left: int, right: int)

  /** First and last loud frame of one complete stream. */
  datatype Segment = Segment(start: nat, end: nat)

  const FLOOR := 20
  const GAP := 4800

  function Abs(n: int): nat { if n < 0 then -n else n }

  function Max(a: int, b: int): (m: int)
    ensures m >= a && m >= b
  {
    if a < b then b else a
  }

  function Level(f: Frame): nat { Max(Abs(f.left), Abs(f.right)) }

  predicate Loud(f: Frame) { Level(f) > FLOOR }

  function Deviation(f: Frame, g: Frame): nat { Max(Abs(f.left - g.left), Abs(f.right - g.right)) }

  /** `int(n/4)`: division towards zero. */
  function Quarter(n: int): int { if n < 0 then -(-n / 4) else n / 4 }

  function Scaled(source: seq<Frame>): (e: seq<Frame>)
    ensures |e| == |source|
  {
    seq(|source|, i requires 0 <= i < |source| => Frame(Quarter(source[i].left), Quarter(source[i].right)))
  }

  /** Index of the first loud frame, or the length. */
  function FirstLoud(e: seq<Frame>): (n: nat)
    ensures n <= |e| && (n < |e| ==> Loud(e[n])) && forall i :: 0 <= i < n ==> !Loud(e[i])
  {
    if e == [] || Loud(e[0]) then 0 else 1 + FirstLoud(e[1..])
  }

  /** Index of the last loud frame, or -1. */
  function LastLoud(e: seq<Frame>): (n: int)
    ensures -1 <= n < |e| && (0 <= n ==> Loud(e[n])) && forall i :: n < i < |e| ==> !Loud(e[i])
  {
    if e == [] then -1 else if Loud(e[|e| - 1]) then |e| - 1 else LastLoud(e[..|e| - 1])
  }

  /** The expected signal with its loud span and the tolerance applied to every sample. */
  datatype Reference = Reference(expected: seq<Frame>, first: nat, last: nat, tolerance: int)

  function ReferenceFor(source: seq<Frame>, tolerance: int): Option<Reference> {
    var e := Scaled(source);
    if FirstLoud(e) == |e| then None
    else
      assert LastLoud(e) >= 0;
      Some(Reference(e, FirstLoud(e), LastLoud(e), tolerance))
  }

  // ------------------------------------------------------- the scanning automaton

  datatype Scan =
    | Failed
    | Scan(segments: seq<Segment>, active: Option<nat>, lastActive: nat, peak: nat, maximumError: nat)

  const START := Scan([], None, 0, 0, 0)

  /** One frame at `position`. */
  function Step(r: Reference, s: Scan, position: nat, f: Frame): Scan {
    if s.Failed? then Failed else
    var s := s.(peak := Max(s.peak, Level(f)));
    var s := if s.active.None? && Loud(f) then s.(active := Some(position)) else s;
    if s.active.None? then s else
    var index := position - s.active.value + r.first;
    if !(0 <= index < |r.expected|) || Deviation(f, r.expected[index]) > r.tolerance then Failed else
    var s := s.(maximumError := Max(s.maximumError, Deviation(f, r.expected[index])),
                lastActive := if Loud(f) then position else s.lastActive);
    if position - s.lastActive < GAP then s
    else if Abs((s.lastActive - s.active.value) - (r.last - r.first)) > 2 then Failed
    else s.(segments := s.segments + [Segment(s.active.value, s.lastActive)], active := None)
  }

  function Run(r: Reference, capture: seq<Frame>): Scan {
    if capture == [] then START
    else Step(r, Run(r, capture[..|capture| - 1]), |capture| - 1, capture[|capture| - 1])
  }

  datatype Result =
    | Rejected
    | Accepted(frames: nat, streams: nat, maximumError: nat, peak: nat)

  function Conclude(s: Scan, frames: nat, repeats: int): Result {
    if s.Failed? || s.active.Some? || |s.segments| != repeats || frames - s.lastActive < GAP then Rejected
    else Accepted(frames, |s.segments|, s.maximumError, s.peak)
  }

  function Analyze(capture: seq<Frame>, source: seq<Frame>, repeats: int, tolerance: int): Result {
    var r := ReferenceFor(source, tolerance);
    if r.None? then Rejected else Conclude(Run(r.value, capture), |capture|, repeats)
  }

  // ----------------------------------------------------------- the program's loops

  function Concat(blocks: seq<seq<Frame>>): seq<Frame> {
    if blocks == [] then [] else Concat(blocks[..|blocks| - 1]) + blocks[|blocks| - 1]
  }

  lemma RunSnoc(r: Reference, capture: seq<Frame>, f: Frame)
    ensures Run(r, capture + [f]) == Step(r, Run(r, capture), |capture|, f)
  {
    assert (capture + [f])[..|capture|] == capture;
  }

  lemma ConcatStep(blocks: seq<seq<Frame>>, b: nat)
    requires b < |blocks|
    ensures Concat(blocks[..b + 1]) == Concat(blocks[..b]) + blocks[b]
  {
    assert blocks[..b + 1][..b] == blocks[..b];
  }

  lemma Nothing(r: Reference)
    ensures Concat([]) == [] && Run(r, []) == START
  {}

  lemma {:induction false} FailedStays(r: Reference, capture: seq<Frame>, n: nat)
    requires n <= |capture| && Run(r, capture[..n]).Failed?
    ensures Run(r, capture).Failed?
  {
    if n < |capture| {
      assert capture[..|capture| - 1][..n] == capture[..n];
      FailedStays(r, capture[..|capture| - 1], n);
    } else {
      assert capture[..n] == capture;
    }
  }

  lemma {:induction false} ConcatPrefix(blocks: seq<seq<Frame>>, b: nat)
    requires b <= |blocks|
    ensures Concat(blocks[..b]) <= Concat(blocks)
  {
    if b < |blocks| {
      assert blocks[..|blocks| - 1][..b] == blocks[..b];
      ConcatPrefix(blocks[..|blocks| - 1], b);
    } else {
      assert blocks[..b] == blocks;
    }
  }

  /** Reads the capture block by block; the verdict depends on the frames alone, not on where the blocks end. */
  method AnalyzeRepeated(blocks: seq<seq<Frame>>, source: seq<Frame>, repeats: int, tolerance: int)
    returns (result: Result)
    ensures result == Analyze(Concat(blocks), source, repeats, tolerance)
  {
    hide Level, Loud, Deviation, Max, Abs, ReferenceFor, Run, Concat;
    var reference := ReferenceFor(source, tolerance);
    if reference.None? { return Rejected; }
    var r := reference.value;
    var segments: seq<Segment>, active: Option<nat> := [], None;
    var position: nat, lastActive: nat, peak: nat, maximumError: nat := 0, 0, 0, 0;
    ghost var capture := Concat(blocks);
    Nothing(r);
    assert blocks[..0] == [];
    var b := 0;
    while b < |blocks|
      invariant b <= |blocks|
      invariant position == |Concat(blocks[..b])|
      invariant Run(r, Concat(blocks[..b])) == Scan(segments, active, lastActive, peak, maximumError)
    {
      var values := blocks[b];
      ghost var before := Concat(blocks[..b]);
      ConcatStep(blocks, b);
      ConcatPrefix(blocks, b + 1);
      assert before + values[..0] == before;
      var i := 0;
      while i < |values|
        invariant i <= |values|
        invariant position == |before| + i
        invariant Run(r, before + values[..i]) == Scan(segments, active, lastActive, peak, maximumError)
      {
        var f := values[i];
        ghost var now := before + values[..i + 1];
        RunSnoc(r, before + values[..i], f);
        assert now == before + values[..i] + [f];
        assert now == capture[..|now|];
        peak := Max(peak, Level(f));
        if active == None && Loud(f) { active := Some(position); }
        if active.Some? {
          var index := position - active.value + r.first;
          if !(0 <= index < |r.expected|) { FailedStays(r, capture, |now|); return Rejected; }
          var error := Deviation(f, r.expected[index]);
          maximumError := Max(maximumError, error);
          if error > r.tolerance { FailedStays(r, capture, |now|); return Rejected; }
          if Loud(f) { lastActive := position; }
          if position - lastActive >= GAP {
            if Abs((lastActive - active.value) - (r.last - r.first)) > 2 {
              FailedStays(r, capture, |now|);
              return Rejected;
            }
            segments := segments + [Segment(active.value, lastActive)];
            active := None;
          }
        }
        position := position + 1;
        i := i + 1;
      }
      assert before + values[..i] == Concat(blocks[..b + 1]);
      b := b + 1;
    }
    assert blocks[..b] == blocks;
    result := Conclude(Scan(segments, active, lastActive, peak, maximumError), position, repeats);
  }
}
