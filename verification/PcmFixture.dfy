/** The repository's own test signal: playable for every length, so its exact copies are always accepted. */
module PcmFixture {
  import opened PcmStream
  import opened PcmDecomposition
  import opened PcmCopies

  const RATE := 48000
  /** Frames over which the signal fades in. */
  const RAMP := 480
  /** Silent frames at the end. */
  const QUIET := 12000

  /** One frame of the two triangle waves at full level. */
  function Triangles(n: nat): Frame {
    var a, b := n % 96, n % 64;
    Frame((if a < 48 then a - 24 else 72 - a) * 160, (if b < 32 then b - 16 else 48 - b) * 240)
  }

  /** The signal of `fixture(seconds)`; the rounded values of the fade-in do not matter and are left open. */
  predicate IsFixture(source: seq<Frame>, seconds: nat) {
    && |source| == RATE * seconds
    && (forall n :: RAMP <= n < |source| - QUIET ==> source[n] == Triangles(n))
    && (forall n :: 0 <= n < |source| && |source| - QUIET <= n ==> source[n] == Frame(0, 0))
  }

  /** At full level every 96th frame is loud, also after scaling. */
  lemma PlateauLoud(source: seq<Frame>, seconds: nat, n: nat)
    requires IsFixture(source, seconds) && RAMP <= n < |source| - QUIET && n % 96 == 0
    ensures Loud(Scaled(source)[n])
  {
    assert source[n].left == -24 * 160 == -3840;
    assert Scaled(source)[n].left == -960;
  }

  lemma EndQuiet(source: seq<Frame>, seconds: nat, n: nat)
    requires IsFixture(source, seconds) && n < |source| && |source| - QUIET <= n
    ensures !Loud(Scaled(source)[n])
  {
    assert Scaled(source)[n] == Frame(0, 0);
  }

  lemma RoundUp(p: nat) returns (n: nat)
    ensures n % 96 == 0 && p <= n < p + 96
  {
    n := (p + 95) / 96 * 96;
  }

  lemma FixturePlayable(source: seq<Frame>, seconds: nat, tolerance: int)
    requires IsFixture(source, seconds) && seconds > 0
    ensures var r := ReferenceFor(source, tolerance); r.Some? && Playable(r.value)
  {
    hide Loud, Scaled, IsFixture;
    var e := Scaled(source);
    assert |source| == RATE * seconds >= RATE by { FixtureLength(source, seconds); }
    PlateauLoud(source, seconds, RAMP);
    var first, last := FirstLoud(e), LastLoud(e);
    assert 0 <= last;
    if last >= |e| - QUIET { EndQuiet(source, seconds, last); }
    forall p | first <= p && p + GAP <= last ensures !Mute(e, p) {
      var n := RoundUp(p + RAMP);
      PlateauLoud(source, seconds, n);
    }
  }

  lemma FixtureLength(source: seq<Frame>, seconds: nat)
    requires IsFixture(source, seconds) && seconds > 0
    ensures |source| == RATE * seconds >= RATE
  {}

  /** However long the fixture and however often it is played, its exact copies are accepted without error. */
  lemma FixtureAccepted(source: seq<Frame>, seconds: nat, k: nat, tolerance: nat)
    requires IsFixture(source, seconds) && seconds > 0 && k > 0
    ensures var res := Analyze(Copies(Scaled(source), k), source, k, tolerance);
      res.Accepted? && res.maximumError == 0 && res.streams == k && res.frames == k * |source|
  {
    hide Playable, Analyze, Scaled, IsFixture;
    FixturePlayable(source, seconds, tolerance);
    SourceCopiesExact(source, k, tolerance);
  }
}
