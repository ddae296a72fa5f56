/** Beats, tempo, timelines and the host/ghost clock transform.
    Beats are integer micro-beats and times are integer microseconds. */
module Timelines {
  import opened Rounding

  const MICRO := 1000000

  // ---------------------------------------------------------------- tempo

  datatype Tempo = Tempo(bpm: real) {

    predicate Valid() { 0.0 < bpm <= 120000000.0 }

    function MicrosPerBeat(): (m: int)
      requires Valid()
      ensures m > 0
    {
      assert 60000000.0 / bpm >= 0.5 by {
        assert 60000000.0 / bpm * bpm == 60000000.0;
      }
      LlRound(60000000.0 / bpm)
    }

    static function FromMicrosPerBeat(m: int): (t: Tempo)
      requires m > 0
      ensures t.Valid()
    {
      assert 60000000.0 / m as real <= 60000000.0 by {
        assert 60000000.0 / m as real * m as real == 60000000.0;
      }
      Tempo(60000000.0 / m as real)
    }

    function Clamp(): (t: Tempo) {
      var low := if bpm < 20.0 then 20.0 else bpm;
      Tempo(if 999.0 < low then 999.0 else low)
    }
  }

  /** Converts x at the rate a/c, rounding: the shape of both conversions below. */
  function Scale(x: int, a: int, c: int): int
    requires c > 0
  {
    Round(x * a, c)
  }

  function MicrosToBeats(m: int, micros: int): int
    requires m > 0
  {
    Scale(micros, MICRO, m)
  }

  function BeatsToMicros(m: int, beats: int): int
    requires m > 0
  {
    Scale(beats, m, MICRO)
  }

  // ---------------------------------------------------------------- timeline

  datatype Timeline = Timeline(tempo: Tempo, beatOrigin: int, timeOrigin: int) {

    predicate Valid() { tempo.Valid() }

    predicate InRange() { 20.0 <= tempo.bpm <= 999.0 }

    function M(): (m: int)
      requires Valid()
      ensures m > 0
    {
      tempo.MicrosPerBeat()
    }

    function ToBeats(time: int): int
      requires Valid()
    {
      beatOrigin + MicrosToBeats(M(), time - timeOrigin)
    }

    function FromBeats(beats: int): int
      requires Valid()
    {
      timeOrigin + BeatsToMicros(M(), beats - beatOrigin)
    }
  }

  /** A timeline whose tempo lies in the range that Link allows. */
  type ClampedTimeline = tl: Timeline | tl.InRange() witness Timeline(Tempo(120.0), 0, 0)

  function ClampTempo(tl: Timeline): (r: ClampedTimeline)
    ensures r.beatOrigin == tl.beatOrigin && r.timeOrigin == tl.timeOrigin
    ensures tl.InRange() ==> r == tl
  {
    Timeline(tl.tempo.Clamp(), tl.beatOrigin, tl.timeOrigin)
  }

  /** The transform from host time to the session's ghost time, at slope 1. */
  datatype GhostXForm = GhostXForm(intercept: int) {
    function HostToGhost(hostTime: int): int { hostTime + intercept }
    function GhostToHost(ghostTime: int): int { ghostTime - intercept }
  }

  // ---------------------------------------------------------------- rate conversion

  /** The tempo allowed is the one nearest to the tempo asked for. */
  lemma ClampIsNearest(t: Tempo, other: Tempo)
    requires 20.0 <= other.bpm <= 999.0
    ensures 20.0 <= t.Clamp().bpm <= 999.0
    ensures var d, e := t.Clamp().bpm - t.bpm, other.bpm - t.bpm;
            (if d < 0.0 then -d else d) <= (if e < 0.0 then -e else e)
  {
  }

  lemma ScaleOdd(x: int, a: int, c: int)
    requires c > 0
    ensures Scale(-x, a, c) == -Scale(x, a, c)
  {
    assert (-x) * a == -(x * a);
    RoundOdd(x * a, c);
  }

  lemma ScaleMonotone(x: int, y: int, a: int, c: int)
    requires a >= 0 && c > 0 && x <= y
    ensures Scale(x, a, c) <= Scale(y, a, c)
  {
    assert x * a <= y * a;
    RoundMonotone(x * a, y * a, c);
  }

  /** There and back at the inverse rate: the error is at most (1 + c/a) / 2. */
  lemma ThereAndBackError(x: int, a: int, c: int)
    requires a > 0 && c > 0
    ensures 2 * (Abs(Scale(Scale(x, a, c), c, a) - x) * a) <= a + c
    ensures c <= a ==> Scale(Scale(x, a, c), c, a) == x
  {
    var f := Scale(x, a, c);
    var g := Scale(f, c, a);
    RoundError(x * a, c);
    RoundError(f * c, a);
    Distribute(g, -x, a);
    Distribute(x, -g, a);
    if c == a {
      RoundMultiple(x, c);
      RoundMultiple(x, a);
    } else if g != x {
      MulAtLeast(Abs(g - x), a);
    }
  }

  /** Conversion to the other unit and back is the identity exactly when the other
      unit is at least as fine. */
  lemma ThereAndBackExact(a: int, c: int)
    requires a > 0 && c > 0
    ensures (forall x :: Scale(Scale(x, a, c), c, a) == x) <==> c <= a
  {
    if forall x :: Scale(Scale(x, a, c), c, a) == x {
      LosslessExpands(c, a, c);
      assert c * a == a * c;
      RoundMultiple(a, c);
    }
    if c <= a {
      forall x ensures Scale(Scale(x, a, c), c, a) == x { ThereAndBackError(x, a, c); }
    }
  }

  /** A lossless conversion is strictly increasing, hence x ticks become at least x. */
  lemma {:induction false} LosslessExpands(x: nat, a: int, c: int)
    requires a > 0 && c > 0
    requires forall x :: Scale(Scale(x, a, c), c, a) == x
    ensures Scale(x, a, c) >= x
  {
    if x == 0 {
      RoundMultiple(0, c);
    } else {
      LosslessExpands(x - 1, a, c);
      ScaleMonotone(x - 1, x, a, c);
      assert Scale(Scale(x, a, c), c, a) == x && Scale(Scale(x - 1, a, c), c, a) == x - 1;
    }
  }

  // ---------------------------------------------------------------- timelines

  /** Time to beats and back errs by at most (M / 10^6 + 1) / 2 microseconds. */
  lemma TimeRoundTripError(tl: Timeline, time: int)
    requires tl.Valid()
    ensures 2 * MICRO * Abs(tl.FromBeats(tl.ToBeats(time)) - time) <= tl.M() + MICRO
  {
    ThereAndBackError(time - tl.timeOrigin, MICRO, tl.M());
  }

  /** Time survives the round trip exactly when the tempo is at least 60 bpm. */
  lemma TimeRoundTripExact(tl: Timeline)
    requires tl.Valid()
    ensures (forall time :: tl.FromBeats(tl.ToBeats(time)) == time) <==> tl.M() <= MICRO
  {
    ThereAndBackExact(MICRO, tl.M());
    if forall time :: tl.FromBeats(tl.ToBeats(time)) == time {
      forall x ensures Scale(Scale(x, MICRO, tl.M()), tl.M(), MICRO) == x {
        assert tl.FromBeats(tl.ToBeats(tl.timeOrigin + x)) == tl.timeOrigin + x;
      }
    }
  }

  /** Beats survive the round trip exactly when the tempo is at most 60 bpm. */
  lemma BeatRoundTripExact(tl: Timeline)
    requires tl.Valid()
    ensures (forall beats :: tl.ToBeats(tl.FromBeats(beats)) == beats) <==> tl.M() >= MICRO
  {
    ThereAndBackExact(tl.M(), MICRO);
    if forall beats :: tl.ToBeats(tl.FromBeats(beats)) == beats {
      forall x ensures Scale(Scale(x, tl.M(), MICRO), MICRO, tl.M()) == x {
        assert tl.ToBeats(tl.FromBeats(tl.beatOrigin + x)) == tl.beatOrigin + x;
      }
    }
  }

  /** Whole beats last whole multiples of M microseconds from the origins, and any time is given
      the nearest micro-beat. */
  lemma WholeBeats(tl: Timeline, k: int, time: int)
    requires tl.Valid()
    ensures tl.ToBeats(tl.timeOrigin + k * tl.M()) == tl.beatOrigin + k * MICRO
    ensures tl.FromBeats(tl.beatOrigin + k * MICRO) == tl.timeOrigin + k * tl.M()
    ensures 2 * Abs((tl.ToBeats(time) - tl.beatOrigin) * tl.M() - (time - tl.timeOrigin) * MICRO) <= tl.M()
  {
    hide Tempo.MicrosPerBeat;
    var m := tl.M();
    assert k * m * MICRO == k * MICRO * m;
    RoundMultiple(k * MICRO, m);
    RoundMultiple(k * m, MICRO);
    RoundError((time - tl.timeOrigin) * MICRO, m);
  }

  lemma AtOrigin(tl: Timeline)
    requires tl.Valid()
    ensures tl.ToBeats(tl.timeOrigin) == tl.beatOrigin && tl.FromBeats(tl.beatOrigin) == tl.timeOrigin
  {
    RoundMultiple(0, tl.M());
    RoundMultiple(0, MICRO);
    assert 0 * MICRO == 0 && 0 * tl.M() == 0;
  }

  lemma ToBeatsMonotone(tl: Timeline, t: int, u: int)
    requires tl.Valid() && t <= u
    ensures tl.ToBeats(t) <= tl.ToBeats(u)
  {
    ScaleMonotone(t - tl.timeOrigin, u - tl.timeOrigin, MICRO, tl.M());
  }

  // ---------------------------------------------------------------- tempo on the wire

  /** A tempo read from the wire has the microseconds per beat that were written. */
  lemma WireTempo(m: int)
    requires m > 0
    ensures Tempo.FromMicrosPerBeat(m).MicrosPerBeat() == m
  {
    var d := m as real;
    var bpm := 60000000.0 / d;
    assert bpm * d == 60000000.0;
    assert 60000000.0 / bpm == d;
    LlRoundIs(d, m);
  }

  lemma ProductBound(x: real, bigX: real, y: real, bigY: real)
    requires x >= 0.0 && y >= 0.0 && bigX >= 0.0 && bigY >= 0.0
    ensures x < bigX && y <= bigY ==> x * y <= bigX * bigY
    ensures x >= bigX && y >= bigY ==> x * y >= bigX * bigY
  {
  }

  /** Sending a tempo of the Link range over the wire and clamping what arrives keeps
      the microseconds per beat, although the tempo itself may differ. */
  lemma WireThenClamp(t: Tempo)
    requires 20.0 <= t.bpm <= 999.0
    ensures 60060 <= t.MicrosPerBeat() <= 3000000
    ensures Tempo.FromMicrosPerBeat(t.MicrosPerBeat()).Clamp().MicrosPerBeat() == t.MicrosPerBeat()
  {
    var x := 60000000.0 / t.bpm;
    assert x * t.bpm == 60000000.0;
    assert x <= 3000000.0;
    ProductBound(x, 60060.06, t.bpm, 999.0);
    var m := t.MicrosPerBeat();
    LlRoundIs(x, m);
    var d := m as real;
    var b := 60000000.0 / d;
    assert b * d == 60000000.0;
    assert b >= 20.0;
    if b > 999.0 {
      ProductBound(b, 999.0, d, 60061.0);
      assert 60000000.0 / 999.0 < 60060.1;
      LlRoundIs(60000000.0 / 999.0, 60060);
    } else {
      WireTempo(m);
    }
  }
}
