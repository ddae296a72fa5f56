/** Quantum phase and the phase encoding of beats. */
module Phases {
  import opened Rounding
  import opened Timelines

  /** The `%` of beats: C++ remainder, but total at zero. */
  function BeatsMod(lhs: int, rhs: int): int {
    if rhs == 0 then 0 else TruncMod(lhs, rhs)
  }

  function Phase(beats: int, quantum: int): int {
    if quantum == 0 then 0 else
      var quantumBins := TruncDiv(Abs(beats) + quantum, quantum);
      BeatsMod(beats + quantumBins * quantum, quantum)
  }

  function NextPhaseMatch(x: int, target: int, quantum: int): int {
    var phaseDiff := BeatsMod(Phase(target, quantum) - Phase(x, quantum) + quantum, quantum);
    x + phaseDiff
  }

  /** Half a quantum as the code computes it: rounded, half a micro-beat going up. */
  function HalfQuantum(quantum: int): int { Round(quantum, 2) }

  function ClosestPhaseMatch(x: int, target: int, quantum: int): int {
    NextPhaseMatch(x - HalfQuantum(quantum), target, quantum)
  }

  function ToPhaseEncodedBeats(tl: Timeline, time: int, quantum: int): int
    requires tl.Valid()
  {
    var beat := tl.ToBeats(time);
    ClosestPhaseMatch(beat, beat - tl.beatOrigin, quantum)
  }

  /** The beat that a phase-encoded beat stands for. */
  function DecodedBeat(beatOrigin: int, beat: int, quantum: int): int {
    var fromOrigin := beat - beatOrigin;
    var originOffset := fromOrigin - Phase(fromOrigin, quantum);
    var inversePhaseOffset := ClosestPhaseMatch(
      quantum - Phase(fromOrigin, quantum), quantum - Phase(beat, quantum), quantum);
    beatOrigin + originOffset + quantum - inversePhaseOffset
  }

  function FromPhaseEncodedBeats(tl: Timeline, beat: int, quantum: int): int
    requires tl.Valid()
  {
    tl.FromBeats(DecodedBeat(tl.beatOrigin, beat, quantum))
  }

  // ---------------------------------------------------------------- phase

  /** For either sign of the beats the phase is the Euclidean remainder, and zero for a zero
      quantum. */
  lemma PhaseIsRemainder(beats: int, quantum: int)
    requires quantum >= 0
    ensures Phase(beats, quantum) == if quantum == 0 then 0 else beats % quantum
  {
    if quantum > 0 {
      PositivePhase(beats, quantum);
    }
  }

  lemma PositivePhase(beats: int, quantum: int)
    requires quantum > 0
    ensures Phase(beats, quantum) == beats % quantum
  {
    var a := Abs(beats) + quantum;
    var bins := TruncDiv(a, quantum);
    TruncDivMod(a, quantum);
    assert beats + bins * quantum >= 0;
    ModShift(beats, bins, quantum);
  }

  /** Same phase: apart by a multiple of the quantum (by nothing when it is 0). */
  ghost predicate Congruent(a: int, b: int, quantum: int)
    requires quantum >= 0
  {
    if quantum == 0 then true else a % quantum == b % quantum
  }

  lemma SamePhaseIsCongruent(a: int, b: int, quantum: int)
    requires quantum >= 0
    ensures Phase(a, quantum) == Phase(b, quantum) <==> Congruent(a, b, quantum)
  {
    if quantum > 0 {
      PhaseIsRemainder(a, quantum);
      PhaseIsRemainder(b, quantum);
    }
  }

  /** The distance that `NextPhaseMatch` moves. */
  lemma NextPhaseMatchStep(x: int, target: int, quantum: int)
    requires quantum > 0
    ensures NextPhaseMatch(x, target, quantum) == x + (target - x) % quantum
  {
    PhaseIsRemainder(target, quantum);
    PhaseIsRemainder(x, quantum);
    ModDifference(target, x, quantum, quantum);
    ModShift(target - x, 1, quantum);
  }

  /** The least value not below x that has the phase of the target. */
  lemma NextPhaseMatchIsLeast(x: int, target: int, quantum: int)
    requires quantum >= 0
    ensures var r := NextPhaseMatch(x, target, quantum);
            && r >= x && Phase(r, quantum) == Phase(target, quantum)
            && (forall y :: y >= x && Phase(y, quantum) == Phase(target, quantum) ==> r <= y)
  {
    var r := NextPhaseMatch(x, target, quantum);
    if quantum > 0 {
      NextPhaseMatchStep(x, target, quantum);
      LeastCongruent(x, target, quantum);
      PhaseIsRemainder(r, quantum);
      PhaseIsRemainder(target, quantum);
      forall y | y >= x && Phase(y, quantum) == Phase(target, quantum) ensures r <= y {
        PhaseIsRemainder(y, quantum);
      }
    }
  }

  lemma NoQuantum(x: int, target: int)
    ensures NextPhaseMatch(x, target, 0) == x && ClosestPhaseMatch(x, target, 0) == x
  {
  }

  // ---------------------------------------------------------------- closest match

  ghost predicate IsClosestMatch(r: int, x: int, target: int, quantum: int) {
    && Phase(r, quantum) == Phase(target, quantum)
    && forall y :: Phase(y, quantum) == Phase(target, quantum) ==> Abs(r - x) <= Abs(y - x)
  }

  lemma HalfQuantumIs(quantum: int)
    requires quantum >= 0
    ensures HalfQuantum(quantum) == (quantum + 1) / 2
  {
    RoundIs(quantum, 2, (quantum + 1) / 2);
  }

  /** `ClosestPhaseMatch` returns the closest match, within half a quantum, except when
      the quantum is odd and the target is half a micro-beat less than half a quantum
      ahead: the half quantum is then rounded up past the closest match. */
  lemma ClosestMatchExactly(x: int, target: int, quantum: int)
    requires quantum >= 0
    ensures var r := ClosestPhaseMatch(x, target, quantum);
            var missed := quantum % 2 == 1 && (target - x) % quantum == quantum / 2;
            && (IsClosestMatch(r, x, target, quantum) <==> !missed)
            && (2 * Abs(r - x) <= quantum <==> !missed)
            && 2 * Abs(r - x) <= quantum + 1
  {
    var r := ClosestPhaseMatch(x, target, quantum);
    if quantum == 0 {
      NoQuantum(x, target);
    } else {
      ClosestMatchStep(x, target, quantum);
      NextPhaseMatchIsLeast(x - HalfQuantum(quantum), target, quantum);
      SamePhaseApart(r, quantum);
      assert Phase(r, quantum) == Phase(target, quantum);
    }
  }

  /** Values of one phase that differ are at least a quantum apart, and the next one
      is exactly that far. */
  lemma SamePhaseApart(r: int, quantum: int)
    requires quantum > 0
    ensures forall y :: Phase(y, quantum) == Phase(r, quantum) ==> y == r || y <= r - quantum || y >= r + quantum
    ensures Phase(r + quantum, quantum) == Phase(r, quantum)
  {
    PhaseIsRemainder(r, quantum);
    PhaseIsRemainder(r + quantum, quantum);
    ModShift(r, 1, quantum);
    forall y | Phase(y, quantum) == Phase(r, quantum) ensures y == r || y <= r - quantum || y >= r + quantum {
      PhaseIsRemainder(y, quantum);
      ResidueApart(y, r, quantum);
    }
  }

  lemma ClosestMatchStep(x: int, target: int, quantum: int)
    requires quantum > 0
    ensures var d := (target - x) % quantum;
            ClosestPhaseMatch(x, target, quantum)
            == if 2 * d < quantum - 1 || (2 * d < quantum && quantum % 2 == 0) then x + d else x + d - quantum
  {
    HalfQuantumIs(quantum);
    var h := HalfQuantum(quantum);
    NextPhaseMatchStep(x - h, target, quantum);
    ModOfSum(target - x, h, quantum);
  }

  /** A quantum of three micro-beats: 2 has the phase of -1 and is one away from 1,
      but the match found is -1, two away. */
  lemma ClosestMatchMissed()
    ensures ClosestPhaseMatch(1, 2, 3) == -1 && Phase(2, 3) == Phase(-1, 3)
  {
    HalfQuantumIs(3);
    NextPhaseMatchStep(-1, 2, 3);
    PhaseIsRemainder(2, 3);
    PhaseIsRemainder(-1, 3);
  }

  // ---------------------------------------------------------------- encoding

  /** The encoded beat carries the phase that counts from the timeline's origin, and is within half a
      quantum, rounded up, of the beat. */
  lemma EncodedPhase(tl: Timeline, time: int, quantum: int)
    requires tl.Valid() && quantum >= 0
    ensures var encoded := ToPhaseEncodedBeats(tl, time, quantum);
            && Phase(encoded, quantum) == Phase(tl.ToBeats(time) - tl.beatOrigin, quantum)
            && 2 * Abs(encoded - tl.ToBeats(time)) <= quantum + 1
  {
    var beat := tl.ToBeats(time);
    ClosestMatchExactly(beat, beat - tl.beatOrigin, quantum);
    if quantum > 0 {
      NextPhaseMatchIsLeast(beat - HalfQuantum(quantum), beat - tl.beatOrigin, quantum);
    }
  }

  /** Decoding recovers the very micro-beat that was encoded, whatever the rounding of
      the half quantum, as both directions use the same one. */
  lemma DecodeEncode(beatOrigin: int, beat: int, quantum: int)
    requires quantum >= 0
    ensures DecodedBeat(beatOrigin, ClosestPhaseMatch(beat, beat - beatOrigin, quantum), quantum) == beat
  {
    if quantum == 0 {
      NoQuantum(beat, beat - beatOrigin);
      DecodeNoQuantum(beatOrigin, beat);
    } else {
      DecodeEncodeQuantum(beatOrigin, beat, quantum);
    }
  }

  lemma DecodeNoQuantum(beatOrigin: int, beat: int)
    ensures DecodedBeat(beatOrigin, beat, 0) == beat
  {
    hide ClosestPhaseMatch;
    NoQuantum(0 - Phase(beat - beatOrigin, 0), 0 - Phase(beat, 0));
  }

  lemma DecodeEncodeQuantum(beatOrigin: int, beat: int, quantum: int)
    requires quantum > 0
    ensures DecodedBeat(beatOrigin, ClosestPhaseMatch(beat, beat - beatOrigin, quantum), quantum) == beat
  {
    hide Phase, ClosestPhaseMatch, HalfQuantum;
    var e := ClosestPhaseMatch(beat, beat - beatOrigin, quantum);
    var f := e - beatOrigin;
    EncodeStep(beat, beatOrigin, quantum);
    InverseStep(f, e, Phase(f, quantum), Phase(e, quantum), quantum);
  }

  lemma EncodeStep(beat: int, beatOrigin: int, quantum: int)
    requires quantum > 0
    ensures var h := HalfQuantum(quantum);
            ClosestPhaseMatch(beat, beat - beatOrigin, quantum) == beat - h + (h - beatOrigin) % quantum
  {
    var h := HalfQuantum(quantum);
    NextPhaseMatchStep(beat - h, beat - beatOrigin, quantum);
    assert beat - beatOrigin - (beat - h) == h - beatOrigin;
  }

  lemma InverseStep(f: int, e: int, fr: int, er: int, quantum: int)
    requires quantum > 0 && fr == Phase(f, quantum) && er == Phase(e, quantum)
    ensures var h := HalfQuantum(quantum);
            ClosestPhaseMatch(quantum - fr, quantum - er, quantum)
            == quantum - fr - h + (f - e + h) % quantum
  {
    var h := HalfQuantum(quantum);
    PhaseIsRemainder(f, quantum);
    PhaseIsRemainder(e, quantum);
    NextPhaseMatchStep(quantum - fr - h, quantum - er, quantum);
    assert quantum - er - (quantum - fr - h) == fr - er + h;
    ModDifference(f, e, h, quantum);
  }

  /** A time encoded and decoded is the time of its own micro-beat: exact from 60 bpm
      up, and within (M / 10^6 + 1) / 2 microseconds at every tempo. */
  lemma PhaseEncodingRoundTrip(tl: Timeline, time: int, quantum: int)
    requires tl.Valid() && quantum >= 0
    ensures var back := FromPhaseEncodedBeats(tl, ToPhaseEncodedBeats(tl, time, quantum), quantum);
            && back == tl.FromBeats(tl.ToBeats(time))
            && 2 * MICRO * Abs(back - time) <= tl.M() + MICRO
            && (tl.M() <= MICRO ==> back == time)
  {
    hide Phase, ClosestPhaseMatch, DecodedBeat, Timeline.ToBeats, Timeline.FromBeats, Timeline.M;
    DecodeEncode(tl.beatOrigin, tl.ToBeats(time), quantum);
    TimeRoundTripError(tl, time);
    if tl.M() <= MICRO { TimeRoundTripExact(tl); }
  }
}
