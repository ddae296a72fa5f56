/** What an application does to its copy of the session state: setting the tempo, and asking
    for a beat at a time. */
module SessionStates {
  import opened Rounding
  import opened Timelines
  import opened Phases
  import opened ClientSessionTimelines

  function BeatAtTime(tl: Timeline, time: int, quantum: int): int
    requires tl.Valid()
  {
    ToPhaseEncodedBeats(tl, time, quantum)
  }

  /** The tempo is clamped, and the timeline is meant to keep its beat at the given time. */
  function SetTempo(tl: Timeline, tempo: Tempo, atTime: int): (r: Timeline)
    requires tl.Valid()
    ensures r.Valid() && r.tempo == tempo.Clamp()
  {
    var desired := ClampTempo(Timeline(tempo, tl.ToBeats(atTime), atTime));
    tl.(tempo := desired.tempo, timeOrigin := desired.FromBeats(tl.beatOrigin))
  }

  function ForceBeatAtTimeImpl(tl: Timeline, beat: int, time: int, quantum: int): (r: Timeline)
    requires tl.Valid()
    ensures r.Valid()
  {
    var curBeatAtTime := ToPhaseEncodedBeats(tl, time, quantum);
    var closestInPhase := ClosestPhaseMatch(curBeatAtTime, beat, quantum);
    var shifted := ShiftClientTimeline(tl, closestInPhase - curBeatAtTime);
    shifted.(beatOrigin := shifted.beatOrigin + beat - closestInPhase)
  }

  /** A beat that comes out too late in the beats is forced again a microsecond later. */
  function ForceBeatAtTime(tl: Timeline, beat: int, time: int, quantum: int): (r: Timeline)
    requires tl.Valid()
    ensures r.Valid()
  {
    var once := ForceBeatAtTimeImpl(tl, beat, time, quantum);
    if BeatAtTime(once, time, quantum) > beat then ForceBeatAtTimeImpl(once, beat, time + 1, quantum) else once
  }

  /** The time at which the next beat with the phase of the requested one falls. */
  function RequestedTime(tl: Timeline, beat: int, time: int, quantum: int): int
    requires tl.Valid()
  {
    FromPhaseEncodedBeats(tl, NextPhaseMatch(BeatAtTime(tl, time, quantum), beat, quantum), quantum)
  }

  /** While there are other peers the quantum is respected, and the beat is forced only then. */
  function RequestBeatAtTime(tl: Timeline, beat: int, time: int, quantum: int, respectQuantum: bool): (r: Timeline)
    requires tl.Valid()
    ensures r.Valid()
  {
    ForceBeatAtTime(tl, beat, if respectQuantum then RequestedTime(tl, beat, time, quantum) else time, quantum)
  }

  // ---------------------------------------------------------------- a shift

  lemma OddTimesOdd(a: int, b: int)
    ensures (2 * a + 1) * (2 * b + 1) == 2 * (2 * (a * b) + a + b) + 1
  {
  }

  /** Two ties at the one rate and one at the inverse rate cannot meet: a product of odd
      numbers is not a multiple of four. */
  lemma NoThreeTies(m: int, o: int, f: int, w: int, b: int)
    requires 2 * (f * MICRO) == -2 * (o * m) - MICRO
    ensures 2 * (b * m) != 2 * (w * MICRO) - m
  {
    if 2 * (b * m) == 2 * (w * MICRO) - m {
      OddTimesOdd(b, f);
      assert (2 * b + 1) * m == 2 * w * MICRO;
      assert (2 * f + 1) * MICRO == -2 * (o * m);
      Regroup(2 * b + 1, 2 * f + 1, m, o, w);
      assert false;
    }
  }

  lemma Regroup(p: int, q: int, m: int, o: int, w: int)
    requires p * m == 2 * w * MICRO && q * MICRO == -2 * (o * m)
    ensures p * q * MICRO == -4 * (o * w) * MICRO
  {
    assert p * q * MICRO == p * (q * MICRO);
    assert p * (-2 * (o * m)) == -2 * (o * (p * m));
    assert o * (2 * w * MICRO) == 2 * (o * w) * MICRO;
  }

  /** Shifting by beats, through a rounded difference of times, is at most a microsecond ahead:
      the one case in which the roundings add up to more needs three ties. */
  lemma ShiftedAhead(m: int, o: int, s: int, w: int)
    requires m > 0
    ensures var delta := Scale(s - o, m, MICRO) - Scale(-o, m, MICRO);
            Scale(w + delta, MICRO, m) <= Scale(w + 1, MICRO, m) + s
  {
    hide Round;
    var f1, f0 := Scale(s - o, m, MICRO), Scale(-o, m, MICRO);
    var delta := f1 - f0;
    var a, b := Scale(w + delta, MICRO, m), Scale(w + 1, MICRO, m);
    RoundError((s - o) * m, MICRO);
    RoundError(-o * m, MICRO);
    RoundError((w + delta) * MICRO, m);
    RoundError((w + 1) * MICRO, m);
    if a > b + s {
      MulAtLeast(a - b - s, m);
      Products(m, o, s, a, b);
      NoThreeTies(m, o, f0, w + 1, b);
    }
  }

  lemma Products(m: int, o: int, s: int, a: int, b: int)
    ensures (s - o) * m == s * m - o * m && -o * m == -(o * m)
    ensures (a - b - s) * m == a * m - b * m - s * m
  {
    Distribute(s, -o, m);
    Distribute(a, -b - s, m);
    Distribute(-b, -s, m);
  }

  /** A shifted timeline is at most a microsecond ahead of, or behind, the timeline it is made
      from with the shift added. */
  lemma ShiftWithinMicro(tl: Timeline, shift: int, time: int)
    requires tl.Valid()
    ensures tl.ToBeats(time - 1) + shift <= ShiftClientTimeline(tl, shift).ToBeats(time) <= tl.ToBeats(time + 1) + shift
  {
    hide Scale, Tempo.MicrosPerBeat;
    var m, o, w := tl.M(), tl.beatOrigin, time - tl.timeOrigin;
    var delta := Scale(shift - o, m, MICRO) - Scale(-o, m, MICRO);
    assert ShiftClientTimeline(tl, shift).ToBeats(time) == o + Scale(w + delta, MICRO, m);
    ShiftedAhead(m, o, shift, w);
    ShiftedAhead(m, -o, -shift, -w);
    ScaleOdd(shift - o, m, MICRO);
    ScaleOdd(-o, m, MICRO);
    ScaleOdd(w + delta, MICRO, m);
    ScaleOdd(w - 1, MICRO, m);
    assert -shift - -o == -(shift - o) && -w + (-delta) == -(w + delta) && -w + 1 == -(w - 1);
  }

  // ---------------------------------------------------------------- forcing a beat

  /** The difference between a phase-encoded beat and the beat depends on the origin alone. */
  function EncodingOffset(beatOrigin: int, quantum: int): int
    requires quantum >= 0
  {
    if quantum == 0 then 0 else (HalfQuantum(quantum) - beatOrigin) % quantum - HalfQuantum(quantum)
  }

  lemma EncodedIs(tl: Timeline, time: int, quantum: int)
    requires tl.Valid() && quantum >= 0
    ensures BeatAtTime(tl, time, quantum) == tl.ToBeats(time) + EncodingOffset(tl.beatOrigin, quantum)
  {
    if quantum == 0 {
      NoQuantum(tl.ToBeats(time), tl.ToBeats(time) - tl.beatOrigin);
    } else {
      EncodeStep(tl.ToBeats(time), tl.beatOrigin, quantum);
    }
  }

  /** Moving the origin by beats of equal phase does not change the offset. */
  lemma SameOffset(beatOrigin: int, cur: int, beat: int, quantum: int)
    requires quantum > 0
    ensures EncodingOffset(beatOrigin + beat - ClosestPhaseMatch(cur, beat, quantum), quantum)
         == EncodingOffset(beatOrigin, quantum)
  {
    hide ClosestPhaseMatch, HalfQuantum;
    var k := ClosestApart(cur, beat, quantum);
    ModShift(HalfQuantum(quantum) - beatOrigin, k, quantum);
  }

  /** The closest match is whole quanta away from the target. */
  lemma ClosestApart(cur: int, beat: int, quantum: int) returns (k: int)
    requires quantum > 0
    ensures ClosestPhaseMatch(cur, beat, quantum) - beat == k * quantum
  {
    hide NextPhaseMatch, HalfQuantum;
    var x := cur - HalfQuantum(quantum);
    NextPhaseMatchStep(x, beat, quantum);
    k := WholeQuanta(beat - x, quantum);
  }

  lemma WholeQuanta(d: int, quantum: int) returns (k: int)
    requires quantum > 0
    ensures d % quantum - d == k * quantum
  {
    k := -(d / quantum);
    assert d == quantum * (d / quantum) + d % quantum;
    assert k * quantum == -(quantum * (d / quantum));
  }

  /** After a beat is forced, every time has the requested beat plus what the shifted timeline
      has beyond the shift. */
  lemma Forced(tl: Timeline, beat: int, time: int, quantum: int, x: int)
    requires tl.Valid() && quantum >= 0
    ensures var cur := BeatAtTime(tl, time, quantum);
            var shift := ClosestPhaseMatch(cur, beat, quantum) - cur;
            BeatAtTime(ForceBeatAtTimeImpl(tl, beat, time, quantum), x, quantum)
            == beat + (ShiftClientTimeline(tl, shift).ToBeats(x) - tl.ToBeats(time) - shift)
  {
    hide Scale, Tempo.MicrosPerBeat, ToPhaseEncodedBeats, ClosestPhaseMatch, EncodingOffset;
    var cur := BeatAtTime(tl, time, quantum);
    var closest := ClosestPhaseMatch(cur, beat, quantum);
    var forced := ForceBeatAtTimeImpl(tl, beat, time, quantum);
    EncodedIs(tl, time, quantum);
    EncodedIs(forced, x, quantum);
    if quantum == 0 {
      NoQuantum(cur, beat);
      OffsetOfNoQuantum(tl.beatOrigin);
      OffsetOfNoQuantum(forced.beatOrigin);
    } else {
      SameOffset(tl.beatOrigin, cur, beat, quantum);
    }
    assert forced.ToBeats(x) == ShiftClientTimeline(tl, closest - cur).ToBeats(x) + beat - closest;
  }

  lemma OffsetOfNoQuantum(beatOrigin: int)
    ensures EncodingOffset(beatOrigin, 0) == 0
  {
  }

  /** Forced once, the beat at the time itself is within 1 + 10^6 / M of the requested one. */
  lemma ForcedError(tl: Timeline, beat: int, time: int, quantum: int)
    requires tl.Valid() && quantum >= 0
    ensures Abs((BeatAtTime(ForceBeatAtTimeImpl(tl, beat, time, quantum), time, quantum) - beat) * tl.M())
         <= tl.M() + MICRO
  {
    hide ForceBeatAtTimeImpl, BeatAtTime, ShiftClientTimeline, Timeline.ToBeats, Timeline.M;
    var cur := BeatAtTime(tl, time, quantum);
    Forced(tl, beat, time, quantum, time);
    ShiftError(tl, ClosestPhaseMatch(cur, beat, quantum) - cur, time);
  }

  /** And it does exceed it: at 120 bpm, asked for the first micro-beat of a bar of four beats at
      the time of beat zero, the timeline forced once has the second. */
  lemma ForcedOnceIsExceeded(tl: Timeline)
    requires tl == Timeline(Tempo(120.0), 0, 0)
    ensures BeatAtTime(ForceBeatAtTimeImpl(tl, 1, 0, 4000000), 0, 4000000) == 2
  {
    hide ForceBeatAtTimeImpl, BeatAtTime, ShiftClientTimeline, Timeline.ToBeats, ClosestPhaseMatch, EncodingOffset;
    AtBeatZero(tl);
    EncodedIs(tl, 0, 4000000);
    InABar();
    Forced(tl, 1, 0, 4000000, 0);
    ShiftMissed(tl);
  }

  lemma AtBeatZero(tl: Timeline)
    requires tl.Valid() && tl.beatOrigin == tl.timeOrigin == 0
    ensures tl.ToBeats(0) == 0
  {
    RoundMultiple(0, tl.M());
  }

  lemma InABar()
    ensures EncodingOffset(0, 4000000) == 0 && ClosestPhaseMatch(0, 1, 4000000) == 1
  {
    hide NextPhaseMatch, HalfQuantum;
    HalfQuantumIs(4000000);
    NextPhaseMatchStep(-2000000, 1, 4000000);
  }

  /** The one extra microsecond suffices: whatever the timeline, the time and the quantum, the
      beat at the requested time is never later than the requested beat, and it is earlier
      by at most 2 (1 + 10^6 / M) micro-beats. */
  lemma ForcedBeatIsNotExceeded(tl: Timeline, beat: int, time: int, quantum: int)
    requires tl.Valid() && quantum >= 0
    ensures var forced := BeatAtTime(ForceBeatAtTime(tl, beat, time, quantum), time, quantum);
            forced <= beat && (beat - forced) * tl.M() <= 2 * (tl.M() + MICRO)
  {
    hide ForceBeatAtTimeImpl, BeatAtTime, ShiftClientTimeline, Timeline.ToBeats, Timeline.M;
    var once := ForceBeatAtTimeImpl(tl, beat, time, quantum);
    ForcedError(tl, beat, time, quantum);
    if BeatAtTime(once, time, quantum) > beat {
      SecondForce(once, beat, time, quantum);
      SameTempo(tl, beat, time, quantum);
    }
  }

  lemma SameTempo(tl: Timeline, beat: int, time: int, quantum: int)
    requires tl.Valid()
    ensures ForceBeatAtTimeImpl(tl, beat, time, quantum).M() == tl.M()
  {
  }

  /** Forcing at the next microsecond. */
  lemma SecondForce(tl: Timeline, beat: int, time: int, quantum: int)
    requires tl.Valid() && quantum >= 0
    ensures var forced := BeatAtTime(ForceBeatAtTimeImpl(tl, beat, time + 1, quantum), time, quantum);
            forced <= beat && (beat - forced) * tl.M() <= 2 * (tl.M() + MICRO)
  {
    hide ForceBeatAtTimeImpl, BeatAtTime, ShiftClientTimeline, Timeline.ToBeats, Timeline.M;
    var cur := BeatAtTime(tl, time + 1, quantum);
    var shift := ClosestPhaseMatch(cur, beat, quantum) - cur;
    Forced(tl, beat, time + 1, quantum, time);
    ShiftWithinMicro(tl, shift, time);
    TwoMicros(tl, time);
    var forced := BeatAtTime(ForceBeatAtTimeImpl(tl, beat, time + 1, quantum), time, quantum);
    SmallerProduct(beat - forced, tl.ToBeats(time + 1) - tl.ToBeats(time - 1), tl.M(), 2 * (tl.M() + MICRO));
  }

  lemma SmallerProduct(x: int, y: int, m: int, bound: int)
    requires x <= y && m > 0 && y * m <= bound
    ensures x * m <= bound
  {
    assert (y - x) * m >= 0;
  }

  /** Two microseconds are at most 2 (1 + 10^6 / M) micro-beats. */
  lemma TwoMicros(tl: Timeline, time: int)
    requires tl.Valid()
    ensures (tl.ToBeats(time + 1) - tl.ToBeats(time - 1)) * tl.M() <= 2 * (tl.M() + MICRO)
  {
    hide Tempo.MicrosPerBeat, Round;
    var m, w := tl.M(), time - tl.timeOrigin;
    var a, b := Scale(w + 1, MICRO, m), Scale(w - 1, MICRO, m);
    RoundError((w + 1) * MICRO, m);
    RoundError((w - 1) * MICRO, m);
    Distribute(a, -b, m);
  }

  /** Without a quantum a forced beat is met exactly, by the beat's magnitude alone. */
  lemma ForcedWithoutQuantum(tl: Timeline, beat: int, time: int)
    requires tl.Valid()
    ensures ForceBeatAtTime(tl, beat, time, 0) == tl.(beatOrigin := tl.beatOrigin + beat - tl.ToBeats(time))
    ensures BeatAtTime(ForceBeatAtTime(tl, beat, time, 0), time, 0) == beat
  {
    hide Scale, Tempo.MicrosPerBeat, ClosestPhaseMatch;
    var cur := tl.ToBeats(time);
    NoQuantum(cur, cur - tl.beatOrigin);
    NoQuantum(cur, beat);
    var forced := tl.(beatOrigin := tl.beatOrigin + beat - cur);
    assert ForceBeatAtTimeImpl(tl, beat, time, 0) == forced;
    NoQuantum(beat, beat - forced.beatOrigin);
  }

  // ---------------------------------------------------------------- requesting a beat

  /** The encoded beat n falls at the time of the micro-beat that it encodes. */
  lemma TimeOfEncoded(tl: Timeline, n: int, quantum: int)
    requires tl.Valid() && quantum >= 0
    ensures FromPhaseEncodedBeats(tl, n, quantum) == tl.FromBeats(n - EncodingOffset(tl.beatOrigin, quantum))
  {
    hide DecodedBeat, ClosestPhaseMatch, HalfQuantum, NextPhaseMatch;
    var v := n - EncodingOffset(tl.beatOrigin, quantum);
    if quantum == 0 { NoQuantum(v, v - tl.beatOrigin); } else { EncodeStep(v, tl.beatOrigin, quantum); }
    DecodeEncode(tl.beatOrigin, v, quantum);
  }

  /** The time is that of the next beat in phase, to (1 + 10^6 / M) / 2 micro-beats and exactly up
      to 60 bpm, and not before the requested time but for the rounding. */
  lemma RequestedTimeIsInPhase(tl: Timeline, beat: int, time: int, quantum: int)
    requires tl.Valid() && quantum >= 0
    ensures var next, at := NextPhaseMatch(BeatAtTime(tl, time, quantum), beat, quantum),
                RequestedTime(tl, beat, time, quantum);
            && 2 * (Abs(BeatAtTime(tl, at, quantum) - next) * tl.M()) <= tl.M() + MICRO
            && (tl.M() >= MICRO ==> BeatAtTime(tl, at, quantum) == next)
            && 2 * MICRO * (time - at) <= tl.M() + MICRO
            && (tl.M() <= MICRO ==> time <= at)
  {
    hide Scale, Tempo.MicrosPerBeat, BeatAtTime, FromPhaseEncodedBeats, EncodingOffset, NextPhaseMatch;
    var cur := BeatAtTime(tl, time, quantum);
    var next, at := NextPhaseMatch(cur, beat, quantum), RequestedTime(tl, beat, time, quantum);
    var v := tl.ToBeats(time) + (next - cur);
    NextPhaseMatchIsLeast(cur, beat, quantum);
    EncodedIs(tl, time, quantum);
    EncodedIs(tl, at, quantum);
    TimeOfEncoded(tl, next, quantum);
    assert at == tl.FromBeats(v);
    ThereAndBackError(v - tl.beatOrigin, tl.M(), MICRO);
    TimeRoundTripError(tl, time);
    FromBeatsMonotone(tl, tl.ToBeats(time), v);
    if tl.M() <= MICRO { TimeRoundTripExact(tl); }
  }

  lemma FromBeatsMonotone(tl: Timeline, b: int, c: int)
    requires tl.Valid() && b <= c
    ensures tl.FromBeats(b) <= tl.FromBeats(c)
  {
    ScaleMonotone(b - tl.beatOrigin, c - tl.beatOrigin, tl.M(), MICRO);
  }

  /** The match found is at most a micro-beat farther than any other of that phase. */
  lemma ClosestMatchNear(x: int, target: int, quantum: int, y: int)
    requires quantum >= 0 && Phase(y, quantum) == Phase(target, quantum)
    ensures Abs(ClosestPhaseMatch(x, target, quantum) - x) <= Abs(y - x) + 1
  {
    if quantum == 0 {
      NoQuantum(x, target);
    } else {
      hide ClosestPhaseMatch, Phase;
      var r := ClosestPhaseMatch(x, target, quantum);
      ClosestMatchStep(x, target, quantum);
      NextPhaseMatchIsLeast(x - HalfQuantum(quantum), target, quantum);
      SamePhaseApart(r, quantum);
    }
  }

  /** How far one force moves the time origin, given any beat of the requested phase. */
  lemma ForceMoves(tl: Timeline, beat: int, time: int, quantum: int, y: int)
    requires tl.Valid() && quantum >= 0 && Phase(y, quantum) == Phase(beat, quantum)
    ensures MICRO * Abs(ForceBeatAtTimeImpl(tl, beat, time, quantum).timeOrigin - tl.timeOrigin)
         <= (Abs(y - BeatAtTime(tl, time, quantum)) + 1) * tl.M() + MICRO
  {
    hide Round, Tempo.MicrosPerBeat, ClosestPhaseMatch, ToPhaseEncodedBeats, Phase;
    var m, o, cur := tl.M(), tl.beatOrigin, BeatAtTime(tl, time, quantum);
    var s := ClosestPhaseMatch(cur, beat, quantum) - cur;
    ClosestMatchNear(cur, beat, quantum, y);
    RoundError((s - o) * m, MICRO);
    RoundError(-o * m, MICRO);
    Distribute(s, -o, m);
    assert ForceBeatAtTimeImpl(tl, beat, time, quantum).timeOrigin
        == tl.timeOrigin - (Scale(s - o, m, MICRO) - Scale(-o, m, MICRO));
    SmallerProduct(Abs(s), Abs(y - cur) + 1, m, (Abs(y - cur) + 1) * m);
    AbsProduct(s, m);
  }

  lemma AbsProduct(s: int, m: int)
    requires m > 0
    ensures Abs(s * m) == Abs(s) * m
  {
  }

  /** Nor does the second force move it far: by then the beat at the time is near the one
      requested. */
  lemma ForcedAgainMoves(tl: Timeline, beat: int, time: int, quantum: int)
    requires tl.Valid() && quantum >= 0
    ensures var once := ForceBeatAtTimeImpl(tl, beat, time, quantum);
            MICRO * Abs(ForceBeatAtTimeImpl(once, beat, time + 1, quantum).timeOrigin - once.timeOrigin)
            <= 3 * (tl.M() + MICRO)
  {
    hide ForceBeatAtTimeImpl, BeatAtTime, ShiftClientTimeline, Timeline.ToBeats, Timeline.M, Phase, ClosestPhaseMatch;
    var once := ForceBeatAtTimeImpl(tl, beat, time, quantum);
    var cur := BeatAtTime(tl, time, quantum);
    var shift := ClosestPhaseMatch(cur, beat, quantum) - cur;
    var after := BeatAtTime(once, time + 1, quantum);
    Forced(tl, beat, time, quantum, time + 1);
    ShiftWithinMicro(tl, shift, time + 1);
    TwoMicros(tl, time + 1);
    SmallerProduct(after - beat, tl.ToBeats(time + 2) - tl.ToBeats(time), tl.M(), 2 * (tl.M() + MICRO));
    SameTempo(tl, beat, time, quantum);
    ForceMoves(once, beat, time + 1, quantum, beat);
    Distribute(after - beat, 1, tl.M());
  }

  /** A beat forced where the timeline is all but in phase with it moves the time origin, and with
      it the session's beat zero, by at most 4.5 (M / 10^6 + 1) microseconds. */
  lemma InPhaseForceMoves(tl: Timeline, beat: int, time: int, quantum: int, near: int)
    requires tl.Valid() && quantum >= 0 && Phase(near, quantum) == Phase(beat, quantum)
    requires 2 * (Abs(BeatAtTime(tl, time, quantum) - near) * tl.M()) <= tl.M() + MICRO
    ensures 2 * MICRO * Abs(ForceBeatAtTime(tl, beat, time, quantum).timeOrigin - tl.timeOrigin)
         <= 9 * (tl.M() + MICRO)
  {
    hide ForceBeatAtTimeImpl, BeatAtTime, Timeline.M, Phase, ToPhaseEncodedBeats;
    ForceMoves(tl, beat, time, quantum, near);
    Distribute(Abs(near - BeatAtTime(tl, time, quantum)), 1, tl.M());
    ForcedAgainMoves(tl, beat, time, quantum);
  }

  /** Requesting a beat with the quantum respected has it not exceeded at the time chosen, and all
      but leaves the phase of the timeline alone. */
  lemma RequestKeepsPhase(tl: Timeline, beat: int, time: int, quantum: int)
    requires tl.Valid() && quantum >= 0
    ensures var r, at := RequestBeatAtTime(tl, beat, time, quantum, true), RequestedTime(tl, beat, time, quantum);
            && r.tempo == tl.tempo
            && 2 * MICRO * Abs(r.timeOrigin - tl.timeOrigin) <= 9 * (tl.M() + MICRO)
            && BeatAtTime(r, at, quantum) <= beat
            && (beat - BeatAtTime(r, at, quantum)) * tl.M() <= 2 * (tl.M() + MICRO)
  {
    hide BeatAtTime, Timeline.M, Phase, RequestedTime, NextPhaseMatch, ClosestPhaseMatch, ShiftClientTimeline;
    var at := RequestedTime(tl, beat, time, quantum);
    var cur := BeatAtTime(tl, time, quantum);
    NextPhaseMatchIsLeast(cur, beat, quantum);
    RequestedTimeIsInPhase(tl, beat, time, quantum);
    InPhaseForceMoves(tl, beat, at, quantum, NextPhaseMatch(cur, beat, quantum));
    ForcedBeatIsNotExceeded(tl, beat, at, quantum);
    ForceKeepsTempo(tl, beat, at, quantum);
  }

  /** Without it respected the beat is had at the very time asked for. */
  lemma RequestAlone(tl: Timeline, beat: int, time: int, quantum: int)
    requires tl.Valid() && quantum >= 0
    ensures var forced := BeatAtTime(RequestBeatAtTime(tl, beat, time, quantum, false), time, quantum);
            forced <= beat && (beat - forced) * tl.M() <= 2 * (tl.M() + MICRO)
  {
    hide BeatAtTime, Timeline.M, ForceBeatAtTime;
    ForcedBeatIsNotExceeded(tl, beat, time, quantum);
  }

  lemma ForceKeepsTempo(tl: Timeline, beat: int, time: int, quantum: int)
    requires tl.Valid()
    ensures ForceBeatAtTime(tl, beat, time, quantum).tempo == tl.tempo
  {
  }

  /** So a client that follows its session and requests a beat moves the session's beat zero by no
      more than that. */
  lemma RequestKeepsSessionPhase(
    session: Timeline, client: Timeline, xform: GhostXForm, beat: int, time: int, quantum: int, later: int)
    requires session.Valid() && client.Valid() && quantum >= 0
    requires client.tempo == session.tempo && xform.HostToGhost(client.timeOrigin) == session.FromBeats(0)
    ensures var r := RequestBeatAtTime(client, beat, time, quantum, true);
            var s := UpdateSessionTimelineFromClient(session, r, later, xform);
            && s.tempo == session.tempo
            && 2 * MICRO * Abs(s.FromBeats(0) - session.FromBeats(0)) <= 9 * (session.M() + MICRO)
  {
    hide RequestBeatAtTime, UpdateSessionTimelineFromClient, Timeline.FromBeats, Tempo.MicrosPerBeat;
    RequestKeepsPhase(client, beat, time, quantum);
    KeptOrTaken(session, RequestBeatAtTime(client, beat, time, quantum, true), later, xform);
  }

  lemma KeptOrTaken(session: Timeline, client: Timeline, later: int, xform: GhostXForm)
    requires session.Valid() && client.Valid() && client.tempo == session.tempo
    ensures var s := UpdateSessionTimelineFromClient(session, client, later, xform);
            s == session || (s.tempo == session.tempo && s.FromBeats(0) == xform.HostToGhost(client.timeOrigin))
  {
    hide Timeline.ToBeats, Timeline.FromBeats;
    if session.ToBeats(xform.HostToGhost(client.timeOrigin)) != 0 {
      ClientChangeTakesEffect(session, client, later, later, xform);
    }
  }

  // ---------------------------------------------------------------- setting the tempo

  /** Setting the tempo keeps the beat at that time to (1 + 10^6 / M) / 2 micro-beats at the new
      tempo, and exactly if that is at most 60 bpm. */
  lemma SetTempoKeepsBeat(tl: Timeline, tempo: Tempo, atTime: int)
    requires tl.Valid()
    ensures var r := SetTempo(tl, tempo, atTime);
            && 2 * (Abs(r.ToBeats(atTime) - tl.ToBeats(atTime)) * r.M()) <= r.M() + MICRO
            && (r.M() >= MICRO ==> r.ToBeats(atTime) == tl.ToBeats(atTime))
  {
    hide Scale, Tempo.MicrosPerBeat;
    var r := SetTempo(tl, tempo, atTime);
    var d := tl.beatOrigin - tl.ToBeats(atTime);
    ScaleOdd(Scale(d, r.M(), MICRO), MICRO, r.M());
    ThereAndBackError(d, r.M(), MICRO);
  }

  /** It moves neither the beat origin nor, beyond that rounding, the phase-encoded beat, whatever
      the quantum: the bar goes on where it was. */
  lemma SetTempoKeepsPhase(tl: Timeline, tempo: Tempo, atTime: int, quantum: int)
    requires tl.Valid() && quantum >= 0
    ensures var r := SetTempo(tl, tempo, atTime);
            var before, after := BeatAtTime(tl, atTime, quantum), BeatAtTime(r, atTime, quantum);
            && r.tempo == tempo.Clamp() && r.beatOrigin == tl.beatOrigin
            && 2 * (Abs(after - before) * r.M()) <= r.M() + MICRO
            && (r.M() >= MICRO ==> after == before && Phase(after, quantum) == Phase(before, quantum))
  {
    hide Scale, Tempo.MicrosPerBeat, EncodingOffset, BeatAtTime;
    SetTempoKeepsBeat(tl, tempo, atTime);
    EncodedIs(tl, atTime, quantum);
    EncodedIs(SetTempo(tl, tempo, atTime), atTime, quantum);
  }
}
