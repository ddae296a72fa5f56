/** How a client's timeline follows the session's, and the session's the client's. */
module ClientSessionTimelines {
  import opened Rounding
  import opened Timelines
  import opened Phases

  function UpdateClientTimelineFromSession(
    curClient: Timeline, session: Timeline, atTime: int, xform: GhostXForm): (r: Timeline)
    requires curClient.Valid() && session.Valid()
    ensures r.tempo == session.tempo
  {
    var tempTl := Timeline(session.tempo, curClient.ToBeats(atTime), atTime);
    var hostBeatZero := xform.GhostToHost(session.FromBeats(0));
    Timeline(tempTl.tempo, tempTl.ToBeats(hostBeatZero), hostBeatZero)
  }

  function UpdateSessionTimelineFromClient(
    curSession: Timeline, client: Timeline, atTime: int, xform: GhostXForm): (r: Timeline)
    requires curSession.Valid() && client.Valid()
    ensures r == curSession || r.tempo == client.tempo
  {
    var ghostBeat0 := xform.HostToGhost(client.timeOrigin);
    if curSession.ToBeats(ghostBeat0) == 0 && client.tempo == curSession.tempo then
      curSession
    else
      var tempTl := Timeline(client.tempo, 0, ghostBeat0);
      var atBeat := curSession.ToBeats(xform.HostToGhost(atTime));
      var newBeatOrigin := if atBeat < curSession.beatOrigin + 1 then curSession.beatOrigin + 1 else atBeat;
      Timeline(client.tempo, newBeatOrigin, tempTl.FromBeats(newBeatOrigin))
  }

  function ShiftClientTimeline(client: Timeline, shift: int): Timeline
    requires client.Valid()
  {
    var timeDelta := client.FromBeats(shift) - client.FromBeats(0);
    client.(timeOrigin := client.timeOrigin - timeDelta)
  }

  // ---------------------------------------------------------------- session to client

  /** The client's beat does not jump at the update, and the new timeline is anchored
      at the host time of the session's beat 0. */
  lemma ClientIsContinuous(curClient: Timeline, session: Timeline, atTime: int, xform: GhostXForm)
    requires curClient.Valid() && session.Valid()
    ensures var r := UpdateClientTimelineFromSession(curClient, session, atTime, xform);
            && r.ToBeats(atTime) == curClient.ToBeats(atTime)
            && xform.HostToGhost(r.timeOrigin) == session.FromBeats(0)
  {
    ScaleOdd(atTime - xform.GhostToHost(session.FromBeats(0)), MICRO, session.M());
  }

  /** From that moment the client advances at the session's tempo: by one micro-beat more or less
      than the time since takes. */
  lemma ClientKeepsPace(curClient: Timeline, session: Timeline, atTime: int, xform: GhostXForm, time: int)
    requires curClient.Valid() && session.Valid()
    ensures var r := UpdateClientTimelineFromSession(curClient, session, atTime, xform);
            Abs((r.ToBeats(time) - curClient.ToBeats(atTime)) * session.M() - (time - atTime) * MICRO) <= session.M()
  {
    hide Tempo.MicrosPerBeat;
    var r := UpdateClientTimelineFromSession(curClient, session, atTime, xform);
    ClientIsContinuous(curClient, session, atTime, xform);
    PaceIs(r, atTime, time);
  }

  /** Between two times a timeline advances at its tempo, but for the rounding at both. */
  lemma PaceIs(tl: Timeline, t: int, u: int)
    requires tl.Valid()
    ensures Abs((tl.ToBeats(u) - tl.ToBeats(t)) * tl.M() - (u - t) * MICRO) <= tl.M()
  {
    hide Round, Tempo.MicrosPerBeat;
    var m := tl.M();
    RoundError((t - tl.timeOrigin) * MICRO, m);
    RoundError((u - tl.timeOrigin) * MICRO, m);
    var a, b := MicrosToBeats(m, u - tl.timeOrigin), MicrosToBeats(m, t - tl.timeOrigin);
    Distribute(a, -b, m);
  }

  /** Deriving the client timeline again from the same session changes nothing. */
  lemma UpdateIsIdempotent(
    curClient: Timeline, session: Timeline, first: int, second: int, xform: GhostXForm)
    requires curClient.Valid() && session.Valid()
    ensures var once := UpdateClientTimelineFromSession(curClient, session, first, xform);
            UpdateClientTimelineFromSession(once, session, second, xform) == once
  {
    ScaleOdd(second - xform.GhostToHost(session.FromBeats(0)), MICRO, session.M());
  }

  /** Peers that derive their clients from session timelines with one beat length and one pair
      of origins agree on the phase at every ghost time and for every quantum, whatever their
      earlier timelines, the moments at which they took the session over, and their clocks. */
  lemma PeersShareThePhase(
    ghostTime: int, quantum: int,
    sessionA: Timeline, clientA: Timeline, atA: int, xformA: GhostXForm,
    sessionB: Timeline, clientB: Timeline, atB: int, xformB: GhostXForm)
    requires sessionA.Valid() && clientA.Valid() && sessionB.Valid() && clientB.Valid() && quantum >= 0
    requires sessionA.M() == sessionB.M() && sessionA.FromBeats(0) == sessionB.FromBeats(0)
    ensures var a := UpdateClientTimelineFromSession(clientA, sessionA, atA, xformA);
            var b := UpdateClientTimelineFromSession(clientB, sessionB, atB, xformB);
            Phase(ToPhaseEncodedBeats(a, xformA.GhostToHost(ghostTime), quantum), quantum)
            == Phase(ToPhaseEncodedBeats(b, xformB.GhostToHost(ghostTime), quantum), quantum)
  {
    var a := UpdateClientTimelineFromSession(clientA, sessionA, atA, xformA);
    var b := UpdateClientTimelineFromSession(clientB, sessionB, atB, xformB);
    AnchoredPhase(ghostTime, quantum, a, xformA, b, xformB);
  }

  /** The phase depends on the beat length and the ghost time of the time origin alone. */
  lemma AnchoredPhase(
    ghostTime: int, quantum: int, a: Timeline, xformA: GhostXForm, b: Timeline, xformB: GhostXForm)
    requires a.Valid() && b.Valid() && quantum >= 0
    requires a.M() == b.M() && xformA.HostToGhost(a.timeOrigin) == xformB.HostToGhost(b.timeOrigin)
    ensures Phase(ToPhaseEncodedBeats(a, xformA.GhostToHost(ghostTime), quantum), quantum)
            == Phase(ToPhaseEncodedBeats(b, xformB.GhostToHost(ghostTime), quantum), quantum)
  {
    var hostA, hostB := xformA.GhostToHost(ghostTime), xformB.GhostToHost(ghostTime);
    EncodedPhase(a, hostA, quantum);
    EncodedPhase(b, hostB, quantum);
    assert hostA - a.timeOrigin == hostB - b.timeOrigin;
  }

  // ---------------------------------------------------------------- runs of updates

  /** One update that the session imposes on the client. */
  datatype Update = Update(session: Timeline, time: int, xform: GhostXForm)

  ghost predicate ValidRun(updates: seq<Update>) {
    && (forall i :: 0 <= i < |updates| ==> updates[i].session.Valid())
    && (forall i, j :: 0 <= i < j < |updates| ==> updates[i].time <= updates[j].time)
  }

  ghost function ClientAfter(client: Timeline, updates: seq<Update>): (r: Timeline)
    requires client.Valid() && ValidRun(updates)
    ensures r.Valid()
  {
    if updates == [] then client else
      var u := updates[|updates| - 1];
      UpdateClientTimelineFromSession(ClientAfter(client, updates[..|updates| - 1]), u.session, u.time, u.xform)
  }

  /** The client timeline in force at a time: the one that the last update up to then left. */
  ghost function InForce(client: Timeline, updates: seq<Update>, time: int): (r: Timeline)
    requires client.Valid() && ValidRun(updates)
    ensures r.Valid()
    ensures updates == [] || updates[|updates| - 1].time <= time ==> r == ClientAfter(client, updates)
  {
    if updates == [] || updates[|updates| - 1].time <= time then ClientAfter(client, updates)
    else InForce(client, updates[..|updates| - 1], time)
  }

  /** Through any run of updates at non-decreasing times the client's beat never goes
      back. */
  lemma {:induction false} BeatsNeverGoBack(client: Timeline, updates: seq<Update>, t: int, u: int)
    requires client.Valid() && ValidRun(updates) && t <= u
    ensures InForce(client, updates, t).ToBeats(t) <= InForce(client, updates, u).ToBeats(u)
    decreases |updates|
  {
    if updates == [] {
      ToBeatsMonotone(client, t, u);
    } else {
      var last := updates[|updates| - 1];
      var before := updates[..|updates| - 1];
      var old', new' := ClientAfter(client, before), ClientAfter(client, updates);
      if last.time <= t {
        ToBeatsMonotone(new', t, u);
      } else if u < last.time {
        BeatsNeverGoBack(client, before, t, u);
      } else {
        BeatsNeverGoBack(client, before, t, last.time);
        assert InForce(client, before, last.time) == old';
        ClientIsContinuous(old', last.session, last.time, last.xform);
        ToBeatsMonotone(new', last.time, u);
      }
    }
  }

  // ---------------------------------------------------------------- client to session

  /** A client change that alters the session outranks it, puts beat 0 at the client's
      time origin, and maps back to the very client timeline at every time. */
  lemma ClientChangeTakesEffect(
    curSession: Timeline, client: Timeline, atTime: int, later: int, xform: GhostXForm)
    requires curSession.Valid() && client.Valid()
    requires client.tempo != curSession.tempo || curSession.ToBeats(xform.HostToGhost(client.timeOrigin)) != 0
    ensures var s := UpdateSessionTimelineFromClient(curSession, client, atTime, xform);
            && s.beatOrigin > curSession.beatOrigin
            && s.beatOrigin >= curSession.ToBeats(xform.HostToGhost(atTime))
            && (s.beatOrigin == curSession.beatOrigin + 1
                || s.beatOrigin == curSession.ToBeats(xform.HostToGhost(atTime)))
            && s.FromBeats(0) == xform.HostToGhost(client.timeOrigin)
            && UpdateClientTimelineFromSession(client, s, later, xform) == client
  {
    var s := UpdateSessionTimelineFromClient(curSession, client, atTime, xform);
    ScaleOdd(s.beatOrigin, client.M(), MICRO);
    ScaleOdd(later - client.timeOrigin, MICRO, client.M());
  }

  /** The session is at beat 0 at some microsecond. */
  ghost predicate HitsBeatZero(session: Timeline)
    requires session.Valid()
  {
    exists time :: session.ToBeats(time) == 0
  }

  /** A client change of the beat's magnitude alone, which keeps the derived timeline's tempo
      and time origin, leaves the session alone exactly when the session is at beat 0 at some
      microsecond; otherwise it replaces the session by one that outranks it. */
  lemma RenumberedClientKeepsSession(session: Timeline, client: Timeline, later: int, xform: GhostXForm)
    requires session.Valid() && client.Valid()
    requires client.tempo == session.tempo && xform.HostToGhost(client.timeOrigin) == session.FromBeats(0)
    ensures var s := UpdateSessionTimelineFromClient(session, client, later, xform);
            && (s == session <==> HitsBeatZero(session))
            && (s != session ==> s.beatOrigin > session.beatOrigin)
  {
    BeatZeroOnMicro(session);
    if session.ToBeats(session.FromBeats(0)) != 0 {
      ClientChangeTakesEffect(session, client, later, later, xform);
    }
  }

  /** Beat 0 survives the conversion to time and back if any microsecond is at it. */
  lemma BeatZeroOnMicro(session: Timeline)
    requires session.Valid()
    ensures session.ToBeats(session.FromBeats(0)) == 0 <==> HitsBeatZero(session)
  {
    hide Timeline.ToBeats, Timeline.FromBeats, Timeline.M;
    if session.M() <= MICRO { TimeRoundTripExact(session); } else { BeatRoundTripExact(session); }
  }

  /** So it holds whatever the beat origin exactly for tempos up to 60 bpm. */
  lemma RenumberedClientKeepsEverySession(session: Timeline)
    requires session.Valid()
    ensures (forall origin :: HitsBeatZero(session.(beatOrigin := origin))) <==> session.M() >= MICRO
  {
    hide HitsBeatZero;
    var m := session.M();
    ThereAndBackExact(m, MICRO);
    if forall origin :: HitsBeatZero(session.(beatOrigin := origin)) {
      forall x ensures Scale(Scale(x, m, MICRO), MICRO, m) == x { BeatZeroOnMicro(session.(beatOrigin := -x)); }
    }
    if m >= MICRO {
      forall origin ensures HitsBeatZero(session.(beatOrigin := origin)) {
        assert Scale(Scale(-origin, m, MICRO), MICRO, m) == -origin;
        BeatZeroOnMicro(session.(beatOrigin := origin));
      }
    }
  }

  /** At 120 bpm, with the beat origin one micro-beat after beat 0, whatever the client calls
      the beat. */
  lemma RenumberedClientReplacesSession(beats: int)
    ensures var session := Timeline(Tempo(120.0), 1, 0);
            var derived := UpdateClientTimelineFromSession(session, session, 0, GhostXForm(0));
            UpdateSessionTimelineFromClient(session, derived.(beatOrigin := beats), 0, GhostXForm(0)) != session
  {
    hide HitsBeatZero;
    var session := Timeline(Tempo(120.0), 1, 0);
    LlRoundIs(500000.0, 500000);
    assert session.M() == 500000;
    RoundIs(-1 * 500000, MICRO, -1);
    assert session.FromBeats(0) == -1;
    RoundIs(-1 * MICRO, 500000, -2);
    assert session.ToBeats(-1) == -1;
    BeatZeroOnMicro(session);
    ClientIsContinuous(session, session, 0, GhostXForm(0));
    var derived := UpdateClientTimelineFromSession(session, session, 0, GhostXForm(0));
    RenumberedClientKeepsSession(session, derived.(beatOrigin := beats), 0, GhostXForm(0));
  }

  // ---------------------------------------------------------------- shifting

  /** A shifted timeline is off the documented value by at most 1 + 10^6 / M. */
  lemma ShiftError(client: Timeline, shift: int, time: int)
    requires client.Valid()
    ensures var off := ShiftClientTimeline(client, shift).ToBeats(time) - (client.ToBeats(time) + shift);
            Abs(off * client.M()) <= client.M() + MICRO
  {
    hide Round, Tempo.MicrosPerBeat;
    var m, u := client.M(), time - client.timeOrigin;
    var origin := client.beatOrigin;
    var d := BeatsToMicros(m, shift - origin) - BeatsToMicros(m, -origin);
    var r0, r1 := MicrosToBeats(m, u), MicrosToBeats(m, u + d);
    assert ShiftClientTimeline(client, shift).ToBeats(time) == origin + r1;
    RoundError((shift - origin) * m, MICRO);
    RoundError(-origin * m, MICRO);
    RoundError(u * MICRO, m);
    RoundError((u + d) * MICRO, m);
    Distribute(shift, -origin, m);
    Distribute(r1, -r0, m);
    Distribute(r1 - r0, -shift, m);
  }

  ghost predicate ShiftsExactly(client: Timeline)
    requires client.Valid()
  {
    forall shift, time :: ShiftClientTimeline(client, shift).ToBeats(time) == client.ToBeats(time) + shift
  }

  /** The documented equality holds for all shifts and times exactly when a beat lasts
      an odd number of seconds: at 60 bpm and at 20 bpm in the Link range. */
  lemma ShiftExactly(client: Timeline)
    requires client.Valid()
    ensures ShiftsExactly(client) <==> client.M() % MICRO == 0 && (client.M() / MICRO) % 2 == 1
  {
    if ShiftsExactly(client) { ExactShiftPeriod(client); }
    if client.M() % MICRO == 0 && (client.M() / MICRO) % 2 == 1 { OddSecondsShiftExactly(client); }
  }

  /** At 120 bpm a shift by one micro-beat, half a microsecond, shifts by two. */
  lemma ShiftMissed(client: Timeline)
    requires client == Timeline(Tempo(120.0), 0, 0)
    ensures ShiftClientTimeline(client, 1).ToBeats(0) == client.ToBeats(0) + 2
  {
    hide Scale, Tempo.MicrosPerBeat;
    HalfSecondBeats(client);
    HalfMicrosecond();
  }

  lemma HalfSecondBeats(tl: Timeline)
    requires tl.tempo == Tempo(120.0)
    ensures tl.M() == 500000
  {
  }

  /** At half a second to the beat. */
  lemma HalfMicrosecond()
    ensures Scale(1, 500000, MICRO) == 1 && Scale(0, 500000, MICRO) == 0
    ensures Scale(1, MICRO, 500000) == 2 && Scale(0, MICRO, 500000) == 0
  {
    RoundIs(500000, MICRO, 1);
    RoundMultiple(2, 500000);
  }

  lemma ExactShiftPeriod(client: Timeline)
    requires client.Valid() && ShiftsExactly(client)
    ensures client.M() % MICRO == 0 && (client.M() / MICRO) % 2 == 1
  {
    hide Scale, Tempo.MicrosPerBeat;
    var m := client.M();
    var d := client.FromBeats(1) - client.FromBeats(0);
    forall u, v | v == u + d ensures MicrosToBeats(m, v) == MicrosToBeats(m, u) + 1 {
      assert ShiftClientTimeline(client, 1).ToBeats(client.timeOrigin + u) == client.ToBeats(client.timeOrigin + u) + 1;
    }
    Periods(m, d, m);
    PeriodIs(m, d);
    if d % 2 == 0 {
      assert MicrosToBeats(m, d / 2) == MicrosToBeats(m, -(d / 2)) + 1;
      HalfwayRounds(m, d / 2);
    }
  }

  lemma HalfwayRounds(m: int, half: int)
    requires half > 0 && m == 2 * half * MICRO
    ensures MicrosToBeats(m, half) == 1 && MicrosToBeats(m, -half) == -1
  {
    RoundIs(-half * MICRO, m, -1);
    RoundIs(half * MICRO, m, 1);
  }

  lemma OddSecondsShiftExactly(client: Timeline)
    requires client.Valid() && client.M() % MICRO == 0 && (client.M() / MICRO) % 2 == 1
    ensures ShiftsExactly(client)
  {
    var k := client.M() / MICRO;
    forall shift, time ensures ShiftClientTimeline(client, shift).ToBeats(time) == client.ToBeats(time) + shift {
      WholeSeconds(shift - client.beatOrigin, k);
      WholeSeconds(-client.beatOrigin, k);
      Distribute(shift, -client.beatOrigin, k);
      OddSecondsShift(time - client.timeOrigin, shift, k);
    }
  }

  lemma WholeSeconds(b: int, k: int)
    requires k > 0
    ensures BeatsToMicros(k * MICRO, b) == b * k
  {
    assert b * (k * MICRO) == b * k * MICRO;
    RoundMultiple(b * k, MICRO);
  }

  /** With an odd number of seconds to the beat no time falls halfway between beats. */
  lemma OddSecondsIs(u: int, k: int, r: int)
    requires k > 0 && k % 2 == 1
    ensures MicrosToBeats(k * MICRO, u) == r <==> -k < 2 * (u - r * k) < k
  {
    assert r * (k * MICRO) == r * k * MICRO;
    RoundIs(u * MICRO, k * MICRO, r);
  }

  lemma OddSecondsShift(u: int, shift: int, k: int)
    requires k > 0 && k % 2 == 1
    ensures MicrosToBeats(k * MICRO, u + shift * k) == MicrosToBeats(k * MICRO, u) + shift
  {
    var r := MicrosToBeats(k * MICRO, u);
    OddSecondsIs(u, k, r);
    OddSecondsIs(u + shift * k, k, r + shift);
    assert (r + shift) * k == r * k + shift * k;
  }

  lemma PeriodIs(m: int, d: int)
    requires m > 0 && MicrosToBeats(m, m * d) == m
    ensures m == d * MICRO
  {
    var x := m - d * MICRO;
    RoundError(m * d * MICRO, m);
    assert m * m - m * d * MICRO == x * m;
    Distribute(0, -x, m);
    if x != 0 { MulAtLeast(Abs(x), m); }
  }

  lemma {:induction false} Periods(m: int, d: int, n: nat)
    requires m > 0
    requires forall u, v :: v == u + d ==> MicrosToBeats(m, v) == MicrosToBeats(m, u) + 1
    ensures MicrosToBeats(m, n * d) == n
  {
    if n == 0 {
      RoundMultiple(0, m);
    } else {
      Periods(m, d, n - 1);
      Distribute(n - 1, 1, d);
      assert MicrosToBeats(m, n * d) == MicrosToBeats(m, (n - 1) * d) + 1;
    }
  }
}
