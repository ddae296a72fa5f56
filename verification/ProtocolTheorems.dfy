/** What the session protocol promises over whole runs. */
module ProtocolTheorems {
  import opened Rounding
  import opened Timelines
  import opened Phases
  import opened ClientSessionTimelines
  import opened LinkProtocol
  import opened Wrappers

  // ---------------------------------------------------------------- the filter

  /** A sighting that the cache filters out could not have changed the registry; nor
      anything else, exactly if the controller agrees with its registry. */
  lemma FilterHidesNothing(l: Link, p: PeerState, addr: Addr, now: int, tellStartStop: bool)
    requires Inv(l) && TimelineCached(l.cache, p.session, p.timeline)
    ensures var told := Sighting(l, p, addr, now, true, tellStartStop);
            var filtered := Sighting(l, p, addr, now, false, tellStartStop);
            && told.registry == filtered.registry == l.registry && told.cache == filtered.cache
            && (told == filtered <==> Agree(l))
  {
    var k :| k in l.cache && l.cache[k].session == p.session && l.cache[k].timeline == p.timeline;
    assert SawSessionTimeline(l.registry, p.session, p.timeline) == l.registry;
    var told := Sighting(l, p, addr, now, true, tellStartStop);
    assert told.timeline == ClampTempo(l.registry.current.timeline);
  }

  /** The pending realtime timeline that a switch of session flushes, as the session
      timeline it turns into. */
  ghost predicate FlushesAtSwitch(l: Link, e: Event) {
    e.MeasurementDone? && SwitchesTo(l.registry, e.id, e.xform, e.hostTime) && l.pending.Some?
  }

  function Flushed(l: Link): ClampedTimeline
    requires l.pending.Some?
  {
    UpdateSessionTimelineFromClient(l.timeline, l.pending.value.1, l.pending.value.0, l.xform)
  }

  /** The switch flushes a pending change whose result is not the timeline joined. */
  ghost predicate LosesAgreement(l: Link, e: Event) {
    FlushesAtSwitch(l, e) && Flushed(l) != ClampTempo(l.registry.others[e.id].timeline)
  }

  /** Only such a switch makes the controller and its registry fall out of step. */
  lemma AgreeStep(l: Link, e: Event)
    requires Inv(l) && Agree(l)
    ensures Agree(Next(l, e)) <==> !LosesAgreement(l, e)
  {
    match e
    case MeasurementDone(id, xform, stamp, hostTime, flushed, now) => AgreeAfterMeasurement(l, e);
    case PeerSeen(p, addr, now) =>
      if TimelineCached(l.cache, p.session, p.timeline) {
        FilterHidesNothing(l, p, addr, now, !StartStopCached(l.cache, p.session, p.startStop));
      }
    case ClientHandled(tl, ss, now) => CoreHandleState(l, tl, ss, now);
    case RealtimeProcessed(now) => PendingCore(l, now);
    case _ =>
  }

  lemma AgreeAfterMeasurement(l: Link, e: Event)
    requires Inv(l) && Agree(l) && e.MeasurementDone?
    ensures Agree(Next(l, e)) <==> !LosesAgreement(l, e)
  {
    MeasuredOk(l, e.id, Measurement(e.xform, e.stamp), e.hostTime);
    if SwitchesTo(l.registry, e.id, e.xform, e.hostTime) {
      var registry := Measured(l.registry, e.id, Measurement(e.xform, e.stamp), e.hostTime);
      AfterFlush(l.(registry := registry, sessionId := e.id), e.flushed);
    }
  }

  /** A flush leaves the registry with the timeline flushed, if there is one. */
  lemma AfterFlush(l: Link, now: int)
    requires Core(l)
    ensures var l' := ProcessPending(l, now);
            && Core(l') && l'.xform == l.xform && l'.sessionId == l.sessionId
            && l'.registry.current.timeline == if l.pending.Some? then Flushed(l) else l.registry.current.timeline
  {
    PendingCore(l, now);
  }

  /** The controller agrees with its registry after every event of the run. */
  ghost predicate Agrees(l: Link, es: seq<Event>)
    decreases |es|
  {
    Agree(l) && (es == [] || Agrees(Next(l, es[0]), es[1..]))
  }

  /** A run without a switch that loses the agreement. */
  ghost predicate Calm(l: Link, es: seq<Event>)
    decreases |es|
  {
    es == [] || (!LosesAgreement(l, es[0]) && Calm(Next(l, es[0]), es[1..]))
  }

  lemma {:induction false} CalmRunsAgree(l: Link, es: seq<Event>)
    requires Inv(l) && Agree(l)
    ensures Agrees(l, es) <==> Calm(l, es)
    decreases |es|
  {
    if es != [] {
      InvStep(l, es[0]);
      AgreeStep(l, es[0]);
      if Agree(Next(l, es[0])) {
        CalmRunsAgree(Next(l, es[0]), es[1..]);
      }
    }
  }

  /** The start/stop state of a sighting is news to the controller. */
  predicate IsNews(l: Link, p: PeerState) {
    p.session == l.sessionId && p.startStop.timestamp > l.startStop.timestamp
  }

  /** No cached start/stop state of the current session is newer than the controller's. */
  ghost predicate NoNewerCached(l: Link) {
    forall k :: k in l.cache && l.cache[k].session == l.sessionId
                ==> l.cache[k].startStop.timestamp <= l.startStop.timestamp
  }

  /** A sighting whose start/stop state is not filtered. */
  function ToldStartStop(l: Link, p: PeerState, addr: Addr, now: int): Link {
    Sighting(l, p, addr, now, !TimelineCached(l.cache, p.session, p.timeline), true)
  }

  /** That is exactly when no sighting has a start/stop state filtered out that would make a
      difference. */
  lemma StartStopFilterHidesNothing(l: Link)
    ensures NoNewerCached(l)
       <==> forall p: PeerState, addr, now :: SawPeer(l, p, addr, now) == ToldStartStop(l, p, addr, now)
  {
    if NoNewerCached(l) {
      forall p: PeerState, addr, now ensures SawPeer(l, p, addr, now) == ToldStartStop(l, p, addr, now) {
        NoNewsCached(l, p);
        SightingsDiffer(l, p, addr, now, !TimelineCached(l.cache, p.session, p.timeline));
      }
    }
    if k :| k in l.cache && l.cache[k].session == l.sessionId
            && l.cache[k].startStop.timestamp > l.startStop.timestamp
    {
      var p := l.cache[k];
      assert StartStopCached(l.cache, p.session, p.startStop);
      SightingsDiffer(l, p, k.addr, 0, !TimelineCached(l.cache, p.session, p.timeline));
      assert SawPeer(l, p, k.addr, 0) != ToldStartStop(l, p, k.addr, 0);
    }
  }

  lemma NoNewsCached(l: Link, p: PeerState)
    requires NoNewerCached(l)
    ensures StartStopCached(l.cache, p.session, p.startStop) ==> !IsNews(l, p)
  {
  }

  /** Telling a start/stop state makes a difference exactly if it is news. */
  lemma SightingsDiffer(l: Link, p: PeerState, addr: Addr, now: int, tellTimeline: bool)
    ensures Sighting(l, p, addr, now, tellTimeline, true) == Sighting(l, p, addr, now, tellTimeline, false)
       <==> !IsNews(l, p)
    ensures IsNews(l, p) ==> Sighting(l, p, addr, now, tellTimeline, true).startStop
                             != Sighting(l, p, addr, now, tellTimeline, false).startStop
  {
  }

  /** A switch to a session of which a start/stop state is cached: the controller forgets its own,
      and the cache does not. */
  ghost predicate BringsNewer(l: Link, e: Event) {
    && e.MeasurementDone? && SwitchesTo(l.registry, e.id, e.xform, e.hostTime)
    && exists k :: k in l.cache && l.cache[k].session == e.id && l.cache[k].startStop.timestamp > 0
  }

  /** Only such a switch leaves a newer state in the cache. */
  lemma NoNewerStep(l: Link, e: Event)
    requires Inv(l) && NoNewerCached(l)
    ensures NoNewerCached(Next(l, e)) <==> !BringsNewer(l, e)
  {
    match e
    case PeerSeen(p, addr, now) => NewerAfterSighting(l, p, addr, now);
    case MeasurementDone(_, _, _, _, _, _) => NewerAfterMeasurement(l, e);
    case ClientHandled(tl, ss, now) => HandledKeepsStates(l, tl, ss, now);
    case RealtimeProcessed(now) => PendingKeepsStates(l, now);
    case _ =>
  }

  ghost predicate SameStates(c: Cache, d: Cache) {
    c.Keys == d.Keys && forall k :: k in c ==> c[k].session == d[k].session && c[k].startStop == d[k].startStop
  }

  lemma HandledKeepsStates(l: Link, tl: Option<(int, ClampedTimeline)>, ss: Option<ClientStartStop>, now: int)
    ensures var l' := HandleClientState(l, tl, ss, now);
            SameStates(l.cache, l'.cache) && l'.sessionId == l.sessionId
            && l'.startStop.timestamp >= l.startStop.timestamp
  {
  }

  lemma PendingKeepsStates(l: Link, now: int)
    ensures var l' := ProcessPending(l, now);
            SameStates(l.cache, l'.cache) && l'.sessionId == l.sessionId
            && l'.startStop.timestamp >= l.startStop.timestamp
  {
    hide HandleClientState;
    var client := SetClient(l, if l.pending.Some? then Some(l.pending.value.1) else None, l.pendingStartStop);
    var ss := if l.pendingStartStop.Some? then Some(client.clientStartStop) else None;
    HandledKeepsStates(client.(pending := None, pendingStartStop := None), l.pending, ss, now);
  }

  lemma NewerAfterSighting(l: Link, p: PeerState, addr: Addr, now: int)
    requires NoNewerCached(l)
    ensures NoNewerCached(SawPeer(l, p, addr, now))
  {
    hide UpdateSessionTiming;
    var cached := l.(cache := l.cache[PeerKey(p.ident, addr) := p]);
    TimingKeepsStates(cached.(registry := SawSessionTimeline(l.registry, p.session, p.timeline)),
                      SawSessionTimeline(l.registry, p.session, p.timeline).current.timeline, l.xform, now);
  }

  lemma TimingKeepsStates(l: Link, tl: Timeline, xform: GhostXForm, now: int)
    ensures var l' := UpdateSessionTiming(l, tl, xform, now);
            l'.cache == l.cache && l'.startStop == l.startStop && l'.sessionId == l.sessionId
  {
  }

  lemma NewerAfterMeasurement(l: Link, e: Event)
    requires Inv(l) && NoNewerCached(l) && e.MeasurementDone?
    ensures NoNewerCached(Next(l, e)) <==> !BringsNewer(l, e)
  {
    hide ProcessPending;
    var measured := l.(registry := Measured(l.registry, e.id, Measurement(e.xform, e.stamp), e.hostTime));
    MeasuredOk(l, e.id, Measurement(e.xform, e.stamp), e.hostTime);
    PendingKeepsStates(measured.(sessionId := e.id), e.flushed);
  }

  /** A run without such a switch. */
  ghost predicate BringsNothingNewer(l: Link, es: seq<Event>)
    decreases |es|
  {
    es == [] || (!BringsNewer(l, es[0]) && BringsNothingNewer(Next(l, es[0]), es[1..]))
  }

  /** Over a whole run of neither kind of switch the filtered machine is the unfiltered one. */
  lemma {:induction false} FilteredRunIsUnfiltered(l: Link, es: seq<Event>)
    requires Inv(l) && Agree(l) && NoNewerCached(l) && Calm(l, es) && BringsNothingNewer(l, es)
    ensures RunUnfiltered(l, es) == Run(l, es) && Agree(Run(l, es)) && NoNewerCached(Run(l, es))
    decreases |es|
  {
    if es != [] {
      hide Inv, Agree, Sighting, NoNewerCached;
      var e := es[0];
      InvStep(l, e);
      AgreeStep(l, e);
      NoNewerStep(l, e);
      FilterStep(l, e);
      if e.PeerSeen? { NoNewsCached(l, e.peer); }
      FilteredRunIsUnfiltered(Next(l, e), es[1..]);
    }
  }

  /** One event: the filter changes nothing exactly if the controller agrees where a timeline is
      filtered out, and no start/stop state that is is news. */
  lemma FilterStep(l: Link, e: Event)
    requires Inv(l)
    ensures NextUnfiltered(l, e) == Next(l, e)
       <==> (e.PeerSeen? ==> (TimelineCached(l.cache, e.peer.session, e.peer.timeline) ==> Agree(l))
                             && (StartStopCached(l.cache, e.peer.session, e.peer.startStop) ==> !IsNews(l, e.peer)))
  {
    if e.PeerSeen? {
      SightingsDiffer(l, e.peer, e.addr, e.now, true);
      SightingsDiffer(l, e.peer, e.addr, e.now, !TimelineCached(l.cache, e.peer.session, e.peer.timeline));
      if TimelineCached(l.cache, e.peer.session, e.peer.timeline) {
        FilterHidesNothing(l, e.peer, e.addr, e.now, true);
        FilterHidesNothing(l, e.peer, e.addr, e.now, false);
      }
    }
  }

  // ---------------------------------------------------------------- one session's timeline

  /** No event of the run resets the controller or moves it to another session. */
  ghost predicate Stays(l: Link, es: seq<Event>)
    decreases |es|
  {
    es == [] || (!es[0].Reset? && Next(l, es[0]).sessionId == l.sessionId && Stays(Next(l, es[0]), es[1..]))
  }

  /** The session's timeline does not outrank the one in the registry. */
  ghost predicate Below(l: Link) { l.timeline.beatOrigin <= l.registry.current.timeline.beatOrigin }

  /** A measurement that does not move the peer changes nothing of the session but its timing,
      and that only if it is the current session's. */
  lemma MeasuredStays(l: Link, e: Event)
    requires Inv(l) && e.MeasurementDone? && Next(l, e).sessionId == l.sessionId
    ensures var l' := Next(l, e);
            && l'.registry.current.timeline == l.registry.current.timeline && l'.startStop == l.startStop
            && l'.timeline == if e.id == l.sessionId then ClampTempo(l.registry.current.timeline) else l.timeline
  {
    MeasuredOk(l, e.id, Measurement(e.xform, e.stamp), e.hostTime);
  }

  /** A client's change never lowers the session's beat origin, and leaves agreement. */
  lemma ChangeOutranks(l: Link, tl: Option<(int, ClampedTimeline)>, ss: Option<ClientStartStop>, now: int)
    requires Core(l)
    ensures var l' := HandleClientState(l, tl, ss, now);
            && l'.timeline.beatOrigin >= l.timeline.beatOrigin
            && l'.startStop.timestamp >= l.startStop.timestamp
  {
    if tl.Some? {
      var (at, t) := tl.value;
      CoreHandleClient(l, t, at, now);
    }
  }

  lemma PendingOutranks(l: Link, now: int)
    requires Core(l)
    ensures var l' := ProcessPending(l, now);
            && l'.timeline.beatOrigin >= l.timeline.beatOrigin
            && l'.startStop.timestamp >= l.startStop.timestamp
  {
    hide HandleClientState;
    var client := SetClient(l, if l.pending.Some? then Some(l.pending.value.1) else None, l.pendingStartStop);
    var ss := if l.pendingStartStop.Some? then Some(client.clientStartStop) else None;
    ChangeOutranks(client.(pending := None, pendingStartStop := None), l.pending, ss, now);
  }

  lemma StayStep(l: Link, e: Event)
    requires Inv(l) && Below(l) && !e.Reset? && Next(l, e).sessionId == l.sessionId
    ensures Below(Next(l, e)) && Next(l, e).timeline.beatOrigin >= l.timeline.beatOrigin
  {
    match e
    case PeerSeen(p, addr, now) => assert Below(Next(l, e));
    case MeasurementDone(_, _, _, _, _, _) => MeasuredStays(l, e);
    case ClientHandled(tl, ss, now) => HandledStays(l, e);
    case RealtimeProcessed(now) => HandledStays(l, e);
    case _ =>
  }

  lemma HandledStays(l: Link, e: Event)
    requires Inv(l) && Below(l) && (e.ClientHandled? || e.RealtimeProcessed?)
    ensures Below(Next(l, e)) && Next(l, e).timeline.beatOrigin >= l.timeline.beatOrigin
  {
    hide HandleClientState, ProcessPending;
    if e.ClientHandled? {
      CoreHandleState(l, e.client, e.clientStartStop, e.now);
      ChangeOutranks(l, e.client, e.clientStartStop, e.now);
    } else {
      PendingCore(l, e.now);
      PendingOutranks(l, e.now);
    }
  }

  /** Within one session the session's beat origin never decreases. */
  lemma {:induction false} BeatOriginNeverDecreases(l: Link, es: seq<Event>)
    requires Inv(l) && Below(l) && Stays(l, es)
    ensures Run(l, es).timeline.beatOrigin >= l.timeline.beatOrigin && Below(Run(l, es))
    decreases |es|
  {
    if es != [] {
      hide Below, Inv;
      InvStep(l, es[0]);
      StayStep(l, es[0]);
      BeatOriginNeverDecreases(Next(l, es[0]), es[1..]);
    }
  }

  /** That the registry's beat origin is not smaller is exactly what it takes: otherwise
      measuring the current session again is enough to lower the session's. */
  lemma BeatOriginNeverDecreasesExactly(l: Link)
    requires Inv(l)
    ensures (forall es :: Stays(l, es) ==> Run(l, es).timeline.beatOrigin >= l.timeline.beatOrigin) <==> Below(l)
  {
    hide Inv, Stays, Run, Below;
    if Below(l) {
      forall es | Stays(l, es) ensures Run(l, es).timeline.beatOrigin >= l.timeline.beatOrigin {
        BeatOriginNeverDecreases(l, es);
      }
    } else {
      var es := MeasuredAgain(l);
    }
  }

  /** Measuring the current session again gives the controller the registry's timeline. */
  lemma MeasuredAgain(l: Link) returns (es: seq<Event>)
    requires Inv(l) && !Below(l)
    ensures Stays(l, es) && Run(l, es).timeline.beatOrigin < l.timeline.beatOrigin
  {
    var again := MeasurementDone(l.sessionId, l.xform, 0, 0, 0, 0);
    es := [again];
    MeasuredInPlace(l, again);
    hide Next;
    assert es[1..] == [];
    assert Stays(Next(l, again), []) && Run(Next(l, again), []) == Next(l, again);
  }

  lemma MeasuredInPlace(l: Link, e: Event)
    requires Inv(l) && e.MeasurementDone? && e.id == l.sessionId
    ensures Next(l, e).sessionId == l.sessionId
    ensures Next(l, e).timeline == ClampTempo(l.registry.current.timeline)
  {
    MeasuredOk(l, e.id, Measurement(e.xform, e.stamp), e.hostTime);
  }

  /** Start/stop states only move forward within one session. */
  lemma {:induction false} StartStopNeverGoesBack(l: Link, es: seq<Event>)
    requires Inv(l) && Stays(l, es)
    ensures Run(l, es).startStop.timestamp >= l.startStop.timestamp
    decreases |es|
  {
    if es != [] {
      InvStep(l, es[0]);
      StartStopStep(l, es[0]);
      hide Inv, Next;
      StartStopNeverGoesBack(Next(l, es[0]), es[1..]);
    }
  }

  lemma StartStopStep(l: Link, e: Event)
    requires Inv(l) && !e.Reset? && Next(l, e).sessionId == l.sessionId
    ensures Next(l, e).startStop.timestamp >= l.startStop.timestamp
  {
    match e
    case MeasurementDone(_, _, _, _, _, _) => MeasuredStays(l, e);
    case ClientHandled(tl, ss, now) => ChangeOutranks(l, tl, ss, now);
    case RealtimeProcessed(now) => PendingOutranks(l, now);
    case _ =>
  }

  // ---------------------------------------------------------------- convergence

  function Fold(tl: Timeline, seen: seq<Timeline>): Timeline
    decreases |seen|
  {
    if seen == [] then tl else Fold(AdoptTimeline(tl, seen[0]), seen[1..])
  }

  /** Whatever the order and the repeats, the fold is one of the timelines and has the
      largest beat origin among them. */
  lemma {:induction false} FoldIsMaximum(tl: Timeline, seen: seq<Timeline>)
    ensures Fold(tl, seen) in [tl] + seen
    ensures forall t :: t in [tl] + seen ==> t.beatOrigin <= Fold(tl, seen).beatOrigin
    decreases |seen|
  {
    if seen != [] {
      FoldIsMaximum(AdoptTimeline(tl, seen[0]), seen[1..]);
      assert seen == [seen[0]] + seen[1..];
    }
  }

  /** The event changes the session from this side: a client's timeline or a reset. */
  predicate ChangesSession(l: Link, e: Event) {
    || e.Reset?
    || (e.ClientHandled? && e.client.Some?)
    || (e.RealtimeProcessed? && l.pending.Some?)
  }

  /** Through the run the peer stays in its session and only listens: sightings in any
      session, departures, measurements, client start/stop states and the like. */
  ghost predicate Listens(l: Link, es: seq<Event>)
    decreases |es|
  {
    || es == []
    || (!ChangesSession(l, es[0]) && Next(l, es[0]).sessionId == l.sessionId && Listens(Next(l, es[0]), es[1..]))
  }

  /** The timelines sighted in the session. */
  function Seen(session: Id, es: seq<Event>): seq<Timeline> {
    if es == [] then []
    else if es[0].PeerSeen? && es[0].peer.session == session then [es[0].peer.timeline] + Seen(session, es[1..])
    else Seen(session, es[1..])
  }

  /** An event lets the current session adopt the timeline sighted in it, if there is one. */
  lemma ListenStep(l: Link, e: Event)
    requires Inv(l) && !ChangesSession(l, e) && Next(l, e).sessionId == l.sessionId
    ensures Next(l, e).registry.current.timeline
         == Fold(l.registry.current.timeline, Seen(l.sessionId, [e]))
    ensures Agree(l) ==> Agree(Next(l, e))
  {
    AdoptStep(l, e);
    if Agree(l) {
      AgreeStep(l, e);
      if e.MeasurementDone? {
        MeasuredStays(l, e);
      }
    }
  }

  lemma AdoptStep(l: Link, e: Event)
    requires Inv(l) && !ChangesSession(l, e) && Next(l, e).sessionId == l.sessionId
    ensures Next(l, e).registry.current.timeline
         == if e.PeerSeen? && e.peer.session == l.sessionId
            then AdoptTimeline(l.registry.current.timeline, e.peer.timeline) else l.registry.current.timeline
  {
    match e
    case PeerSeen(p, addr, now) =>
      if TimelineCached(l.cache, p.session, p.timeline) {
        FilterHidesNothing(l, p, addr, now, !StartStopCached(l.cache, p.session, p.startStop));
        var k :| k in l.cache && l.cache[k].session == p.session && l.cache[k].timeline == p.timeline;
      }
    case MeasurementDone(_, _, _, _, _, _) => MeasuredStays(l, e);
    case RealtimeProcessed(now) => PendingCore(l, now);
    case _ =>
  }

  /** A run of listening leaves the registry with the fold of what was sighted, although the
      cache filters some of it, and the controller with the same while it agrees. */
  lemma {:induction false} SightingsFold(l: Link, es: seq<Event>)
    requires Inv(l) && Listens(l, es)
    ensures Run(l, es).registry.current.timeline == Fold(l.registry.current.timeline, Seen(l.sessionId, es))
    ensures Run(l, es).sessionId == l.sessionId && Inv(Run(l, es))
    ensures Agree(l) ==> Agree(Run(l, es))
    decreases |es|
  {
    if es != [] {
      hide Inv, Agree, Next, ChangesSession;
      InvStep(l, es[0]);
      ListenStep(l, es[0]);
      SightingsFold(Next(l, es[0]), es[1..]);
    }
  }

  /** What a timeline says on the wire once its tempo is clamped. */
  datatype WireForm = WireForm(microsPerBeat: int, beatOrigin: int, timeOrigin: int)

  function OnWire(t: Timeline): (w: WireForm)
    ensures w.beatOrigin == t.beatOrigin && w.timeOrigin == t.timeOrigin
  {
    WireForm(ClampTempo(t).M(), t.beatOrigin, t.timeOrigin)
  }

  predicate SameOnWire(t: Timeline, u: Timeline) { OnWire(t) == OnWire(u) }

  /** A timeline that a peer hears is the same on the wire as the one sent. */
  lemma HeardIsSameOnWire(tl: ClampedTimeline)
    ensures SameOnWire(tl.(tempo := Tempo.FromMicrosPerBeat(tl.M())), tl)
  {
    WireThenClamp(tl.tempo);
  }

  /** Though it need not be equal: 123 bpm arrives as another tempo. */
  lemma HeardIsNotEqual()
    ensures Tempo(123.0).MicrosPerBeat() == 487805 && Tempo.FromMicrosPerBeat(487805) != Tempo(123.0)
  {
  }

  /** Timelines that are the same on the wire map beats and time alike. */
  lemma SameOnWireConverts(t: Timeline, u: Timeline, x: int)
    requires SameOnWire(t, u)
    ensures ClampTempo(t).ToBeats(x) == ClampTempo(u).ToBeats(x)
    ensures ClampTempo(t).FromBeats(x) == ClampTempo(u).FromBeats(x)
  {
  }

  /** No timeline of the first list is news to one who has the second: that has the same
      on the wire, or one that outranks it. */
  ghost predicate Covered(ts: seq<Timeline>, us: seq<Timeline>) {
    forall t :: t in ts ==> exists u :: u in us && (SameOnWire(t, u) || u.beatOrigin > t.beatOrigin)
  }

  /** What a session's timeline may become in a run: the one it has, and those sighted. */
  function Candidates(l: Link, es: seq<Event>): seq<Timeline> {
    [l.registry.current.timeline] + Seen(l.sessionId, es)
  }

  /** Two peers of a session, neither of which lacks a timeline that the other has or sights,
      up to what the wire keeps of it, end up with the same timeline, in whatever order, with
      whatever repeats and among whatever other events they hear of it, given that equal beat
      origins mean the same timeline. */
  lemma PeersConverge(a: Link, eventsA: seq<Event>, b: Link, eventsB: seq<Event>)
    requires Inv(a) && Inv(b) && a.sessionId == b.sessionId && Listens(a, eventsA) && Listens(b, eventsB)
    requires Covered(Candidates(a, eventsA), Candidates(b, eventsB))
    requires Covered(Candidates(b, eventsB), Candidates(a, eventsA))
    requires forall t, u :: t in Candidates(a, eventsA) && u in Candidates(a, eventsA) && t.beatOrigin == u.beatOrigin
                            ==> SameOnWire(t, u)
    ensures SameOnWire(Run(a, eventsA).registry.current.timeline, Run(b, eventsB).registry.current.timeline)
    ensures Agree(a) && Agree(b) ==> SameOnWire(Run(a, eventsA).timeline, Run(b, eventsB).timeline)
  {
    hide Inv, Listens, Run, Seen, Fold, Agree, SameOnWire, Covered;
    SightingsFold(a, eventsA);
    SightingsFold(b, eventsB);
    var foldA, foldB := Fold(a.registry.current.timeline, Seen(a.sessionId, eventsA)),
                        Fold(b.registry.current.timeline, Seen(b.sessionId, eventsB));
    FoldIsMaximum(a.registry.current.timeline, Seen(a.sessionId, eventsA));
    FoldIsMaximum(b.registry.current.timeline, Seen(b.sessionId, eventsB));
    MaximaMeet(Candidates(a, eventsA), foldA, Candidates(b, eventsB), foldB);
    if Agree(a) && Agree(b) {
      AgreeingOnWire(Run(a, eventsA), Run(b, eventsB));
    }
  }

  /** A change that a client makes at one peer reaches another through the wire: a peer that
      hears it has the same timeline, unless it knows one that outranks it. */
  lemma ChangeReachesPeer(a: Link, change: Event, b: Link, heard: Event)
    requires Inv(a) && Inv(b) && Agree(b) && a.sessionId == b.sessionId
    requires change.ClientHandled? && change.client.Some?
    requires heard.PeerSeen? && heard.peer.session == b.sessionId
    requires var tl := Next(a, change).timeline;
             heard.peer.timeline == tl.(tempo := Tempo.FromMicrosPerBeat(tl.M()))
    ensures SameOnWire(Next(b, heard).timeline, Next(a, change).timeline)
            || b.registry.current.timeline.beatOrigin >= Next(a, change).timeline.beatOrigin
  {
    var tl := Next(a, change).timeline;
    hide OnWire, Timeline.M, Inv;
    HeardIsSameOnWire(tl);
    AdoptStep(b, heard);
    AgreeStep(b, heard);
    ClampedOnWire(heard.peer.timeline);
  }

  lemma ClampedOnWire(t: Timeline)
    ensures SameOnWire(ClampTempo(t), t)
  {
  }

  /** A maximum of the one list is the same on the wire as a maximum of the other. */
  lemma MaximaMeet(ts: seq<Timeline>, maxT: Timeline, us: seq<Timeline>, maxU: Timeline)
    requires maxT in ts && forall t :: t in ts ==> t.beatOrigin <= maxT.beatOrigin
    requires maxU in us && forall u :: u in us ==> u.beatOrigin <= maxU.beatOrigin
    requires Covered(ts, us) && Covered(us, ts)
    requires forall t, t' :: t in ts && t' in ts && t.beatOrigin == t'.beatOrigin ==> SameOnWire(t, t')
    ensures SameOnWire(maxT, maxU)
  {
    hide OnWire, Covered;
    var t := Likeness(us, ts, maxU);
    var u := Likeness(ts, us, maxT);
    assert t.beatOrigin <= maxT.beatOrigin && u.beatOrigin <= maxU.beatOrigin;
  }

  lemma Likeness(ts: seq<Timeline>, us: seq<Timeline>, t: Timeline) returns (u: Timeline)
    requires Covered(ts, us) && t in ts
    ensures u in us && (SameOnWire(t, u) || u.beatOrigin > t.beatOrigin)
  {
    u :| u in us && (SameOnWire(t, u) || u.beatOrigin > t.beatOrigin);
  }

  lemma AgreeingOnWire(a: Link, b: Link)
    requires Agree(a) && Agree(b) && SameOnWire(a.registry.current.timeline, b.registry.current.timeline)
    ensures SameOnWire(a.timeline, b.timeline)
  {
  }

  // ---------------------------------------------------------------- switching session

  /** A measurement conserves the known sessions, and moves the peer exactly when the
      measured session is another one that wins. */
  lemma SwitchConserves(l: Link, e: Event)
    requires Inv(l) && e.MeasurementDone?
    ensures KnownSessions(Next(l, e).registry) == KnownSessions(l.registry)
    ensures Next(l, e).sessionId == if SwitchesTo(l.registry, e.id, e.xform, e.hostTime) then e.id else l.sessionId
  {
    hide ProcessPending;
    var measured := l.(registry := Measured(l.registry, e.id, Measurement(e.xform, e.stamp), e.hostTime));
    PendingKeepsSessions(measured.(sessionId := measured.registry.current.id), e.flushed);
    MeasuredOk(l, e.id, Measurement(e.xform, e.stamp), e.hostTime);
  }

  lemma PendingKeepsSessions(l: Link, now: int)
    requires l.sessionId == l.registry.current.id
    ensures KnownSessions(ProcessPending(l, now).registry) == KnownSessions(l.registry)
    ensures ProcessPending(l, now).sessionId == l.sessionId
  {
  }

  /** Two peers in different sessions that measure each other's session exactly, at one
      instant, never both move; exactly one does unless the ghost times are exactly half a
      second apart, and then neither does.  The one that moves comes from the session that is
      behind, or, nearer than that, from the one with the larger id. */
  lemma PeersNeverSwap(a: Link, b: Link, hostA: int, hostB: int, toB: GhostXForm, toA: GhostXForm)
    requires Inv(a) && Inv(b) && a.sessionId != b.sessionId
    requires b.sessionId in a.registry.others && a.sessionId in b.registry.others
    requires toB.HostToGhost(hostA) == b.xform.HostToGhost(hostB)
    requires toA.HostToGhost(hostB) == a.xform.HostToGhost(hostA)
    ensures var aMoves := SwitchesTo(a.registry, b.sessionId, toB, hostA);
            var bMoves := SwitchesTo(b.registry, a.sessionId, toA, hostB);
            var ahead := b.xform.HostToGhost(hostB) - a.xform.HostToGhost(hostA);
            && !(aMoves && bMoves) && (aMoves || bMoves <==> Abs(ahead) != 500000)
            && (ahead > 500000 ==> aMoves) && (ahead < -500000 ==> bMoves)
            && (Abs(ahead) < 500000 ==> (aMoves <==> b.sessionId < a.sessionId))
  {
  }

  /** The preference is not transitive: 3 wins over 2 and 2 over 1 by their ids, within
      the tolerance, but 1 wins over 3 by its ghost time. */
  lemma PreferenceIsNotTransitive()
    ensures Prefers(800000, 400000, 3, 2) && Prefers(400000, 0, 2, 1) && !Prefers(800000, 0, 3, 1)
        && Prefers(0, 800000, 1, 3)
  {
  }

  // ---------------------------------------------------------------- the client's beats

  /** The event leaves the client's timeline to the session: it is no change of it from
      this side, and no switch that flushes one. */
  ghost predicate FromSession(l: Link, e: Event) {
    && (e.ClientSet? ==> e.wanted.None?)
    && (e.ClientHandled? ==> e.client.None?)
    && (e.RealtimeProcessed? ==> l.pending.None?)
    && !FlushesAtSwitch(l, e)
  }

  /** The events at which the session may change the client's timeline. */
  predicate Timed(e: Event) { e.PeerSeen? || e.MeasurementDone? || e.Reset? }

  function Now(e: Event): int
    requires Timed(e)
  {
    match e
    case PeerSeen(_, _, now) => now
    case MeasurementDone(_, _, _, _, _, now) => now
    case Reset(_, _, now) => now
  }

  lemma TimingKeepsBeats(l: Link, tl: Timeline, xform: GhostXForm, now: int)
    ensures UpdateSessionTiming(l, tl, xform, now).client.ToBeats(now) == l.client.ToBeats(now)
    ensures UpdateSessionTiming(l, tl, xform, now).pending == l.pending
  {
    ClientIsContinuous(l.client, ClampTempo(tl), now, xform);
  }

  /** What the session changes does not move the client's beat at that moment, and all
      other events leave the client's timeline alone. */
  lemma SessionEventKeepsBeats(l: Link, e: Event)
    requires Inv(l) && FromSession(l, e)
    ensures Timed(e) ==> Next(l, e).client.ToBeats(Now(e)) == l.client.ToBeats(Now(e))
    ensures Timed(e) ==> Next(l, e).pending == l.pending
    ensures !Timed(e) ==> Next(l, e).client == l.client
  {
    match e
    case PeerSeen(p, addr, now) =>
      var cached := l.(cache := l.cache[PeerKey(p.ident, addr) := p],
                       registry := SawSessionTimeline(l.registry, p.session, p.timeline));
      TimingKeepsBeats(cached, cached.registry.current.timeline, l.xform, now);
    case MeasurementDone(_, _, _, _, _, _) => MeasurementKeepsBeats(l, e);
    case Reset(newId, hostTime, now) => ResetKeepsBeats(l, newId, hostTime, now);
    case _ =>
  }

  lemma MeasurementKeepsBeats(l: Link, e: Event)
    requires Inv(l) && e.MeasurementDone? && !FlushesAtSwitch(l, e)
    ensures Next(l, e).client.ToBeats(e.now) == l.client.ToBeats(e.now) && Next(l, e).pending == l.pending
  {
    var m := Measurement(e.xform, e.stamp);
    var registry := Measured(l.registry, e.id, m, e.hostTime);
    MeasuredOk(l, e.id, m, e.hostTime);
    if registry.current.id == e.id {
      var joined := l.(registry := registry, sessionId := registry.current.id);
      if e.id != l.sessionId {
        NothingPending(joined, e.flushed);
        TimingKeepsBeats(ProcessPending(joined, e.flushed).(startStop := STOPPED), registry.current.timeline, e.xform,
                         e.now);
      } else {
        TimingKeepsBeats(joined, registry.current.timeline, e.xform, e.now);
      }
    }
  }

  lemma NothingPending(l: Link, now: int)
    requires l.pending.None?
    ensures var l' := ProcessPending(l, now);
            l'.client == l.client && l'.pending == l.pending && l'.timeline == l.timeline && l'.xform == l.xform
  {
  }

  lemma ResetKeepsBeats(l: Link, newId: Id, hostTime: int, now: int)
    ensures ResetState(l, newId, hostTime, now).client.ToBeats(now) == l.client.ToBeats(now)
    ensures ResetState(l, newId, hostTime, now).pending == l.pending
  {
    var tl := Timeline(l.timeline.tempo, l.timeline.ToBeats(l.xform.HostToGhost(hostTime)), 0);
    TimingKeepsBeats(l.(nodeId := newId, sessionId := newId, startStop := STOPPED), tl, GhostXForm(-hostTime), now);
  }

  /** A run that leaves the client's timeline to the session, at non-decreasing times
      between two moments. */
  ghost predicate SessionRun(l: Link, es: seq<Event>, from: int, to: int)
    decreases |es|
  {
    if es == [] then from <= to
    else
      && FromSession(l, es[0])
      && (Timed(es[0]) ==> from <= Now(es[0]))
      && SessionRun(Next(l, es[0]), es[1..], if Timed(es[0]) then Now(es[0]) else from, to)
  }

  /** Through sightings, joins, resets, departures and everything else that does not come
      from the client the client's beat never goes back. */
  lemma {:induction false} ClientBeatsNeverGoBack(l: Link, es: seq<Event>, from: int, to: int)
    requires Inv(l) && SessionRun(l, es, from, to)
    ensures l.client.ToBeats(from) <= Run(l, es).client.ToBeats(to)
    decreases |es|
  {
    if es == [] {
      ToBeatsMonotone(l.client, from, to);
    } else {
      hide Inv, FromSession, Next;
      var e := es[0];
      InvStep(l, e);
      SessionEventKeepsBeats(l, e);
      if Timed(e) {
        ToBeatsMonotone(l.client, from, Now(e));
        ClientBeatsNeverGoBack(Next(l, e), es[1..], Now(e), to);
      } else {
        ClientBeatsNeverGoBack(Next(l, e), es[1..], from, to);
      }
    }
  }

  // ---------------------------------------------------------------- the client's phase

  /** The client has the session's beat length and its beat zero. */
  ghost predicate Follows(l: Link) {
    l.client.M() == l.timeline.M() && l.xform.HostToGhost(l.client.timeOrigin) == l.timeline.FromBeats(0)
  }

  predicate SameTiming(l: Link, l': Link) { l'.timeline == l.timeline && l'.xform == l.xform }

  /** A new controller starts at beat zero of a session of its own, with the tempo asked for as
      near as it is allowed, and its client follows. */
  lemma InitialFollows(id: Id, tempo: Tempo, hostTime: int, stamp: int)
    ensures var l := InitialLink(id, tempo, hostTime, stamp);
            && Follows(l) && NoNewerCached(l)
            && l.nodeId == l.sessionId == id && KnownSessions(l.registry) == {id}
            && l.timeline.tempo == l.client.tempo == tempo.Clamp()
            && l.xform.HostToGhost(hostTime) == 0
            && l.timeline.ToBeats(0) == 0 && l.client.ToBeats(hostTime) == 0
            && !l.sync && l.startStop == STOPPED
            && l.clientStartStop == ClientStartStop(false, hostTime, hostTime)
            && l.registry.current.measurement == Some(Measurement(l.xform, stamp))
  {
    hide Tempo.MicrosPerBeat, Timeline.ToBeats, Timeline.FromBeats;
    var l := InitialLink(id, tempo, hostTime, stamp);
    AtOrigin(l.timeline);
    AtOrigin(l.client);
  }

  lemma TimingFollows(l: Link, tl: Timeline, xform: GhostXForm, now: int)
    ensures var l' := UpdateSessionTiming(l, tl, xform, now); Follows(l') <==> Follows(l) || !SameTiming(l, l')
  {
    hide Timeline.ToBeats, Timeline.FromBeats;
    ClientIsContinuous(l.client, ClampTempo(tl), now, xform);
  }

  /** An event that leaves the client's timeline to the session, and so does a client's
      timeline once it is handled: the client follows exactly if it did, or the session's
      timing changes. */
  lemma FollowsStep(l: Link, e: Event)
    requires Inv(l) && (FromSession(l, e) || e.ClientHandled?)
    ensures Follows(Next(l, e)) <==> Follows(l) || !SameTiming(l, Next(l, e))
  {
    match e
    case PeerSeen(p, addr, now) =>
      var cached := l.(cache := l.cache[PeerKey(p.ident, addr) := p],
                       registry := SawSessionTimeline(l.registry, p.session, p.timeline));
      TimingFollows(cached, cached.registry.current.timeline, l.xform, now);
    case MeasurementDone(_, _, _, _, _, _) => FollowsMeasured(l, e);
    case ClientHandled(tl, ss, now) => FollowsHandled(l, tl, ss, now);
    case Reset(newId, hostTime, now) => FollowsReset(l, newId, hostTime, now);
    case _ =>
  }

  lemma FollowsHandled(l: Link, tl: Option<(int, ClampedTimeline)>, ss: Option<ClientStartStop>, now: int)
    ensures var l' := HandleClientState(l, tl, ss, now); Follows(l') <==> Follows(l) || !SameTiming(l, l')
  {
    if tl.Some? {
      var (at, t) := tl.value;
      var s := UpdateSessionTimelineFromClient(l.timeline, t, at, l.xform);
      TimingFollows(l.(registry := l.registry.(current := l.registry.current.(timeline := s)),
                       cache := SetSessionTimeline(l.cache, l.sessionId, s)), s, l.xform, now);
    }
  }

  lemma FollowsReset(l: Link, newId: Id, hostTime: int, now: int)
    ensures var l' := ResetState(l, newId, hostTime, now); Follows(l') <==> Follows(l) || !SameTiming(l, l')
  {
    var xform := GhostXForm(-hostTime);
    var tl := Timeline(l.timeline.tempo, l.timeline.ToBeats(l.xform.HostToGhost(hostTime)),
                       xform.HostToGhost(hostTime));
    TimingFollows(l.(nodeId := newId, sessionId := newId, startStop := STOPPED), tl, xform, now);
  }

  lemma FollowsMeasured(l: Link, e: Event)
    requires Inv(l) && e.MeasurementDone? && FromSession(l, e)
    ensures Follows(Next(l, e)) <==> Follows(l) || !SameTiming(l, Next(l, e))
  {
    hide ProcessPending, Timeline.ToBeats, Timeline.FromBeats;
    var m := Measurement(e.xform, e.stamp);
    var registry := Measured(l.registry, e.id, m, e.hostTime);
    MeasuredOk(l, e.id, m, e.hostTime);
    if registry.current.id == e.id {
      var joined := l.(registry := registry, sessionId := registry.current.id);
      if e.id != l.sessionId {
        NothingPending(joined, e.flushed);
        TimingFollows(ProcessPending(joined, e.flushed).(startStop := STOPPED), registry.current.timeline, e.xform,
                      e.now);
      } else {
        TimingFollows(joined, registry.current.timeline, e.xform, e.now);
      }
    }
  }

  /** A client's timeline that is set and then handled either alters the session, which outranks
      what it was and is at the beat that it had at the time of the change, or a micro-beat on,
      and is followed; or it is the session's to the micro-beat. */
  lemma ChangeIsFollowed(l: Link, tl: ClampedTimeline, at: int, ss: Option<ClientStartStop>, now: int)
    requires Inv(l)
    ensures var l' := Next(Next(l, ClientSet(Some(tl), ss)), ClientHandled(Some((at, tl)), ss, now));
            var beat := l.timeline.ToBeats(l.xform.HostToGhost(at));
            || (Follows(l') && l'.client == tl && l'.timeline.tempo == tl.tempo
                && l'.timeline.beatOrigin > l.timeline.beatOrigin && l'.timeline.beatOrigin >= beat
                && l'.timeline.beatOrigin in {beat, l.timeline.beatOrigin + 1})
            || (l'.client == tl && l'.timeline == l.timeline && tl.tempo == l.timeline.tempo
                && l.timeline.ToBeats(l.xform.HostToGhost(tl.timeOrigin)) == 0)
  {
    hide Timeline.ToBeats, Timeline.FromBeats, Inv;
    var set' := Next(l, ClientSet(Some(tl), ss));
    var s := UpdateSessionTimelineFromClient(l.timeline, tl, at, l.xform);
    InvStep(l, ClientSet(Some(tl), ss));
    FollowsStep(set', ClientHandled(Some((at, tl)), ss, now));
    if tl.tempo != l.timeline.tempo || l.timeline.ToBeats(l.xform.HostToGhost(tl.timeOrigin)) != 0 {
      ClientChangeTakesEffect(l.timeline, tl, at, now, l.xform);
    }
  }

  function PhaseAt(l: Link, ghostTime: int, quantum: int): int {
    Phase(ToPhaseEncodedBeats(l.client, l.xform.GhostToHost(ghostTime), quantum), quantum)
  }

  /** Peers that follow timelines of one wire form are in phase at every ghost time and for every
      quantum. */
  lemma FollowersShareThePhase(a: Link, b: Link, ghostTime: int, quantum: int)
    requires Follows(a) && Follows(b) && SameOnWire(a.timeline, b.timeline) && quantum >= 0
    ensures PhaseAt(a, ghostTime, quantum) == PhaseAt(b, ghostTime, quantum)
  {
    hide Timeline.FromBeats, Phase, ToPhaseEncodedBeats;
    SameOnWireConverts(a.timeline, b.timeline, 0);
    ClampedIs(a.timeline);
    ClampedIs(b.timeline);
    AnchoredPhase(ghostTime, quantum, a.client, a.xform, b.client, b.xform);
  }

  lemma ClampedIs(tl: ClampedTimeline)
    ensures ClampTempo(tl) == tl
  {
  }

  ghost predicate NoneSet(es: seq<Event>) { forall i :: 0 <= i < |es| && es[i].ClientSet? ==> es[i].wanted.None? }

  lemma {:induction false} FollowsWhileListening(l: Link, es: seq<Event>)
    requires Inv(l) && Follows(l) && Listens(l, es) && NoneSet(es)
    ensures Follows(Run(l, es))
    decreases |es|
  {
    if es != [] {
      hide Inv, Follows, Next;
      InvStep(l, es[0]);
      if es[0].MeasurementDone? { SwitchConserves(l, es[0]); }
      FollowsStep(l, es[0]);
      FollowsWhileListening(Next(l, es[0]), es[1..]);
    }
  }

  /** So listening peers that converge end up in phase, whatever tempo each of them has heard. */
  lemma ConvergedPeersShareThePhase(
    a: Link, eventsA: seq<Event>, b: Link, eventsB: seq<Event>, ghostTime: int, quantum: int)
    requires Inv(a) && Inv(b) && a.sessionId == b.sessionId && Listens(a, eventsA) && Listens(b, eventsB)
    requires Covered(Candidates(a, eventsA), Candidates(b, eventsB))
    requires Covered(Candidates(b, eventsB), Candidates(a, eventsA))
    requires forall t, u :: t in Candidates(a, eventsA) && u in Candidates(a, eventsA) && t.beatOrigin == u.beatOrigin
                            ==> SameOnWire(t, u)
    requires Agree(a) && Agree(b) && Follows(a) && Follows(b) && NoneSet(eventsA) && NoneSet(eventsB) && quantum >= 0
    ensures PhaseAt(Run(a, eventsA), ghostTime, quantum) == PhaseAt(Run(b, eventsB), ghostTime, quantum)
  {
    hide Inv, Listens, Run, Candidates, Follows, Agree, SameOnWire, Covered, PhaseAt;
    PeersConverge(a, eventsA, b, eventsB);
    FollowsWhileListening(a, eventsA);
    FollowsWhileListening(b, eventsB);
    FollowersShareThePhase(Run(a, eventsA), Run(b, eventsB), ghostTime, quantum);
  }

  // ---------------------------------------------------------------- reset

  /** Founding a new session makes neither the session's beats jump, at the time the new
      transform is made, nor the client's, at the later time of its update; and it goes on as
      the old one would have, within a micro-beat at every time. */
  lemma ResetIsContinuous(l: Link, newId: Id, hostTime: int, now: int, time: int)
    requires Inv(l)
    ensures var l' := ResetState(l, newId, hostTime, now);
            && l'.client.ToBeats(now) == l.client.ToBeats(now)
            && l'.timeline.ToBeats(l'.xform.HostToGhost(hostTime)) == l.timeline.ToBeats(l.xform.HostToGhost(hostTime))
            && Abs(l'.timeline.ToBeats(l'.xform.HostToGhost(time)) - l.timeline.ToBeats(l.xform.HostToGhost(time))) <= 1
            && l'.timeline.tempo == l.timeline.tempo
            && l'.xform.HostToGhost(hostTime) == 0
  {
    hide Timeline.ToBeats, Tempo.MicrosPerBeat;
    ResetKeepsBeats(l, newId, hostTime, now);
    var beats := l.timeline.ToBeats(l.xform.HostToGhost(hostTime));
    var tl := Timeline(l.timeline.tempo, beats, 0);
    ResetTiming(l, newId, hostTime, now);
    AtOrigin(tl);
    NearlyEqual(l.timeline, tl, l.xform.HostToGhost(hostTime), time - hostTime);
  }

  lemma ResetTiming(l: Link, newId: Id, hostTime: int, now: int)
    ensures var l' := ResetState(l, newId, hostTime, now);
            && l'.timeline == Timeline(l.timeline.tempo, l.timeline.ToBeats(l.xform.HostToGhost(hostTime)), 0)
            && l'.xform == GhostXForm(-hostTime)
  {
    hide Timeline.ToBeats;
  }

  /** A timeline continued at its beat of a time. */
  lemma NearlyEqual(tl: Timeline, next: Timeline, at: int, d: int)
    requires tl.Valid() && next == Timeline(tl.tempo, tl.ToBeats(at), 0)
    ensures Abs(next.ToBeats(d) - tl.ToBeats(at + d)) <= 1
  {
    hide Timeline.ToBeats, Tempo.MicrosPerBeat;
    WholeBeats(next, 0, d);
    PaceIs(tl, at, at + d);
    var m, x, y := tl.M(), next.ToBeats(d) - tl.ToBeats(at), tl.ToBeats(at + d) - tl.ToBeats(at);
    Distribute(x, -y, m);
    if Abs(x - y) >= 2 { MulAtLeast(Abs(x - y) - 1, m); Distribute(Abs(x - y) - 1, 1, m); }
  }

  /** And it forgets everything of the old one but its tempo, its beats, and what the client has
      pending. */
  lemma ResetForgets(l: Link, newId: Id, hostTime: int, now: int)
    requires Inv(l)
    ensures var l' := ResetState(l, newId, hostTime, now);
            && l'.nodeId == l'.sessionId == l'.registry.current.id == newId
            && l'.cache == map[] && l'.registry.others == map[] && l'.startStop == STOPPED
            && l'.clientStartStop == l.clientStartStop && l'.sync == l.sync
            && l'.pending == l.pending && l'.pendingStartStop == l.pendingStartStop
            && l'.registry.current.measurement == Some(Measurement(l'.xform, hostTime))
            && Inv(l') && Agree(l') && NoNewerCached(l')
  {
    InvStep(l, Reset(newId, hostTime, now));
  }

  // ---------------------------------------------------------------- a pending change at a switch

  /** A peer alone in its session sights another, a realtime change becomes pending, and
      the measurement makes the other session win. */
  datatype Story = Story(sighting: Event, push: Event, measured: Event)

  ghost predicate Tells(l: Link, s: Story) {
    && Inv(l) && Agree(l) && l.registry.others == map[] && l.cache == map[]
    && s.sighting.PeerSeen? && s.sighting.peer.session != l.sessionId
    && s.push.RealtimePushed? && s.push.pushed.Some?
    && s.measured.MeasurementDone? && s.measured.id == s.sighting.peer.session
    && Prefers(l.registry.current.HostToGhost(s.measured.hostTime), s.measured.xform.HostToGhost(s.measured.hostTime),
               l.sessionId, s.measured.id)
  }

  function Told(l: Link, s: Story): Link { Next(Next(Next(l, s.sighting), s.push), s.measured) }

  /** The session timeline that the pending change turns into in the old session. */
  function StoryFlush(l: Link, s: Story): ClampedTimeline
    requires s.push.RealtimePushed? && s.push.pushed.Some?
  {
    UpdateSessionTimelineFromClient(l.timeline, s.push.pushed.value.1, s.push.pushed.value.0, l.xform)
  }

  /** The peer is in the new session with its timeline, but the registry holds the
      timeline flushed from the old one, and the start/stop state is forgotten. */
  lemma AfterStory(l: Link, s: Story)
    requires Tells(l, s)
    ensures var l', p := Told(l, s), s.sighting.peer;
            var flushed := StoryFlush(l, s);
            && Inv(l') && l'.sessionId == p.session
            && l'.timeline == ClampTempo(p.timeline) && l'.startStop == STOPPED
            && l'.registry.current.timeline == flushed
            && l'.cache == map[PeerKey(p.ident, s.sighting.addr) := p.(timeline := flushed)]
  {
    var p := s.sighting.peer;
    var l1 := Next(l, s.sighting);
    var l2 := Next(l1, s.push);
    InvStep(l, s.sighting);
    AgreeStep(l, s.sighting);
    assert !TimelineCached(l.cache, p.session, p.timeline);
    assert l1.registry == l.registry.(others := map[p.session := Session(p.session, p.timeline, None)]);
    assert l1.timeline == l.timeline && l1.xform == l.xform && l1.sessionId == l.sessionId;
    AfterSighting(l2, p, s.sighting.addr, s.measured);
  }

  /** The switch of a peer that knows one other session through one other peer. */
  lemma AfterSighting(l: Link, p: PeerState, addr: Addr, e: Event)
    requires Inv(l) && l.pending.Some? && e.MeasurementDone? && e.id == p.session != l.sessionId
    requires l.registry.others == map[p.session := Session(p.session, p.timeline, None)]
    requires l.cache == map[PeerKey(p.ident, addr) := p]
    requires SwitchesTo(l.registry, e.id, e.xform, e.hostTime)
    ensures var l' := Next(l, e);
            && Inv(l') && l'.sessionId == p.session
            && l'.timeline == ClampTempo(p.timeline) && l'.startStop == STOPPED
            && l'.registry.current.timeline == Flushed(l)
            && l'.cache == map[PeerKey(p.ident, addr) := p.(timeline := Flushed(l))]
  {
    InvStep(l, e);
    hide Inv, Core, ProcessPending, UpdateSessionTiming, Flushed;
    var m := Measurement(e.xform, e.stamp);
    var registry := Measured(l.registry, e.id, m, e.hostTime);
    MeasuredOk(l, e.id, m, e.hostTime);
    assert registry.current == Session(p.session, p.timeline, Some(m));
    var joined := l.(registry := registry, sessionId := p.session);
    assert Flushed(joined) == Flushed(l) by { SameFlush(l, joined); }
    AfterFlush(joined, e.flushed);
    FlushedCache(joined, e.flushed);
    OnlyCached(p, addr, Flushed(l));
    TimingIs(ProcessPending(joined, e.flushed).(startStop := STOPPED), p.timeline, e.xform, e.now);
  }

  lemma SameFlush(l: Link, joined: Link)
    requires l.pending.Some? && joined.pending == l.pending && joined.timeline == l.timeline && joined.xform == l.xform
    ensures Flushed(joined) == Flushed(l)
  {
  }

  lemma OnlyCached(p: PeerState, addr: Addr, tl: Timeline)
    ensures SetSessionTimeline(map[PeerKey(p.ident, addr) := p], p.session, tl)
         == map[PeerKey(p.ident, addr) := p.(timeline := tl)]
  {
  }

  lemma TimingIs(l: Link, tl: Timeline, xform: GhostXForm, now: int)
    ensures var l' := UpdateSessionTiming(l, tl, xform, now);
            && l'.timeline == ClampTempo(tl) && l'.xform == xform && l'.sessionId == l.sessionId
            && l'.startStop == l.startStop && l'.registry == l.registry && l'.cache == l.cache
  {
  }

  lemma FlushedCache(l: Link, now: int)
    requires l.pending.Some?
    ensures ProcessPending(l, now).cache == SetSessionTimeline(l.cache, l.sessionId, Flushed(l))
  {
  }

  /** Then a sighting in the new session with a beat origin between the two lowers the
      session's beat origin, although the peer stays in the session. */
  lemma BeatOriginCanDecrease(l: Link, s: Story, next: Event)
    requires Tells(l, s) && next.PeerSeen? && next.peer.session == s.sighting.peer.session
    requires StoryFlush(l, s).beatOrigin < next.peer.timeline.beatOrigin < s.sighting.peer.timeline.beatOrigin
    ensures var l' := Told(l, s);
            && Next(l', next).sessionId == l'.sessionId
            && Next(l', next).timeline.beatOrigin == next.peer.timeline.beatOrigin < l'.timeline.beatOrigin
  {
    AfterStory(l, s);
    var l' := Told(l, s);
    assert !TimelineCached(l'.cache, next.peer.session, next.peer.timeline);
  }

  /** And the start/stop state of the peer sighted before the switch stays hidden after
      it, although it is newer than the controller's. */
  lemma StartStopStaysHidden(l: Link, s: Story, again: Event)
    requires Tells(l, s) && s.sighting.peer.startStop.timestamp > 0
    requires again.PeerSeen? && again.peer.session == s.sighting.peer.session
    requires again.peer.startStop == s.sighting.peer.startStop
    ensures var l' := Told(l, s);
            && again.peer.session == l'.sessionId && again.peer.startStop.timestamp > l'.startStop.timestamp
            && Next(l', again).startStop == l'.startStop == STOPPED
  {
    AfterStory(l, s);
    var l', p := Told(l, s), s.sighting.peer;
    assert PeerKey(p.ident, s.sighting.addr) in l'.cache;
    assert StartStopCached(l'.cache, p.session, p.startStop);
  }

  /** Such stories exist: peer 1, which starts at 120 bpm, sights peer 2 with beat
      origin 50, pushes 60 bpm, and finds the other session a second ahead. */
  lemma AStory() returns (l: Link, s: Story, next: Event)
    ensures Tells(l, s) && s.sighting.peer.startStop.timestamp > 0
    ensures next.PeerSeen? && next.peer.session == s.sighting.peer.session
    ensures StoryFlush(l, s).beatOrigin
            < next.peer.timeline.beatOrigin < s.sighting.peer.timeline.beatOrigin
  {
    var tempo, pushed := Tempo(120.0), Timeline(Tempo(60.0), 0, 0);
    var high, low := Timeline(tempo, 50, 0), Timeline(tempo, 10, 0);
    l, s := FirstStory(1, 2, tempo, high, StartStop(true, 0, 1), pushed);
    next := PeerSeen(PeerState(3, 2, low, STOPPED), 0, 0);
    FlushAtOrigin(l.timeline, pushed, l.xform);
  }

  lemma FirstStory(me: Id, them: Id, tempo: Tempo, theirs: Timeline, startStop: StartStop, pushed: ClampedTimeline)
    returns (l: Link, s: Story)
    requires me != them && 20.0 <= tempo.bpm <= 999.0
    ensures l.timeline == Timeline(tempo, 0, 0) && l.xform == GhostXForm(0)
    ensures s.sighting == PeerSeen(PeerState(them, them, theirs, startStop), 0, 0)
    ensures s.push == RealtimePushed(Some((0, pushed)), None)
    ensures Tells(l, s)
  {
    l := InitialLink(me, tempo, 0, 0);
    InitialInv(me, tempo, 0, 0);
    s := Story(PeerSeen(PeerState(them, them, theirs, startStop), 0, 0), RealtimePushed(Some((0, pushed)), None),
               MeasurementDone(them, GhostXForm(1000000), 0, 0, 0, 0));
  }

  lemma FlushAtOrigin(tl: ClampedTimeline, pushed: ClampedTimeline, xform: GhostXForm)
    requires tl.beatOrigin == tl.timeOrigin == xform.intercept == 0 && tl.tempo != pushed.tempo
    ensures UpdateSessionTimelineFromClient(tl, pushed, 0, xform).beatOrigin == 1
  {
    RoundMultiple(0, tl.M());
    assert Scale(0, MICRO, tl.M()) == 0;
  }
}
