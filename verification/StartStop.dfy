/** What becomes of starting and stopping: between a client, its session, and the clients of
    other peers. */
module StartStops {
  import opened Rounding
  import opened Timelines
  import opened ClientSessionTimelines
  import opened LinkProtocol
  import opened ProtocolTheorems
  import opened Wrappers

  // ---------------------------------------------------------------- from the client

  /** The start/stop states that the client sets in a run. */
  function Wanted(es: seq<Event>): seq<ClientStartStop> {
    if es == [] then []
    else if es[0].ClientSet? && es[0].wantedStartStop.Some? then [es[0].wantedStartStop.value] + Wanted(es[1..])
    else Wanted(es[1..])
  }

  /** However many the client sets, and in whatever order, it holds one of them, or the one that
      it had, and none of them is later. */
  lemma {:induction false} LatestIsHeld(l: Link, es: seq<Event>)
    requires forall i :: 0 <= i < |es| ==> es[i].ClientSet?
    ensures var held, all := Run(l, es).clientStartStop, [l.clientStartStop] + Wanted(es);
            held in all && forall s :: s in all ==> s.timestamp <= held.timestamp
    decreases |es|
  {
    if es != [] {
      LatestIsHeld(Next(l, es[0]), es[1..]);
    }
  }

  /** The client sets its state, which is then handled: the timeline, if any, with its time, and
      the start/stop state, if any, that the client has by then. */
  function SetAndHandled(l: Link, tl: Option<(int, ClampedTimeline)>, ss: Option<ClientStartStop>, now: int): Link {
    var set' := Next(l, ClientSet(if tl.Some? then Some(tl.value.1) else None, ss));
    Next(set', ClientHandled(tl, if ss.Some? then Some(set'.clientStartStop) else None, now))
  }

  /** A start or stop that is later than what client and session know is the session's once it is
      handled, at the beat of its time. */
  lemma StartIsTaken(l: Link, tl: Option<(int, ClampedTimeline)>, ss: ClientStartStop, now: int)
    requires l.sync && ss.timestamp > l.clientStartStop.timestamp
    requires l.xform.HostToGhost(ss.timestamp) > l.startStop.timestamp
    ensures var l' := SetAndHandled(l, tl, Some(ss), now);
            && l'.clientStartStop == ss
            && l'.startStop.isPlaying == ss.isPlaying
            && l'.startStop.timestamp == l'.xform.HostToGhost(ss.timestamp)
            && l'.startStop.beats == l'.timeline.ToBeats(l'.xform.HostToGhost(ss.time))
  {
    hide Timeline.ToBeats, Timeline.FromBeats, UpdateSessionTimelineFromClient, UpdateClientTimelineFromSession;
  }

  /** What comes through the realtime path, where nothing else is pending, has the effect of what
      is set and handled directly. */
  lemma RealtimeIsDirect(l: Link, tl: Option<(int, ClampedTimeline)>, ss: Option<ClientStartStop>, now: int)
    requires l.pending.None? && l.pendingStartStop.None?
    ensures Next(Next(l, RealtimePushed(tl, ss)), RealtimeProcessed(now)) == SetAndHandled(l, tl, ss, now)
  {
    hide UpdateSessionTiming, UpdateSessionTimelineFromClient, FromClient, SelectPreferred;
  }

  /** The last one that there is, or else the one before them all. */
  function LastOf<T>(before: Option<T>, xs: seq<Option<T>>): Option<T> {
    if xs == [] then before
    else if xs[|xs| - 1].Some? then xs[|xs| - 1]
    else LastOf(before, xs[..|xs| - 1])
  }

  lemma {:induction false} LastOfRest<T>(before: Option<T>, xs: seq<Option<T>>)
    requires xs != []
    ensures LastOf(before, xs) == LastOf(if xs[0].Some? then xs[0] else before, xs[1..])
  {
    if |xs| > 1 && xs[|xs| - 1].None? {
      LastOfRest(before, xs[..|xs| - 1]);
      assert xs[..|xs| - 1][1..] == xs[1..][..|xs| - 2];
    }
  }

  function PushedTimelines(es: seq<Event>): seq<Option<(int, ClampedTimeline)>>
    requires forall i :: 0 <= i < |es| ==> es[i].RealtimePushed?
  {
    if es == [] then [] else [es[0].pushed] + PushedTimelines(es[1..])
  }

  function PushedStartStops(es: seq<Event>): seq<Option<ClientStartStop>>
    requires forall i :: 0 <= i < |es| ==> es[i].RealtimePushed?
  {
    if es == [] then [] else [es[0].pushedStartStop] + PushedStartStops(es[1..])
  }

  /** Of what is pushed before it is processed the last timeline and the last start/stop state stay
      pending, whether or not they came together. */
  lemma {:induction false} LastPushedIsPending(l: Link, es: seq<Event>)
    requires forall i :: 0 <= i < |es| ==> es[i].RealtimePushed?
    ensures Run(l, es).pending == LastOf(l.pending, PushedTimelines(es))
    ensures Run(l, es).pendingStartStop == LastOf(l.pendingStartStop, PushedStartStops(es))
    decreases |es|
  {
    if es != [] {
      LastPushedIsPending(Next(l, es[0]), es[1..]);
      LastOfRest(l.pending, PushedTimelines(es));
      LastOfRest(l.pendingStartStop, PushedStartStops(es));
    }
  }

  /** A client's start/stop state that is mapped to the session and back keeps whether it
      plays and its timestamp, and its time to (M / 10^6 + 1) / 2 microseconds, exactly from
      60 bpm up. */
  lemma StartStopThereAndBack(ss: ClientStartStop, tl: ClampedTimeline, xform: GhostXForm)
    ensures var back := ToClient(FromClient(ss, tl, xform), tl, xform);
            && back.isPlaying == ss.isPlaying && back.timestamp == ss.timestamp
            && 2 * MICRO * Abs(back.time - ss.time) <= tl.M() + MICRO
            && (tl.M() <= MICRO ==> back == ss)
  {
    hide Timeline.ToBeats, Timeline.FromBeats, Timeline.M;
    TimeRoundTripError(tl, xform.HostToGhost(ss.time));
    if tl.M() <= MICRO { TimeRoundTripExact(tl); }
  }

  // ---------------------------------------------------------------- to another peer

  /** Such a start or stop reaches another peer that takes part: its client starts or stops at the
      same ghost time, to (M / 10^6 + 1) / 2 microseconds, unless it knows a state that is as
      new. */
  lemma StartReachesPeer(
    a: Link, tl: Option<(int, ClampedTimeline)>, ss: ClientStartStop, now: int, b: Link, heard: Event)
    requires a.sync && ss.timestamp > a.clientStartStop.timestamp
    requires a.xform.HostToGhost(ss.timestamp) > a.startStop.timestamp
    requires b.sync && NoNewerCached(b) && heard.PeerSeen? && heard.peer.session == b.sessionId
    requires heard.peer.startStop == SetAndHandled(a, tl, Some(ss), now).startStop
    requires SameOnWire(SetAndHandled(a, tl, Some(ss), now).timeline, Next(b, heard).timeline)
    ensures var a', b' := SetAndHandled(a, tl, Some(ss), now), Next(b, heard);
            || b.startStop.timestamp >= a'.xform.HostToGhost(ss.timestamp)
            || (b'.clientStartStop.isPlaying == ss.isPlaying
                && b'.xform.HostToGhost(b'.clientStartStop.timestamp) == a'.xform.HostToGhost(ss.timestamp)
                && 2 * MICRO * Abs(b'.xform.HostToGhost(b'.clientStartStop.time) - a'.xform.HostToGhost(ss.time))
                   <= a'.timeline.M() + MICRO)
  {
    hide Timeline.ToBeats, Timeline.FromBeats, UpdateSessionTiming, OnWire, Timeline.M, SetAndHandled;
    var a', b' := SetAndHandled(a, tl, Some(ss), now), Next(b, heard);
    var state := heard.peer.startStop;
    StartIsTaken(a, tl, ss, now);
    NoNewsCached(b, heard.peer);
    if b.startStop.timestamp < state.timestamp {
      HeardStart(b, heard);
      SameOnWireConverts(a'.timeline, b'.timeline, state.beats);
      ClampedIs(a'.timeline);
      ClampedIs(b'.timeline);
      TimeRoundTripError(a'.timeline, a'.xform.HostToGhost(ss.time));
    }
  }

  /** News of the session are converted by its timeline. */
  lemma HeardStart(l: Link, e: Event)
    requires e.PeerSeen? && l.sync && IsNews(l, e.peer) && !StartStopCached(l.cache, e.peer.session, e.peer.startStop)
    ensures var l' := Next(l, e); l'.clientStartStop == ToClient(e.peer.startStop, l'.timeline, l'.xform)
  {
  }

  // ---------------------------------------------------------------- from the session

  /** The event neither sets nor handles a start/stop state of the client. */
  predicate LeavesStartStop(l: Link, e: Event) {
    && (e.ClientSet? ==> e.wantedStartStop.None?)
    && (e.ClientHandled? ==> e.clientStartStop.None?)
    && (e.RealtimeProcessed? ==> l.pendingStartStop.None?)
    && (e.MeasurementDone? ==> l.pendingStartStop.None?)
  }

  /** The client of a peer that takes no part keeps its start/stop state whatever the session
      does. */
  lemma SyncOffKeepsClient(l: Link, e: Event)
    requires !l.sync && LeavesStartStop(l, e)
    ensures Next(l, e).clientStartStop == l.clientStartStop
  {
    hide UpdateSessionTimelineFromClient, UpdateClientTimelineFromSession;
  }

  /** Nor does that client start or stop the session, which forgets what it had only as it ends or
      the peer leaves it. */
  lemma SyncOffKeepsSession(l: Link, e: Event)
    requires Inv(l) && !l.sync && !e.PeerSeen?
    ensures var l' := Next(l, e);
            l'.startStop == if e.Reset? || l'.sessionId != l.sessionId then STOPPED else l.startStop
  {
    hide UpdateSessionTimelineFromClient, UpdateClientTimelineFromSession;
    if e.MeasurementDone? {
      MeasuredOk(l, e.id, Measurement(e.xform, e.stamp), e.hostTime);
      SwitchConserves(l, e);
    }
  }

  /** The states differ at most in whether the client takes part and in its start/stop state. */
  ghost predicate Alike(l: Link, m: Link) { m == l.(sync := m.sync, clientStartStop := m.clientStartStop) }

  /** But such a peer is as good a relay as any: in all else it goes on as one that takes part. */
  lemma SyncOffRelays(l: Link, m: Link, e: Event)
    requires Alike(l, m) && LeavesStartStop(l, e)
    ensures Alike(Next(l, e), Next(m, e))
  {
    hide UpdateSessionTiming, UpdateSessionTimelineFromClient, SawSessionTimeline;
    match e
    case PeerSeen(p, addr, now) => SightingAlike(l, m, p, addr, now);
    case MeasurementDone(_, _, _, _, _, _) => MeasuredAlike(l, m, e);
    case ClientHandled(tl, ss, now) => HandledAlike(l, m, tl, now);
    case RealtimeProcessed(now) => PendingAlike(l, m, now);
    case Reset(newId, hostTime, now) => ResetAlike(l, m, newId, hostTime, now);
    case _ =>
  }

  lemma TimingAlike(l: Link, m: Link, tl: Timeline, xform: GhostXForm, now: int)
    requires Alike(l, m)
    ensures Alike(UpdateSessionTiming(l, tl, xform, now), UpdateSessionTiming(m, tl, xform, now))
  {
  }

  lemma SightingAlike(l: Link, m: Link, p: PeerState, addr: Addr, now: int)
    requires Alike(l, m)
    ensures Alike(SawPeer(l, p, addr, now), SawPeer(m, p, addr, now))
  {
    hide UpdateSessionTiming;
    var cache := l.cache[PeerKey(p.ident, addr) := p];
    var registry := SawSessionTimeline(l.registry, p.session, p.timeline);
    TimingAlike(l.(cache := cache, registry := registry), m.(cache := cache, registry := registry),
                registry.current.timeline, l.xform, now);
  }

  lemma HandledAlike(l: Link, m: Link, tl: Option<(int, ClampedTimeline)>, now: int)
    requires Alike(l, m)
    ensures Alike(HandleClientState(l, tl, None, now), HandleClientState(m, tl, None, now))
  {
    hide UpdateSessionTiming;
    if tl.Some? {
      var t := UpdateSessionTimelineFromClient(l.timeline, tl.value.1, tl.value.0, l.xform);
      var registry := l.registry.(current := l.registry.current.(timeline := t));
      var cache := SetSessionTimeline(l.cache, l.sessionId, t);
      TimingAlike(l.(registry := registry, cache := cache), m.(registry := registry, cache := cache), t, l.xform, now);
    }
  }

  lemma PendingAlike(l: Link, m: Link, now: int)
    requires Alike(l, m) && l.pendingStartStop.None?
    ensures Alike(ProcessPending(l, now), ProcessPending(m, now))
  {
    hide HandleClientState;
    var client := if l.pending.Some? then l.pending.value.1 else l.client;
    HandledAlike(l.(client := client, pending := None), m.(client := client, pending := None), l.pending, now);
  }

  lemma MeasuredAlike(l: Link, m: Link, e: Event)
    requires Alike(l, m) && e.MeasurementDone? && l.pendingStartStop.None?
    ensures Alike(Next(l, e), Next(m, e))
  {
    hide UpdateSessionTiming, ProcessPending;
    var registry := Measured(l.registry, e.id, Measurement(e.xform, e.stamp), e.hostTime);
    var s := registry.current;
    if s.measurement.Some? {
      var joinedL, joinedM := l.(registry := registry, sessionId := s.id), m.(registry := registry, sessionId := s.id);
      PendingAlike(joinedL, joinedM, e.flushed);
      TimingAlike(joinedL, joinedM, s.timeline, s.measurement.value.xform, e.now);
      TimingAlike(ProcessPending(joinedL, e.flushed).(startStop := STOPPED),
                  ProcessPending(joinedM, e.flushed).(startStop := STOPPED), s.timeline, s.measurement.value.xform,
                  e.now);
    }
  }

  lemma ResetAlike(l: Link, m: Link, newId: Id, hostTime: int, now: int)
    requires Alike(l, m)
    ensures Alike(ResetState(l, newId, hostTime, now), ResetState(m, newId, hostTime, now))
  {
    hide UpdateSessionTiming;
    var tl := Timeline(l.timeline.tempo, l.timeline.ToBeats(l.xform.HostToGhost(hostTime)),
        GhostXForm(-hostTime).HostToGhost(hostTime));
    TimingAlike(l.(nodeId := newId, sessionId := newId, startStop := STOPPED),
                m.(nodeId := newId, sessionId := newId, startStop := STOPPED), tl, GhostXForm(-hostTime), now);
  }

  /** The client of a peer that takes part is told of a new start/stop state of the session, and
      again where the session's timing changes. */
  lemma ClientIsTold(l: Link, e: Event)
    requires Inv(l) && l.sync && LeavesStartStop(l, e) && FromSession(l, e)
    ensures var l' := Next(l, e);
            l'.clientStartStop == if (e.PeerSeen? && l'.startStop != l.startStop)
                                     || (!SameTiming(l, l') && l'.startStop != STOPPED)
                                  then ToClient(l'.startStop, l'.timeline, l'.xform) else l.clientStartStop
  {
    hide UpdateClientTimelineFromSession, ToClient;
  }

  /** Unless the session has none, its start/stop state is the client's but for the time. */
  ghost predicate Mirrors(l: Link) {
    l.startStop != STOPPED ==>
      && l.clientStartStop.isPlaying == l.startStop.isPlaying
      && l.xform.HostToGhost(l.clientStartStop.timestamp) == l.startStop.timestamp
  }

  /** That stays so while the peer takes part, whatever the session does, and whatever start or
      stop the client sets that is then handled. */
  lemma MirrorsStep(l: Link, e: Event)
    requires l.sync && Mirrors(l) && (LeavesStartStop(l, e) || e.ClientHandled?)
    ensures Mirrors(Next(l, e))
  {
    hide UpdateSessionTimelineFromClient, UpdateClientTimelineFromSession, Timeline.ToBeats, Timeline.FromBeats;
  }

  lemma MirrorsSet(l: Link, tl: Option<(int, ClampedTimeline)>, ss: ClientStartStop, now: int)
    requires l.sync && Mirrors(l)
    ensures Mirrors(SetAndHandled(l, tl, Some(ss), now))
  {
    hide UpdateSessionTimelineFromClient, UpdateClientTimelineFromSession, Timeline.ToBeats, Timeline.FromBeats;
  }
}
