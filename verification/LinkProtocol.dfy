/** The session protocol of one peer, as a state machine over plain values: the registry
    of sessions, the cache of sighted peers that filters what the registry is told, and
    the controller's session and client state.  `Peers`, `Sessions` and `Controller`
    hold the same state in objects and are proved against the functions here. */
module LinkProtocol {
  import opened Rounding
  import opened Timelines
  import opened ClientSessionTimelines
  import opened Wrappers

  /** Ids are eight bytes compared lexicographically, here the number they spell. */
  type Id = nat
  type Addr = nat

  datatype StartStop = StartStop(isPlaying: bool, beats: int, timestamp: int)
  const STOPPED := StartStop(false, 0, 0)

  /** The same for a client, in host times. */
  datatype ClientStartStop = ClientStartStop(isPlaying: bool, time: int, timestamp: int)

  datatype PeerState = PeerState(ident: Id, session: Id, timeline: Timeline, startStop: StartStop)
  datatype PeerKey = PeerKey(ident: Id, addr: Addr)
  type Cache = map<PeerKey, PeerState>

  /** `None` stands for the transform of slope 0 that an unmeasured session holds. */
  datatype Measurement = Measurement(xform: GhostXForm, timestamp: int)
  datatype Session = Session(id: Id, timeline: Timeline, measurement: Option<Measurement>) {
    function HostToGhost(hostTime: int): int {
      if measurement.Some? then measurement.value.xform.HostToGhost(hostTime) else 0
    }
  }

  datatype Registry = Registry(current: Session, others: map<Id, Session>)

  // ---------------------------------------------------------------- the registry

  const SESSION_EPS := 500000

  /** The larger beat origin wins. */
  function AdoptTimeline(mine: Timeline, seen: Timeline): Timeline {
    if seen.beatOrigin > mine.beatOrigin then seen else mine
  }

  function Adopt(session: Session, seen: Timeline): Session {
    session.(timeline := AdoptTimeline(session.timeline, seen))
  }

  function SawSessionTimeline(r: Registry, id: Id, tl: Timeline): Registry {
    if id == r.current.id then r.(current := Adopt(r.current, tl))
    else if id in r.others then r.(others := r.others[id := Adopt(r.others[id], tl)])
    else r.(others := r.others[id := Session(id, tl, None)])
  }

  /** Whether the newly measured session wins over the current one. */
  predicate Prefers(curGhost: int, newGhost: int, curId: Id, newId: Id) {
    var ghostDiff := newGhost - curGhost;
    ghostDiff > SESSION_EPS || (Abs(ghostDiff) < SESSION_EPS && newId < curId)
  }

  predicate SwitchesTo(r: Registry, id: Id, xform: GhostXForm, hostTime: int) {
    && id != r.current.id && id in r.others
    && Prefers(r.current.HostToGhost(hostTime), xform.HostToGhost(hostTime), r.current.id, id)
  }

  function Measured(r: Registry, id: Id, m: Measurement, hostTime: int): Registry {
    if id == r.current.id then r.(current := r.current.(measurement := Some(m)))
    else if id !in r.others then r
    else
      var measured := r.others[id].(measurement := Some(m));
      if SwitchesTo(r, id, m.xform, hostTime) then
        Registry(measured, (r.others - {id})[r.current.id := r.current])
      else r.(others := r.others[id := measured])
  }

  function MeasurementFailed(r: Registry, id: Id): Registry {
    if id == r.current.id then r else r.(others := r.others - {id})
  }

  /** Marks that the current session is being measured again. */
  function RemeasureCurrent(r: Registry): Registry {
    if r.current.measurement.Some? then
      r.(current := r.current.(measurement := Some(r.current.measurement.value.(timestamp := 0))))
    else r
  }

  function KnownSessions(r: Registry): set<Id> { r.others.Keys + {r.current.id} }

  function Lookup(r: Registry, id: Id): Session
    requires id in KnownSessions(r)
  {
    if id == r.current.id then r.current else r.others[id]
  }

  ghost predicate RegistryOk(r: Registry) {
    && r.current.id !in r.others
    && r.current.measurement.Some?
    && forall id :: id in r.others ==> r.others[id].id == id
  }

  // ---------------------------------------------------------------- the cache

  predicate TimelineCached(c: Cache, session: Id, tl: Timeline) {
    exists k :: k in c && c[k].session == session && c[k].timeline == tl
  }

  predicate StartStopCached(c: Cache, session: Id, ss: StartStop) {
    exists k :: k in c && c[k].session == session && c[k].startStop == ss
  }

  function SetSessionTimeline(c: Cache, session: Id, tl: Timeline): Cache {
    map k | k in c :: if c[k].session == session then c[k].(timeline := tl) else c[k]
  }

  function ForgetSession(c: Cache, session: Id): Cache {
    map k | k in c && c[k].session != session :: c[k]
  }

  function CloseGateway(c: Cache, addr: Addr): Cache {
    map k | k in c && k.addr != addr :: c[k]
  }

  // ---------------------------------------------------------------- the controller

  /** `pending` is the realtime timeline not yet processed, with its timestamp, and
      `pendingStartStop` the realtime start/stop state; `sync` says whether the client
      takes part in starting and stopping. */
  datatype Link = Link(
    nodeId: Id, sessionId: Id,
    timeline: ClampedTimeline, startStop: StartStop, xform: GhostXForm,
    client: ClampedTimeline, clientStartStop: ClientStartStop, sync: bool,
    pending: Option<(int, ClampedTimeline)>, pendingStartStop: Option<ClientStartStop>,
    registry: Registry, cache: Cache)

  function SelectPreferred(current: ClientStartStop, ss: ClientStartStop): ClientStartStop {
    if ss.timestamp > current.timestamp then ss else current
  }

  function ToClient(ss: StartStop, tl: Timeline, xform: GhostXForm): ClientStartStop
    requires tl.Valid()
  {
    ClientStartStop(ss.isPlaying, xform.GhostToHost(tl.FromBeats(ss.beats)), xform.GhostToHost(ss.timestamp))
  }

  function FromClient(ss: ClientStartStop, tl: Timeline, xform: GhostXForm): StartStop
    requires tl.Valid()
  {
    StartStop(ss.isPlaying, tl.ToBeats(xform.HostToGhost(ss.time)), xform.HostToGhost(ss.timestamp))
  }

  function UpdateSessionTiming(l: Link, tl: Timeline, xform: GhostXForm, now: int): Link {
    var clamped := ClampTempo(tl);
    if l.timeline != clamped || l.xform != xform then
      l.(timeline := clamped, xform := xform,
         client := UpdateClientTimelineFromSession(l.client, clamped, now, xform),
         clientStartStop := if l.sync && l.startStop != STOPPED then ToClient(l.startStop, clamped, xform)
                            else l.clientStartStop)
    else l
  }

  function TimelineFromSession(l: Link, id: Id, tl: Timeline, now: int): Link {
    var registry := SawSessionTimeline(l.registry, id, tl);
    UpdateSessionTiming(l.(registry := registry), registry.current.timeline, l.xform, now)
  }

  function StartStopFromSession(l: Link, id: Id, ss: StartStop): Link {
    if id == l.sessionId && ss.timestamp > l.startStop.timestamp then
      l.(startStop := ss,
         clientStartStop := if l.sync then ToClient(ss, l.timeline, l.xform) else l.clientStartStop)
    else l
  }

  /** A sighting, with the choice of what the controller is told about it. */
  function Sighting(l: Link, p: PeerState, addr: Addr, now: int, tellTimeline: bool, tellStartStop: bool): Link {
    var cached := l.(cache := l.cache[PeerKey(p.ident, addr) := p]);
    var timed := if tellTimeline then TimelineFromSession(cached, p.session, p.timeline, now) else cached;
    if tellStartStop then StartStopFromSession(timed, p.session, p.startStop) else timed
  }

  function SawPeer(l: Link, p: PeerState, addr: Addr, now: int): Link {
    Sighting(l, p, addr, now,
             !TimelineCached(l.cache, p.session, p.timeline),
             !StartStopCached(l.cache, p.session, p.startStop))
  }

  function HandleClientTimeline(l: Link, tl: ClampedTimeline, at: int, now: int): Link {
    var t := UpdateSessionTimelineFromClient(l.timeline, tl, at, l.xform);
    UpdateSessionTiming(
      l.(registry := l.registry.(current := l.registry.current.(timeline := t)),
         cache := SetSessionTimeline(l.cache, l.sessionId, t)),
      t, l.xform, now)
  }

  function HandleClientStartStop(l: Link, ss: ClientStartStop): Link {
    if l.sync && l.xform.HostToGhost(ss.timestamp) > l.startStop.timestamp then
      l.(startStop := FromClient(ss, l.timeline, l.xform), clientStartStop := ss)
    else l
  }

  function HandleClientState(
    l: Link, tl: Option<(int, ClampedTimeline)>, ss: Option<ClientStartStop>, now: int): Link
  {
    var timed := match tl case None => l case Some((at, t)) => HandleClientTimeline(l, t, at, now);
    match ss case None => timed case Some(s) => HandleClientStartStop(timed, s)
  }

  /** What the client asks for becomes its own state, but never an older start/stop state. */
  function SetClient(l: Link, tl: Option<ClampedTimeline>, ss: Option<ClientStartStop>): Link {
    l.(client := if tl.Some? then tl.value else l.client,
       clientStartStop := if ss.Some? then SelectPreferred(l.clientStartStop, ss.value) else l.clientStartStop)
  }

  function ProcessPending(l: Link, now: int): Link {
    var client := SetClient(l, if l.pending.Some? then Some(l.pending.value.1) else None, l.pendingStartStop);
    var ss := if l.pendingStartStop.Some? then Some(client.clientStartStop) else None;
    HandleClientState(client.(pending := None, pendingStartStop := None), l.pending, ss, now)
  }

  function JoinSession(l: Link, s: Session, flushed: int, now: int): Link
    requires s.measurement.Some?
  {
    var joined := l.(sessionId := s.id);
    var fresh' := if l.sessionId != s.id then ProcessPending(joined, flushed).(startStop := STOPPED) else joined;
    UpdateSessionTiming(fresh', s.timeline, s.measurement.value.xform, now)
  }

  function ResetState(l: Link, newId: Id, hostTime: int, now: int): Link {
    var xform := GhostXForm(-hostTime);
    var tl := Timeline(l.timeline.tempo, l.timeline.ToBeats(l.xform.HostToGhost(hostTime)),
        xform.HostToGhost(hostTime));
    UpdateSessionTiming(l.(nodeId := newId, sessionId := newId, startStop := STOPPED), tl, xform, now)
      .(registry := Registry(Session(newId, tl, Some(Measurement(xform, hostTime))), map[]), cache := map[])
  }

  function InitialLink(id: Id, tempo: Tempo, hostTime: int, stamp: int): Link {
    var xform := GhostXForm(-hostTime);
    var tl := ClampTempo(Timeline(tempo, 0, 0));
    Link(id, id, tl, STOPPED, xform,
         Timeline(tl.tempo, tl.beatOrigin, xform.GhostToHost(0)),
         ClientStartStop(false, xform.GhostToHost(0), xform.GhostToHost(0)), false, None, None,
         Registry(Session(id, tl, Some(Measurement(xform, stamp))), map[]), map[])
  }

  // ---------------------------------------------------------------- events and runs

  /** Everything that can happen to a controller; the extra times are the successive
      readings of the clock while the event is handled. */
  datatype Event =
    | PeerSeen(peer: PeerState, addr: Addr, now: int)
    | PeerLeft(ident: Id, addr: Addr)
    | GatewayClosed(addr: Addr)
    | MeasurementDone(id: Id, xform: GhostXForm, stamp: int, hostTime: int, flushed: int, now: int)
    | MeasurementLost(id: Id)
    | Remeasured
    | SyncSet(sync: bool)
    | ClientSet(wanted: Option<ClampedTimeline>, wantedStartStop: Option<ClientStartStop>)
    | ClientHandled(client: Option<(int, ClampedTimeline)>, clientStartStop: Option<ClientStartStop>, now: int)
    | RealtimePushed(pushed: Option<(int, ClampedTimeline)>, pushedStartStop: Option<ClientStartStop>)
    | RealtimeProcessed(now: int)
    | Reset(newId: Id, hostTime: int, now: int)

  function Next(l: Link, e: Event): Link {
    match e
    case PeerSeen(p, addr, now) => SawPeer(l, p, addr, now)
    case PeerLeft(ident, addr) => l.(cache := l.cache - {PeerKey(ident, addr)})
    case GatewayClosed(addr) => l.(cache := CloseGateway(l.cache, addr))
    case MeasurementDone(id, xform, stamp, hostTime, flushed, now) =>
      var registry := Measured(l.registry, id, Measurement(xform, stamp), hostTime);
      var measured := l.(registry := registry);
      if (id == l.registry.current.id || SwitchesTo(l.registry, id, xform, hostTime))
         && registry.current.measurement.Some?
      then JoinSession(measured, registry.current, flushed, now)
      else measured
    case MeasurementLost(id) =>
      l.(registry := MeasurementFailed(l.registry, id),
         cache := if id != l.registry.current.id && id in l.registry.others
             then ForgetSession(l.cache, id) else l.cache)
    case Remeasured => l.(registry := RemeasureCurrent(l.registry))
    case SyncSet(sync) => l.(sync := sync)
    case ClientSet(tl, ss) => SetClient(l, tl, ss)
    case ClientHandled(tl, ss, now) => HandleClientState(l, tl, ss, now)
    case RealtimePushed(tl, ss) =>
      l.(pending := if tl.Some? then tl else l.pending,
         pendingStartStop := if ss.Some? then ss else l.pendingStartStop)
    case RealtimeProcessed(now) => ProcessPending(l, now)
    case Reset(newId, hostTime, now) => ResetState(l, newId, hostTime, now)
  }

  /** The same machine without the filter: every sighting is told in full. */
  function NextUnfiltered(l: Link, e: Event): Link {
    if e.PeerSeen? then Sighting(l, e.peer, e.addr, e.now, true, true) else Next(l, e)
  }

  function Run(l: Link, es: seq<Event>): Link
    decreases |es|
  {
    if es == [] then l else Run(Next(l, es[0]), es[1..])
  }

  function RunUnfiltered(l: Link, es: seq<Event>): Link
    decreases |es|
  {
    if es == [] then l else RunUnfiltered(NextUnfiltered(l, es[0]), es[1..])
  }

  // ---------------------------------------------------------------- the invariant

  /** Every cached peer's session is known, and no cached timeline outranks the one
      recorded for its session. */
  ghost predicate CacheBelowRegistry(l: Link) {
    forall k :: k in l.cache ==>
      && l.cache[k].ident == k.ident
      && l.cache[k].session in KnownSessions(l.registry)
      && l.cache[k].timeline.beatOrigin <= Lookup(l.registry, l.cache[k].session).timeline.beatOrigin
  }

  ghost predicate Core(l: Link) {
    && l.sessionId == l.registry.current.id
    && RegistryOk(l.registry)
    && CacheBelowRegistry(l)
  }

  ghost predicate Inv(l: Link) {
    Core(l) && l.xform == l.registry.current.measurement.value.xform
  }

  /** The controller's timeline is the registry's, tempo clamped. */
  ghost predicate Agree(l: Link) {
    l.timeline == ClampTempo(l.registry.current.timeline)
  }

  lemma InitialInv(id: Id, tempo: Tempo, hostTime: int, stamp: int)
    ensures Inv(InitialLink(id, tempo, hostTime, stamp)) && Agree(InitialLink(id, tempo, hostTime, stamp))
  {
  }

  lemma CoreHandleClient(l: Link, tl: ClampedTimeline, at: int, now: int)
    requires Core(l)
    ensures var l' := HandleClientTimeline(l, tl, at, now);
            Core(l') && l'.xform == l.xform && Agree(l')
  {
  }

  lemma CoreHandleState(l: Link, tl: Option<(int, ClampedTimeline)>, ss: Option<ClientStartStop>, now: int)
    requires Core(l)
    ensures var l' := HandleClientState(l, tl, ss, now);
            && Core(l') && l'.xform == l.xform && l'.sessionId == l.sessionId
            && l'.registry.current.measurement == l.registry.current.measurement
            && (tl.Some? || Agree(l) ==> Agree(l'))
            && (tl.None? ==> l'.timeline == l.timeline && l'.registry == l.registry && l'.cache == l.cache)
  {
    if tl.Some? {
      var (at, t) := tl.value;
      CoreHandleClient(l, t, at, now);
    }
  }

  lemma SightingInv(l: Link, p: PeerState, addr: Addr, now: int, tellTimeline: bool, tellStartStop: bool)
    requires Inv(l)
    requires tellTimeline || TimelineCached(l.cache, p.session, p.timeline)
    ensures Inv(Sighting(l, p, addr, now, tellTimeline, tellStartStop))
  {
    var l' := Sighting(l, p, addr, now, tellTimeline, tellStartStop);
    if tellTimeline { SawIsAbove(l.registry, p.session, p.timeline); }
    assert l'.xform == l.xform && l'.sessionId == l.sessionId;
    assert l'.registry == if tellTimeline then SawSessionTimeline(l.registry, p.session, p.timeline) else l.registry;
    assert l'.cache == l.cache[PeerKey(p.ident, addr) := p];
  }

  lemma SawIsAbove(r: Registry, id: Id, tl: Timeline)
    requires RegistryOk(r)
    ensures var r' := SawSessionTimeline(r, id, tl);
            && RegistryOk(r') && r'.current.id == r.current.id && r'.current.measurement == r.current.measurement
            && KnownSessions(r') == KnownSessions(r) + {id}
            && Lookup(r', id).timeline.beatOrigin >= tl.beatOrigin
            && forall k :: k in KnownSessions(r) ==>
                 Lookup(r', k).timeline.beatOrigin >= Lookup(r, k).timeline.beatOrigin
  {
  }

  lemma MeasuredOk(l: Link, id: Id, m: Measurement, hostTime: int)
    requires Inv(l)
    ensures var r := Measured(l.registry, id, m, hostTime);
            && Core(l.(registry := r, sessionId := r.current.id))
            && KnownSessions(r) == KnownSessions(l.registry)
            && r.current.id == (if SwitchesTo(l.registry, id, m.xform, hostTime) then id else l.registry.current.id)
            && (r.current.id == id ==> r.current.measurement == Some(m))
            && (r.current.id != id ==> r.current == l.registry.current)
  {
    var r := Measured(l.registry, id, m, hostTime);
    forall k | k in KnownSessions(l.registry)
      ensures k in KnownSessions(r) && Lookup(r, k).timeline == Lookup(l.registry, k).timeline
    {
    }
  }

  lemma PendingCore(l: Link, now: int)
    requires Core(l)
    ensures var l' := ProcessPending(l, now);
            && Core(l') && l'.xform == l.xform && l'.sessionId == l.sessionId
            && l'.registry.current.measurement == l.registry.current.measurement
            && (l.pending.Some? || Agree(l) ==> Agree(l'))
            && (l.pending.None? ==> l'.timeline == l.timeline && l'.registry == l.registry && l'.cache == l.cache)
  {
    hide HandleClientState;
    var client := SetClient(l, if l.pending.Some? then Some(l.pending.value.1) else None, l.pendingStartStop);
    var ss := if l.pendingStartStop.Some? then Some(client.clientStartStop) else None;
    CoreHandleState(client.(pending := None, pendingStartStop := None), l.pending, ss, now);
  }

  lemma JoinInv(l: Link, flushed: int, now: int)
    requires Core(l.(sessionId := l.registry.current.id))
    ensures Inv(JoinSession(l, l.registry.current, flushed, now))
  {
    var joined := l.(sessionId := l.registry.current.id);
    PendingCore(joined, flushed);
  }

  lemma CacheEventInv(l: Link, e: Event)
    requires Inv(l) && (e.PeerLeft? || e.GatewayClosed? || e.MeasurementLost? || e.Remeasured?)
    ensures Inv(Next(l, e))
  {
  }

  lemma PendingInv(l: Link, now: int)
    requires Inv(l)
    ensures Inv(ProcessPending(l, now))
  {
    PendingCore(l, now);
  }

  lemma MeasurementDoneInv(l: Link, e: Event)
    requires Inv(l) && e.MeasurementDone?
    ensures Inv(Next(l, e))
  {
    var m := Measurement(e.xform, e.stamp);
    var measured := l.(registry := Measured(l.registry, e.id, m, e.hostTime));
    MeasuredOk(l, e.id, m, e.hostTime);
    if measured.registry.current.id == e.id {
      JoinInv(measured, e.flushed, e.now);
    } else {
      assert Next(l, e) == measured;
    }
  }

  lemma InvStep(l: Link, e: Event)
    requires Inv(l)
    ensures Inv(Next(l, e))
  {
    match e
    case PeerSeen(p, addr, now) =>
      SightingInv(l, p, addr, now, !TimelineCached(l.cache, p.session, p.timeline), !StartStopCached(l.cache,
          p.session, p.startStop));
    case MeasurementDone(_, _, _, _, _, _) => MeasurementDoneInv(l, e);
    case ClientHandled(tl, ss, now) => CoreHandleState(l, tl, ss, now);
    case RealtimeProcessed(now) => PendingInv(l, now);
    case PeerLeft(_, _) => CacheEventInv(l, e);
    case GatewayClosed(_) => CacheEventInv(l, e);
    case MeasurementLost(_) => CacheEventInv(l, e);
    case Remeasured => CacheEventInv(l, e);
    case _ =>
  }

  /** In every reachable state the cache stays below the registry. */
  lemma {:induction false} InvAlongRun(l: Link, es: seq<Event>)
    requires Inv(l)
    ensures Inv(Run(l, es))
    decreases |es|
  {
    if es != [] {
      InvStep(l, es[0]);
      InvAlongRun(Next(l, es[0]), es[1..]);
    }
  }
}
