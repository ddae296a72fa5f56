/** The controller over its peers and sessions: every handler takes the step that the
    session protocol prescribes, and keeps its invariant. */
module Controllers {
  import opened Timelines
  import opened ClientSessionTimelines
  import opened LinkProtocol
  import opened Stranding
  import opened Wrappers
  import L = LinkProtocol
  import P = Peers
  import S = Sessions

  datatype Announcement = Announcement(
    nodeId: Id, sessionId: Id, timeline: Timeline, startStop: StartStop, xform: GhostXForm)

  class Controller {
    const peers: P.Peers
    const sessions: S.Sessions
    var nodeId: Id
    var sessionId: Id
    var timeline: ClampedTimeline
    var startStop: StartStop
    var xform: GhostXForm
    var client: ClampedTimeline
    var clientStartStop: ClientStartStop
    var sync: bool
    var pending: Option<(int, ClampedTimeline)>
    var pendingStartStop: Option<ClientStartStop>

    /** What the application knows: the tempo, at first the one it asked for within the limits
        and then what the callback tells; and the number of peers and whether the client plays,
        as its callbacks were last told. */
    var knownTempo: Tempo
    var toldPeers: nat
    var toldPlaying: bool

    /** What the gateways announce to other peers, and answer their pings with. */
    var announced: Announcement

    /** The parts are valid and know each other, and the application knows the tempo. */
    ghost predicate Wired()
      reads this, peers, sessions
    {
      peers.Valid() && sessions.Valid() && sessions.peers == peers && knownTempo == timeline.tempo
    }

    ghost function Model(): Link
      requires Wired()
      reads this, peers, sessions
    {
      Link(nodeId, sessionId, timeline, startStop, xform, client, clientStartStop, sync,
           pending, pendingStartStop, sessions.Known(), peers.Cached())
    }

    /** The gateways announce the state of the session as it is. */
    predicate IsAnnounced()
      reads this
    {
      announced == Announcement(nodeId, sessionId, timeline, startStop, xform)
    }

    ghost predicate Valid()
      reads this, peers, sessions
    {
      Wired() && Inv(Model()) && IsAnnounced()
    }

    /** The state and the measurements under way on its gateways. */
    ghost function InWorld(): World
      requires Wired()
      reads this, peers, sessions
    {
      World(Model(), sessions.measuring)
    }

    constructor (id: Id, tempo: Tempo, hostTime: int, stamp: int)
      ensures Valid() && fresh(peers) && fresh(sessions)
      ensures Model() == InitialLink(id, tempo, hostTime, stamp)
    {
      var first := InitialLink(id, tempo, hostTime, stamp);
      nodeId, sessionId, timeline, startStop, xform := id, id, first.timeline, STOPPED, first.xform;
      client, clientStartStop, sync := first.client, first.clientStartStop, false;
      pending, pendingStartStop := None, None;
      knownTempo, toldPeers, toldPlaying := first.timeline.tempo, 0, false;
      announced := Announcement(id, id, first.timeline, STOPPED, first.xform);
      var cache := new P.Peers();
      peers := cache;
      sessions := new S.Sessions(first.registry.current, cache);
    }

    method UpdateDiscovery()
      modifies this`announced
      ensures IsAnnounced()
    {
      announced := Announcement(nodeId, sessionId, timeline, startStop, xform);
    }

    method UpdateSessionTiming(tl: Timeline, newXForm: GhostXForm, now: int)
      requires Wired()
      modifies this
      ensures Wired() && Model() == L.UpdateSessionTiming(old(Model()), tl, newXForm, now)
    {
      var clamped := ClampTempo(tl);
      if timeline != clamped || xform != newXForm {
        timeline, xform := clamped, newXForm;
        client := UpdateClientTimelineFromSession(client, timeline, now, xform);
        if sync && startStop != STOPPED {
          clientStartStop := ToClient(startStop, timeline, xform);
        }
        if knownTempo != timeline.tempo {
          knownTempo := timeline.tempo;
        }
      }
    }

    /** `launched` says whether the measurement of a new session gets under way, through the
        peer returned. */
    method HandleTimelineFromSession(id: Id, tl: Timeline, launched: bool, now: int)
      returns (measure: Option<P.Peer>)
      requires Wired()
      modifies this, sessions, peers
      ensures Wired() && Model() == TimelineFromSession(old(Model()), id, tl, now)
      ensures measure == if id in KnownSessions(old(Model()).registry) then None
                         else old(S.PeerToMeasure(peers.SessionPeers(id), id))
      ensures sessions.measuring == if measure.Some? && launched
                                    then old(sessions.measuring)[measure.value.Key() := id]
                                    else old(sessions.measuring)
      ensures IsAnnounced() && peers.Cached() == old(peers.Cached())
      ensures measure.Some? ==> measure.value.Key() in peers.Cached() && measure.value.state.session == id
      ensures id !in KnownSessions(old(Model()).registry)
              && (exists k :: k in peers.Cached() && peers.Cached()[k].session == id)
              ==> measure.Some?
    {
      hide L.UpdateSessionTiming, L.SawSessionTimeline;
      var members := peers.SessionPeers(id);
      SessionHasPeers(peers.peers, id, members);
      var next;
      next, measure := sessions.Saw(id, tl, launched, now);
      UpdateSessionTiming(next, xform, now);
      UpdateDiscovery();
    }

    method HandleStartStopFromSession(id: Id, ss: StartStop)
      requires Wired()
      modifies this
      ensures Wired() && Model() == StartStopFromSession(old(Model()), id, ss)
      ensures sync && Model() != old(Model()) ==> toldPlaying == clientStartStop.isPlaying
      ensures old(IsAnnounced()) ==> IsAnnounced()
    {
      if id == sessionId && ss.timestamp > startStop.timestamp {
        startStop := ss;
        UpdateDiscovery();
        if sync {
          clientStartStop := ToClient(ss, timeline, xform);
          TellStartStop();
        }
      }
    }

    method TellStartStop()
      modifies this`toldPlaying
      ensures toldPlaying == clientStartStop.isPlaying
    {
      if toldPlaying != clientStartStop.isPlaying {
        toldPlaying := clientStartStop.isPlaying;
      }
    }

    /** A sighting on a gateway, with the callbacks that the peer cache invokes.  A new
        session is measured through the peer returned, in the session by then. */
    method SawPeer(p: PeerState, addr: Addr, launched: bool, now: int)
      returns (membershipChanged: bool, measure: Option<P.Peer>)
      requires Valid()
      modifies this, peers, sessions
      ensures Valid() && Model() == Next(old(Model()), PeerSeen(p, addr, now))
      ensures measure.Some? <==> p.session !in KnownSessions(old(Model()).registry)
      ensures measure.Some? ==> measure.value.Key() in Model().cache && measure.value.state.session == p.session
      ensures var via := if measure.Some? then measure.value.Key() else PeerKey(p.ident, addr);
              InWorld() == NextWorld(old(InWorld()), Step(PeerSeen(p, addr, now), via, launched))
      ensures membershipChanged <==>
              !exists k :: k in old(Model()).cache && k.ident == p.ident && old(Model()).cache[k].session == p.session
    {
      hide Inv, TimelineFromSession, StartStopFromSession;
      InvStep(Model(), PeerSeen(p, addr, now));
      CachedIsKnown(Model(), p.session, p.timeline);
      measure := None;
      var newTimeline, newStartStop;
      newTimeline, newStartStop, membershipChanged := peers.SawPeerOnGateway(p, addr);
      if newTimeline {
        assert peers.Cached()[PeerKey(p.ident, addr)].session == p.session;
        measure := HandleTimelineFromSession(p.session, p.timeline, launched, now);
      }
      if newStartStop {
        HandleStartStopFromSession(p.session, p.startStop);
      }
    }

    method PeerLeft(ident: Id, addr: Addr) returns (membershipChanged: bool)
      requires Valid()
      modifies peers
      ensures Valid() && Model() == Next(old(Model()), L.PeerLeft(ident, addr))
      ensures membershipChanged == (PeerKey(ident, addr) in old(Model()).cache)
    {
      InvStep(Model(), L.PeerLeft(ident, addr));
      membershipChanged := peers.PeerLeftGateway(ident, addr);
    }

    /** A gateway goes, and the measurements that run on it. */
    method GatewayClosed(addr: Addr) returns (membershipChanged: bool)
      requires Valid()
      modifies peers, sessions`measuring
      ensures membershipChanged
      ensures Valid() && Model() == Next(old(Model()), L.GatewayClosed(addr))
      ensures forall via, launched ::
                InWorld() == NextWorld(old(InWorld()), Step(L.GatewayClosed(addr), via, launched))
    {
      InvStep(Model(), L.GatewayClosed(addr));
      membershipChanged := peers.GatewayClosed(addr);
      sessions.measuring := WithoutGateway(sessions.measuring, addr);
    }

    method HandleClientTimeline(tl: ClampedTimeline, at: int, now: int)
      requires Wired()
      modifies this, peers, sessions`current
      ensures Wired() && Model() == L.HandleClientTimeline(old(Model()), tl, at, now)
    {
      var t := UpdateSessionTimelineFromClient(timeline, tl, at, xform);
      sessions.ResetTimeline(t);
      peers.SetTimeline(sessionId, t);
      UpdateSessionTiming(t, xform, now);
    }

    method HandleClientStartStop(ss: ClientStartStop) returns (changed: bool)
      requires Wired()
      modifies this
      ensures Wired() && Model() == L.HandleClientStartStop(old(Model()), ss)
      ensures !changed && old(IsAnnounced()) ==> IsAnnounced()
    {
      changed := sync && xform.HostToGhost(ss.timestamp) > startStop.timestamp;
      if changed {
        startStop := FromClient(ss, timeline, xform);
        clientStartStop := ss;
      }
    }

    method EnableStartStopSync(enabled: bool)
      requires Valid()
      modifies this`sync
      ensures Valid() && Model() == Next(old(Model()), SyncSet(enabled)) == old(Model()).(sync := enabled)
    {
      sync := enabled;
    }

    /** What the client asks for becomes its own state, the tempo clamped, but never an older
        start/stop state.  What is to be handled afterwards is returned. */
    method SetClientState(tl: Option<Timeline>, ss: Option<ClientStartStop>)
      returns (later: Option<ClampedTimeline>, laterStartStop: Option<ClientStartStop>)
      requires Valid()
      modifies this`client, this`clientStartStop
      ensures later == if tl.Some? then Some(ClampTempo(tl.value)) else None
      ensures laterStartStop == if ss.Some? then Some(clientStartStop) else None
      ensures Valid() && Model() == Next(old(Model()), ClientSet(later, ss))
    {
      later, laterStartStop := None, None;
      if tl.Some? {
        client := ClampTempo(tl.value);
        later := Some(client);
      }
      if ss.Some? {
        clientStartStop := SelectPreferred(clientStartStop, ss.value);
        laterStartStop := Some(clientStartStop);
      }
    }

    method HandleIncoming(tl: Option<(int, ClampedTimeline)>, ss: Option<ClientStartStop>, now: int)
      requires Wired()
      modifies this, peers, sessions`current
      ensures Wired() && Model() == L.HandleClientState(old(Model()), tl, ss, now)
      ensures toldPlaying == clientStartStop.isPlaying
      ensures old(IsAnnounced()) ==> IsAnnounced()
    {
      var mustUpdateDiscovery := false;
      if tl.Some? {
        var (at, t) := tl.value;
        HandleClientTimeline(t, at, now);
        mustUpdateDiscovery := true;
      }
      if ss.Some? {
        var changed := HandleClientStartStop(ss.value);
        mustUpdateDiscovery := mustUpdateDiscovery || changed;
      }
      if mustUpdateDiscovery {
        UpdateDiscovery();
      }
      TellStartStop();
    }

    method HandleClientState(tl: Option<(int, ClampedTimeline)>, ss: Option<ClientStartStop>, now: int)
      requires Valid()
      modifies this, peers, sessions`current
      ensures Valid() && Model() == Next(old(Model()), ClientHandled(tl, ss, now))
      ensures toldPlaying == clientStartStop.isPlaying
    {
      hide Core, CacheBelowRegistry, RegistryOk, Inv;
      InvStep(Model(), ClientHandled(tl, ss, now));
      HandleIncoming(tl, ss, now);
    }

    method SetClientStateRtSafe(tl: Option<(int, Timeline)>, ss: Option<ClientStartStop>)
      requires Valid()
      modifies this`pending, this`pendingStartStop
      ensures var pushed := if tl.Some? then Some((tl.value.0, ClampTempo(tl.value.1))) else None;
              Valid() && Model() == Next(old(Model()), RealtimePushed(pushed, ss))
    {
      if tl.Some? {
        pending := Some((tl.value.0, ClampTempo(tl.value.1)));
      }
      if ss.Some? {
        pendingStartStop := ss;
      }
    }

    method ProcessPendingClientStates(now: int)
      requires Wired()
      modifies this, peers, sessions`current
      ensures Wired() && Model() == ProcessPending(old(Model()), now)
      ensures toldPlaying == clientStartStop.isPlaying
      ensures old(IsAnnounced()) ==> IsAnnounced()
    {
      hide L.HandleClientState;
      var tl, ss := pending, pendingStartStop;
      pending, pendingStartStop := None, None;
      if tl.Some? {
        client := tl.value.1;
      }
      if ss.Some? {
        clientStartStop := SelectPreferred(clientStartStop, ss.value);
        ss := Some(clientStartStop);
      }
      HandleIncoming(tl, ss, now);
    }

    method HandleRtClientState(now: int)
      requires Valid()
      modifies this, peers, sessions`current
      ensures Valid() && Model() == Next(old(Model()), RealtimeProcessed(now))
    {
      hide Core, CacheBelowRegistry, RegistryOk, Inv;
      InvStep(Model(), RealtimeProcessed(now));
      ProcessPendingClientStates(now);
    }

    method JoinSession(session: Session, flushed: int, now: int)
      requires Wired() && session.measurement.Some?
      modifies this, peers, sessions`current
      ensures Wired() && Model() == L.JoinSession(old(Model()), session, flushed, now)
      ensures IsAnnounced()
    {
      var sessionIdChanged := sessionId != session.id;
      sessionId := session.id;
      if sessionIdChanged {
        ProcessPendingClientStates(flushed);
        startStop := STOPPED;
      }
      UpdateSessionTiming(session.timeline, session.measurement.value.xform, now);
      UpdateDiscovery();
    }

    method MeasurementSucceeded(
      id: Id, ghost via: PeerKey, newXForm: GhostXForm, stamp: int, hostTime: int, flushed: int, now: int)
      requires Valid()
      requires Enabled(InWorld(), Step(MeasurementDone(id, newXForm, stamp, hostTime, flushed, now), via, true))
      modifies this, peers, sessions
      ensures Valid() && Model() == Next(old(Model()), MeasurementDone(id, newXForm, stamp, hostTime, flushed, now))
      ensures InWorld() == NextWorld(
                old(InWorld()), Step(MeasurementDone(id, newXForm, stamp, hostTime, flushed, now), via, true))
    {
      InvStep(Model(), MeasurementDone(id, newXForm, stamp, hostTime, flushed, now));
      var join := sessions.HandleSuccessfulMeasurement(id, via, newXForm, stamp, hostTime, now);
      if join.Some? {
        JoinSession(join.value, flushed, now);
      }
    }

    method MeasurementFailed(id: Id, ghost via: PeerKey, now: int)
      requires Valid() && Enabled(InWorld(), Step(MeasurementLost(id), via, true))
      modifies sessions, peers
      ensures Valid() && InWorld() == NextWorld(old(InWorld()), Step(MeasurementLost(id), via, true))
    {
      InvStep(Model(), MeasurementLost(id));
      sessions.HandleFailedMeasurement(id, Some(via), now);
    }

    /** The timer of the sessions fires: the current session is measured if it has peers. */
    method Remeasure(launched: bool, now: int) returns (measure: Option<P.Peer>)
      requires Valid()
      modifies sessions, peers
      ensures Valid()
      ensures measure.Some? <==> exists k :: k in old(Model()).cache && old(Model()).cache[k].session == sessionId
      ensures InWorld() == if measure.Some?
                           then NextWorld(old(InWorld()), Step(Remeasured, measure.value.Key(), launched))
                           else old(InWorld())
    {
      InvStep(Model(), Remeasured);
      SessionHasPeers(peers.peers, sessionId, peers.SessionPeers(sessionId));
      measure := sessions.Remeasure(launched, now);
    }

    method ResetState(newId: Id, hostTime: int, now: int)
      requires Valid()
      modifies this, peers, sessions`current, sessions`others
      ensures Valid() && Model() == Next(old(Model()), Reset(newId, hostTime, now))
    {
      hide Core, CacheBelowRegistry, RegistryOk, Inv, L.UpdateSessionTiming;
      InvStep(Model(), Reset(newId, hostTime, now));
      nodeId, sessionId := newId, newId;
      var newXForm := GhostXForm(-hostTime);
      var tl := Timeline(timeline.tempo, timeline.ToBeats(xform.HostToGhost(hostTime)), newXForm.HostToGhost(hostTime));
      startStop := STOPPED;
      UpdateSessionTiming(tl, newXForm, now);
      UpdateDiscovery();
      sessions.ResetSession(Session(newId, tl, Some(Measurement(newXForm, hostTime))));
      peers.ResetPeers();
    }

    /** Enabling processes what is pending, and then founds a new session. */
    method Enable(flushed: int, newId: Id, hostTime: int, now: int)
      requires Valid()
      modifies this, peers, sessions`current, sessions`others
      ensures Valid()
      ensures Model() == Next(Next(old(Model()), RealtimeProcessed(flushed)), Reset(newId, hostTime, now))
    {
      HandleRtClientState(flushed);
      ResetState(newId, hostTime, now);
    }

    /** Counts the peers in the session when its membership may have changed.  Returns whether
        the callback is told of a new count, and whether that calls for a reset. */
    method CountSessionPeers() returns (told: bool, reset: bool)
      requires Valid()
      modifies this`toldPeers
      ensures Valid() && Model() == old(Model())
      ensures toldPeers == |set k | k in Model().cache && Model().cache[k].session == sessionId :: k.ident|
      ensures told == (toldPeers != old(toldPeers)) && reset == (told && toldPeers == 0)
    {
      var count := peers.UniqueSessionPeerCount(sessionId);
      told := toldPeers != count;
      toldPeers := count;
      reset := told && count == 0;
    }
  }

  lemma CachedIsKnown(l: Link, session: Id, tl: Timeline)
    requires Inv(l)
    ensures TimelineCached(l.cache, session, tl) ==> session in KnownSessions(l.registry)
  {
  }

  lemma SessionHasPeers(ps: seq<P.Peer>, session: Id, members: seq<P.Peer>)
    requires P.Sorted(ps) && forall p :: p in members <==> p in ps && p.state.session == session
    ensures members != [] <==> exists k :: k in P.View(ps) && P.View(ps)[k].session == session
    ensures forall p :: p in members ==> p.Key() in P.View(ps) && p.state.session == session
  {
    forall p | p in members ensures p.Key() in P.View(ps) {
      var i :| 0 <= i < |ps| && ps[i] == p;
      P.ViewAt(ps, i);
    }
    P.CachedIff(ps, (k, p: PeerState) => p.session == session);
    if i :| 0 <= i < |ps| && ps[i].state.session == session {
      assert ps[i] in members;
    }
    if members != [] {
      assert members[0] in members;
      var i :| 0 <= i < |ps| && ps[i] == members[0];
    }
  }
}
