/** The measurements under way beside the session protocol, and the sessions that the protocol
    can no longer join because none is. */
module Stranding {
  import opened LinkProtocol
  import opened Timelines
  import opened Wrappers

  /** Through each of its peers a gateway measures at most one session at a time. */
  type Measuring = map<PeerKey, Id>

  datatype World = World(link: Link, measuring: Measuring)

  /** An event, the peer through which a measurement is launched or has ended with it, and
      whether a launch gets under way or fails at once. */
  datatype Step = Step(event: Event, peer: PeerKey, launched: bool)

  // ---------------------------------------------------------------- the machine

  /** The session that is to be measured: one sighted for the first time, or the current one. */
  function Launches(l: Link, e: Event): Option<Id> {
    if e.PeerSeen? && e.peer.session !in KnownSessions(l.registry) then Some(e.peer.session)
    else if e.Remeasured? then Some(l.sessionId)
    else None
  }

  predicate EndsMeasurement(e: Event) { e.MeasurementDone? || e.MeasurementLost? }

  /** A measurement ends only where it runs. */
  predicate Enabled(w: World, s: Step) {
    EndsMeasurement(s.event) ==> s.peer in w.measuring && w.measuring[s.peer] == s.event.id
  }

  /** A new measurement takes the place of one through the same peer, which ends in silence, as
      do those of a gateway that goes away. */
  function NextMeasuring(w: World, s: Step): Measuring {
    if Launches(w.link, s.event).Some? then
      if s.launched then w.measuring[s.peer := Launches(w.link, s.event).value] else w.measuring
    else if EndsMeasurement(s.event) then w.measuring - {s.peer}
    else if s.event.GatewayClosed? then WithoutGateway(w.measuring, s.event.addr)
    else w.measuring
  }

  function WithoutGateway(m: Measuring, addr: Addr): Measuring {
    map k | k in m && k.addr != addr :: m[k]
  }

  /** What the measurement service of one gateway has of it. */
  function OfGateway(m: Measuring, addr: Addr): map<Id, Id> {
    map k | k in m && k.addr == addr :: k.ident := m[k]
  }

  /** To launch a measurement, to end one and to drop a gateway is for its service to register the
      node, to forget it and to be destroyed, and nothing for the others. */
  lemma ServiceKeepsPace(m: Measuring, node: Id, addr: Addr, id: Id, other: Addr)
    ensures OfGateway(m[PeerKey(node, addr) := id], other)
         == if other == addr then OfGateway(m, addr)[node := id] else OfGateway(m, other)
    ensures OfGateway(m - {PeerKey(node, addr)}, other)
         == if other == addr then OfGateway(m, addr) - {node} else OfGateway(m, other)
    ensures OfGateway(WithoutGateway(m, addr), other) == if other == addr then map[] else OfGateway(m, other)
  {
    hide OfGateway;
    OfGatewayIs(m, other);
    OfGatewayIs(m[PeerKey(node, addr) := id], other);
    OfGatewayIs(m - {PeerKey(node, addr)}, other);
    OfGatewayIs(WithoutGateway(m, addr), other);
  }

  lemma OfGatewayIs(m: Measuring, addr: Addr)
    ensures forall node ::
              var k := PeerKey(node, addr);
              (node in OfGateway(m, addr) <==> k in m) && (k in m ==> OfGateway(m, addr)[node] == m[k])
  {
    forall k | k in m && k.addr == addr ensures k.ident in OfGateway(m, addr) {}
  }

  function NextWorld(w: World, s: Step): World { World(Next(w.link, s.event), NextMeasuring(w, s)) }

  ghost predicate IsRun(w: World, steps: seq<Step>, w': World)
    decreases |steps|
  {
    if steps == [] then w == w'
    else Enabled(w, steps[0]) && IsRun(NextWorld(w, steps[0]), steps[1..], w')
  }

  ghost predicate NoReset(steps: seq<Step>) { forall i :: 0 <= i < |steps| ==> !steps[i].event.Reset? }

  // ---------------------------------------------------------------- stranded sessions

  /** The session is another one than the current, and has never been measured. */
  ghost predicate IsUnmeasured(l: Link, id: Id) {
    id in l.registry.others && l.registry.others[id].measurement.None?
  }

  ghost predicate IsMeasuring(m: Measuring, id: Id) { exists k :: k in m && m[k] == id }

  /** Unmeasured, and not being measured. */
  ghost predicate IsStranded(w: World, id: Id) { IsUnmeasured(w.link, id) && !IsMeasuring(w.measuring, id) }

  /** A new session's launch fails at once, before the session is known, and no earlier
      measurement of it still runs. */
  ghost predicate FailsAtOnce(w: World, s: Step, id: Id) {
    s.event.PeerSeen? && Launches(w.link, s.event) == Some(id) && !s.launched && !IsMeasuring(w.measuring, id)
  }

  /** The launch of another session takes the place of the last measurement. */
  ghost predicate IsDisplaced(w: World, s: Step, id: Id) {
    && IsUnmeasured(w.link, id) && IsMeasuring(w.measuring, id)
    && Launches(w.link, s.event).Some? && Launches(w.link, s.event).value != id && s.launched
    && forall k :: k in w.measuring && w.measuring[k] == id ==> k == s.peer
  }

  /** The last measurements went with their gateway. */
  ghost predicate IsDropped(w: World, s: Step, id: Id) {
    && IsUnmeasured(w.link, id) && IsMeasuring(w.measuring, id)
    && s.event.GatewayClosed?
    && forall k :: k in w.measuring && w.measuring[k] == id ==> k.addr == s.event.addr
  }

  /** What an event makes of an unmeasured session: only a measurement, its failure or a reset
      ends that, and only a first sighting begins it. */
  lemma UnmeasuredStep(l: Link, e: Event, id: Id)
    requires Inv(l) && !e.Reset?
    ensures IsUnmeasured(Next(l, e), id)
       <==> (IsUnmeasured(l, id) && !(EndsMeasurement(e) && e.id == id))
            || (e.PeerSeen? && Launches(l, e) == Some(id))
  {
    match e
    case PeerSeen(p, addr, now) => SightedStep(l, e, id);
    case MeasurementDone(_, xform, stamp, hostTime, flushed, now) =>
      MeasuredOk(l, e.id, Measurement(xform, stamp), hostTime);
      JoinKeepsOthers(l.(registry := Measured(l.registry, e.id, Measurement(xform, stamp), hostTime)), e);
    case RealtimeProcessed(now) => PendingKeepsOthers(l, now);
    case _ =>
  }

  /** A new session enters the registry unmeasured, and no other measurement changes. */
  lemma SightedRegistry(l: Link, e: Event)
    requires Inv(l) && e.PeerSeen?
    ensures var r := Next(l, e).registry;
            && r.current.id == l.registry.current.id
            && r.others.Keys == l.registry.others.Keys + ({e.peer.session} - KnownSessions(l.registry))
            && forall id :: id in r.others ==>
                 r.others[id].measurement
                 == if id in l.registry.others then l.registry.others[id].measurement else None
  {
    SightingTells(l, e.peer, e.addr, e.now);
    assert TimelineCached(l.cache, e.peer.session, e.peer.timeline) ==> e.peer.session in KnownSessions(l.registry);
  }

  lemma SightingTells(l: Link, p: PeerState, addr: Addr, now: int)
    ensures SawPeer(l, p, addr, now).registry
         == if TimelineCached(l.cache, p.session, p.timeline) then l.registry
            else SawSessionTimeline(l.registry, p.session, p.timeline)
  {
    hide SawSessionTimeline, TimelineCached;
  }

  lemma SightedStep(l: Link, e: Event, id: Id)
    requires Inv(l) && e.PeerSeen?
    ensures IsUnmeasured(Next(l, e), id) <==> IsUnmeasured(l, id) || Launches(l, e) == Some(id)
  {
    hide Next, Inv;
    SightedRegistry(l, e);
    assert id in Next(l, e).registry.others.Keys
      <==> id in l.registry.others.Keys || id in {e.peer.session} - KnownSessions(l.registry);
  }

  lemma PendingKeepsOthers(l: Link, now: int)
    ensures var l' := ProcessPending(l, now);
            l'.registry.others == l.registry.others && l'.sessionId == l.sessionId
  {
  }

  lemma JoinKeepsOthers(l: Link, e: Event)
    requires e.MeasurementDone? && l.registry.current.measurement.Some?
    ensures var l' := JoinSession(l, l.registry.current, e.flushed, e.now);
            l'.registry.others == l.registry.others && l'.sessionId == l.registry.current.id
  {
    hide ProcessPending;
    PendingKeepsOthers(l.(sessionId := l.registry.current.id), e.flushed);
  }

  /** What a step makes of the measurements of a session. */
  lemma MeasuringStep(w: World, s: Step, id: Id)
    requires Enabled(w, s) && !(EndsMeasurement(s.event) && s.event.id == id)
    ensures IsMeasuring(NextMeasuring(w, s), id)
       <==> (Launches(w.link, s.event) == Some(id) && s.launched)
            || exists k :: k in w.measuring && w.measuring[k] == id
                           && !(Launches(w.link, s.event).Some? && s.launched && k == s.peer)
                           && !(s.event.GatewayClosed? && k.addr == s.event.addr)
  {
    var m := NextMeasuring(w, s);
    if k :| k in m && m[k] == id && !(Launches(w.link, s.event) == Some(id) && s.launched) {
      assert k in w.measuring && w.measuring[k] == id;
    }
    if Launches(w.link, s.event) == Some(id) && s.launched {
      assert s.peer in m && m[s.peer] == id;
    }
    if k :| k in w.measuring && w.measuring[k] == id
            && !(Launches(w.link, s.event).Some? && s.launched && k == s.peer)
            && !(s.event.GatewayClosed? && k.addr == s.event.addr)
    {
      assert k in m && m[k] == id;
    }
  }

  /** What is launched is a new session or the current one. */
  lemma LaunchedIsNotUnmeasured(l: Link, e: Event, id: Id)
    requires Inv(l) && Launches(l, e) == Some(id)
    ensures !IsUnmeasured(l, id)
  {
  }

  /** Exactly when a session is stranded after a step: it was before, its launch failed at once,
      or its last measurement was displaced or dropped. */
  lemma StrandedExactly(w: World, s: Step, id: Id)
    requires Inv(w.link) && Enabled(w, s) && !s.event.Reset?
    ensures IsStranded(NextWorld(w, s), id)
       <==> IsStranded(w, id) || FailsAtOnce(w, s, id) || IsDisplaced(w, s, id) || IsDropped(w, s, id)
  {
    hide Inv, Next, IsUnmeasured, Launches, NextMeasuring;
    UnmeasuredStep(w.link, s.event, id);
    if Launches(w.link, s.event) == Some(id) { LaunchedIsNotUnmeasured(w.link, s.event, id); }
    if EndsMeasurement(s.event) || s.event.GatewayClosed? { LaunchesNothing(w.link, s.event); }
    if EndsMeasurement(s.event) && s.event.id == id {
      assert IsMeasuring(w.measuring, id);
    } else {
      MeasuringStep(w, s, id);
    }
  }

  lemma LaunchesNothing(l: Link, e: Event)
    requires !e.PeerSeen? && !e.Remeasured?
    ensures Launches(l, e) == None
  {
  }

  /** Until the peer resets, a stranded session stays so, and the peer does not join it. */
  lemma {:induction false} StrandedForGood(w: World, steps: seq<Step>, w': World, id: Id)
    requires Inv(w.link) && IsRun(w, steps, w') && NoReset(steps) && IsStranded(w, id)
    ensures Inv(w'.link) && IsStranded(w', id) && w'.link.sessionId != id
    decreases |steps|
  {
    if steps != [] {
      InvStep(w.link, steps[0].event);
      StrandedExactly(w, steps[0], id);
      StrandedForGood(NextWorld(w, steps[0]), steps[1..], w', id);
    }
  }

  /** A measurement that puts the session far enough ahead makes the peer join it. */
  lemma CanJoin(l: Link, id: Id) returns (e: Event)
    requires Inv(l) && id in l.registry.others
    ensures e.MeasurementDone? && e.id == id && Next(l, e).sessionId == id
  {
    e := MeasurementDone(id, GhostXForm(l.registry.current.HostToGhost(0) + SESSION_EPS + 1), 0, 0, 0, 0);
    var m := Measurement(e.xform, e.stamp);
    MeasuredOk(l, id, m, e.hostTime);
    JoinKeepsOthers(l.(registry := Measured(l.registry, id, m, e.hostTime)), e);
  }

  /** Without a reset the peer can come to join an unmeasured session exactly if it is not
      stranded. */
  lemma JoinableExactly(w: World, id: Id)
    requires Inv(w.link) && IsUnmeasured(w.link, id)
    ensures (exists steps, w' :: IsRun(w, steps, w') && NoReset(steps) && w'.link.sessionId == id)
       <==> !IsStranded(w, id)
  {
    hide Inv, Next, NextMeasuring;
    if IsStranded(w, id) {
      forall steps, w' | IsRun(w, steps, w') && NoReset(steps) ensures w'.link.sessionId != id {
        StrandedForGood(w, steps, w', id);
      }
    } else {
      var k :| k in w.measuring && w.measuring[k] == id;
      var e := CanJoin(w.link, id);
      var s := Step(e, k, true);
      assert [s][1..] == [];
      assert IsRun(NextWorld(w, s), [], NextWorld(w, s));
      assert IsRun(w, [s], NextWorld(w, s)) && NoReset([s]);
    }
  }

  /** A node that announces one new session and then another, both measured through it, leaves
      the first stranded although no launch fails. */
  lemma SecondSessionDisplaces(l: Link, first: Event, second: Event, via: PeerKey)
    requires Inv(l) && first.PeerSeen? && second.PeerSeen?
    requires first.peer.session !in KnownSessions(l.registry) && second.peer.session !in KnownSessions(l.registry)
    requires first.peer.session != second.peer.session
    ensures var w := NextWorld(NextWorld(World(l, map[]), Step(first, via, true)), Step(second, via, true));
            IsStranded(w, first.peer.session) && !IsStranded(w, second.peer.session)
  {
    var x, y := first.peer.session, second.peer.session;
    var w0 := World(l, map[]);
    var s1, s2 := Step(first, via, true), Step(second, via, true);
    var w1 := NextWorld(w0, s1);
    InvStep(l, first);
    SightedRegistry(l, first);
    assert w1.measuring == map[via := x] && w1.measuring[via] == x;
    UnmeasuredStep(l, first, x);
    StrandedExactly(w1, s2, x);
    StrandedExactly(w1, s2, y);
    UnmeasuredStep(l, first, y);
  }
}
