/** What cache and registry hold after any run, in terms of the events of the run alone. */
module Histories {
  import opened Timelines
  import opened ClientSessionTimelines
  import opened LinkProtocol
  import opened ProtocolTheorems
  import opened Stranding
  import opened Wrappers

  // ---------------------------------------------------------------- the cache

  /** The cache has an entry of the key, in the session and with the start/stop state. */
  ghost predicate HasEntry(c: Cache, k: PeerKey, session: Id, ss: StartStop) {
    k in c && c[k].session == session && c[k].startStop == ss
  }

  predicate Sights(e: Event, k: PeerKey, session: Id, ss: StartStop) {
    && e.PeerSeen? && PeerKey(e.peer.ident, e.addr) == k
    && e.peer.session == session && e.peer.startStop == ss
  }

  /** The event ends what a sighting of the peer in the session began. */
  predicate EndsEntry(l: Link, e: Event, k: PeerKey, session: Id) {
    match e
    case PeerSeen(p, addr, _) => PeerKey(p.ident, addr) == k
    case PeerLeft(ident, addr) => PeerKey(ident, addr) == k
    case GatewayClosed(addr) => addr == k.addr
    case MeasurementLost(id) => id == session && id in l.registry.others && id != l.registry.current.id
    case Reset(_, _, _) => true
    case _ => false
  }

  lemma EntryStep(l: Link, e: Event, k: PeerKey, session: Id, ss: StartStop)
    ensures HasEntry(Next(l, e).cache, k, session, ss)
       <==> Sights(e, k, session, ss) || (HasEntry(l.cache, k, session, ss) && !EndsEntry(l, e, k, session))
  {
    hide UpdateSessionTiming, Measured;
    match e
    case PeerSeen(p, addr, now) => SightedCache(l, p, addr, now);
    case MeasurementDone(_, _, _, _, _, _) => MeasuredCache(l, e);
    case ClientHandled(tl, ss, now) => HandledKeepsStates(l, tl, ss, now);
    case RealtimeProcessed(now) => PendingKeepsStates(l, now);
    case _ =>
  }

  lemma SightedCache(l: Link, p: PeerState, addr: Addr, now: int)
    ensures SawPeer(l, p, addr, now).cache == l.cache[PeerKey(p.ident, addr) := p]
  {
    hide SawSessionTimeline, TimelineCached, StartStopCached;
  }

  lemma MeasuredCache(l: Link, e: Event)
    requires e.MeasurementDone?
    ensures SameStates(l.cache, Next(l, e).cache)
  {
    hide ProcessPending, Measured;
    var registry := Measured(l.registry, e.id, Measurement(e.xform, e.stamp), e.hostTime);
    var joined := l.(registry := registry, sessionId := registry.current.id);
    PendingKeepsStates(joined, e.flushed);
    if registry.current.measurement.Some? {
      var s := registry.current;
      TimingKeepsStates(joined, s.timeline, s.measurement.value.xform, e.now);
      TimingKeepsStates(ProcessPending(joined, e.flushed).(startStop := STOPPED), s.timeline,
                        s.measurement.value.xform, e.now);
    }
  }

  lemma {:induction false} RunLast(l: Link, es: seq<Event>)
    requires es != []
    ensures Run(l, es) == Next(Run(l, es[..|es| - 1]), es[|es| - 1])
    decreases |es|
  {
    if |es| > 1 {
      RunLast(Next(l, es[0]), es[1..]);
      assert es[1..][..|es| - 2] == es[..|es| - 1][1..];
    } else {
      assert es[1..] == [] && es[..0] == [];
    }
  }

  /** The peer was last sighted so on that gateway, and nothing has ended that since. */
  ghost predicate LastSighted(l: Link, es: seq<Event>, k: PeerKey, session: Id, ss: StartStop) {
    exists i :: && 0 <= i < |es| && Sights(es[i], k, session, ss)
                && forall j :: i < j < |es| ==> !EndsEntry(Run(l, es[..j]), es[j], k, session)
  }

  /** After any run from an empty cache it holds exactly the last sighting of each peer on each
      gateway that has not left, whose gateway is open, and whose session has not been lost. */
  lemma {:induction false} CacheIsLastSightings(l: Link, es: seq<Event>, k: PeerKey, session: Id, ss: StartStop)
    requires l.cache == map[]
    ensures HasEntry(Run(l, es).cache, k, session, ss) <==> LastSighted(l, es, k, session, ss)
    decreases |es|
  {
    if es != [] {
      hide HasEntry, LastSighted, EndsEntry, Sights, Next;
      var init := es[..|es| - 1];
      CacheIsLastSightings(l, init, k, session, ss);
      RunLast(l, es);
      EntryStep(Run(l, init), es[|es| - 1], k, session, ss);
      LastSightedStep(l, es, k, session, ss);
    }
  }

  lemma LastSightedStep(l: Link, es: seq<Event>, k: PeerKey, session: Id, ss: StartStop)
    requires es != []
    ensures var init, e := es[..|es| - 1], es[|es| - 1];
            LastSighted(l, es, k, session, ss)
            <==> Sights(e, k, session, ss)
                 || (LastSighted(l, init, k, session, ss) && !EndsEntry(Run(l, init), e, k, session))
  {
    hide EndsEntry, Sights, Run;
    var n := |es| - 1;
    var init := es[..n];
    forall j | 0 <= j <= n ensures es[..j] == init[..j] {}
    if i :| 0 <= i < n && Sights(init[i], k, session, ss)
            && forall j :: i < j < n ==> !EndsEntry(Run(l, init[..j]), init[j], k, session)
    {
      assert es[i] == init[i];
      assert init[..n] == init;
      if !EndsEntry(Run(l, init), es[n], k, session) {
        forall j | i < j < |es| ensures !EndsEntry(Run(l, es[..j]), es[j], k, session) {
          if j < n { assert init[j] == es[j] && es[..j] == init[..j]; }
        }
      }
    }
    if LastSighted(l, es, k, session, ss) {
      var i :| 0 <= i < |es| && Sights(es[i], k, session, ss)
               && forall j :: i < j < |es| ==> !EndsEntry(Run(l, es[..j]), es[j], k, session);
      if i < n {
        assert init[i] == es[i] && es[..n] == init;
        forall j | i < j < n ensures !EndsEntry(Run(l, init[..j]), init[j], k, session) {
          assert init[j] == es[j] && es[..j] == init[..j];
        }
      }
    }
  }

  // ---------------------------------------------------------------- the registry

  function Recorded(r: Registry, id: Id): Option<Timeline> {
    if id in KnownSessions(r) then Some(Lookup(r, id).timeline) else None
  }

  function AdoptFirst(mine: Option<Timeline>, seen: Timeline): Option<Timeline> {
    Some(if mine.None? then seen else AdoptTimeline(mine.value, seen))
  }

  function FoldFirst(mine: Option<Timeline>, seen: seq<Timeline>): Option<Timeline>
    decreases |seen|
  {
    if seen == [] then mine else FoldFirst(AdoptFirst(mine, seen[0]), seen[1..])
  }

  /** The event changes no timeline from this side. */
  ghost predicate KeepsRecords(l: Link, e: Event) { !ChangesSession(l, e) && !FlushesAtSwitch(l, e) }

  /** A sighting is recorded for its session, current or not and known or not; a lost session is
      no longer recorded; and nothing else changes what is. */
  lemma RecordedStep(l: Link, e: Event, id: Id)
    requires Inv(l) && KeepsRecords(l, e)
    ensures Recorded(Next(l, e).registry, id)
         == if e.PeerSeen? && e.peer.session == id then AdoptFirst(Recorded(l.registry, id), e.peer.timeline)
            else if e.MeasurementLost? && e.id == id && id != l.registry.current.id then None
            else Recorded(l.registry, id)
  {
    match e
    case PeerSeen(p, addr, now) => RecordedSighting(l, p, addr, now, id);
    case MeasurementDone(_, _, _, _, _, _) => RecordedMeasured(l, e, id);
    case RealtimeProcessed(now) => PendingCore(l, now);
    case _ =>
  }

  lemma RecordedSighting(l: Link, p: PeerState, addr: Addr, now: int, id: Id)
    requires Inv(l)
    ensures Recorded(SawPeer(l, p, addr, now).registry, id)
         == if p.session == id then AdoptFirst(Recorded(l.registry, id), p.timeline) else Recorded(l.registry, id)
  {
    hide SawPeer;
    SightingTells(l, p, addr, now);
    if TimelineCached(l.cache, p.session, p.timeline) {
      var k :| k in l.cache && l.cache[k].session == p.session && l.cache[k].timeline == p.timeline;
    }
  }

  lemma RecordedMeasured(l: Link, e: Event, id: Id)
    requires Inv(l) && e.MeasurementDone? && KeepsRecords(l, e)
    ensures Recorded(Next(l, e).registry, id) == Recorded(l.registry, id)
  {
    hide UpdateSessionTiming, Measured, ProcessPending;
    var registry := Measured(l.registry, e.id, Measurement(e.xform, e.stamp), e.hostTime);
    MeasuredKeeps(l, e.id, Measurement(e.xform, e.stamp), e.hostTime, id);
    MeasuredOk(l, e.id, Measurement(e.xform, e.stamp), e.hostTime);
    JoinKeepsRegistry(l.(registry := registry), e);
  }

  /** Without a flush a join leaves the registry alone. */
  lemma JoinKeepsRegistry(l: Link, e: Event)
    requires e.MeasurementDone? && l.registry.current.measurement.Some?
    requires l.sessionId != l.registry.current.id ==> l.pending.None?
    ensures JoinSession(l, l.registry.current, e.flushed, e.now).registry == l.registry
  {
    var joined := l.(sessionId := l.registry.current.id);
    if l.pending.None? { NothingHandled(joined, e.flushed); }
  }

  lemma NothingHandled(l: Link, now: int)
    requires l.pending.None?
    ensures ProcessPending(l, now).registry == l.registry
  {
  }

  /** A measurement is recorded for the session measured, and nothing else about any session
      changes but which of them is the current one. */
  lemma MeasuredKeeps(l: Link, id: Id, m: Measurement, hostTime: int, other: Id)
    requires Inv(l)
    ensures var r, r' := l.registry, Measured(l.registry, id, m, hostTime);
            && KnownSessions(r') == KnownSessions(r)
            && Recorded(r', other) == Recorded(r, other)
            && (other in KnownSessions(r) ==>
                  Lookup(r', other) == if other == id then Lookup(r, id).(measurement := Some(m)) else Lookup(r, other))
  {
  }

  /** Measuring the current session again only marks that, until the measurement is done. */
  lemma RemeasuringMarks(l: Link)
    requires Inv(l)
    ensures var m, m' := l.registry.current.measurement, Next(l, Remeasured).registry.current.measurement;
            && m'.Some? && m'.value.timestamp == 0 && m'.value.xform == m.value.xform
            && Next(l, Remeasured).(registry := l.registry) == l
            && Next(l, Remeasured).registry.(current := l.registry.current) == l.registry
            && Next(l, Remeasured).registry.current.timeline == l.registry.current.timeline
  {
  }

  /** Over any run that changes no timeline from this side, through switches of session and all, each
      session that is not lost on the way is recorded with the fold of its sightings, although the
      cache filters some of them. */
  lemma {:induction false} RecordsFold(l: Link, es: seq<Event>, id: Id)
    requires Inv(l) && Undisturbed(l, es, id)
    ensures Recorded(Run(l, es).registry, id) == FoldFirst(Recorded(l.registry, id), Seen(id, es))
    decreases |es|
  {
    if es != [] {
      hide Inv, KeepsRecords, Recorded, Next, AdoptFirst;
      InvStep(l, es[0]);
      RecordedStep(l, es[0], id);
      RecordsFold(Next(l, es[0]), es[1..], id);
    }
  }

  ghost predicate Undisturbed(l: Link, es: seq<Event>, id: Id)
    decreases |es|
  {
    || es == []
    || (KeepsRecords(l, es[0]) && !(es[0].MeasurementLost? && es[0].id == id)
        && Undisturbed(Next(l, es[0]), es[1..], id))
  }

  // ---------------------------------------------------------------- lost sessions and client changes

  /** A session whose measurement fails is forgotten with its peers and nothing else, so that its
      next sighting is not filtered but measured as if new. */
  lemma LostIsNewAgain(l: Link, id: Id, p: PeerState, addr: Addr, now: int)
    requires Inv(l) && id in l.registry.others && p.session == id
    ensures var lost, seen := Next(l, MeasurementLost(id)), PeerSeen(p, addr, now);
            && KnownSessions(lost.registry) == KnownSessions(l.registry) - {id}
            && (forall k :: k in l.cache && l.cache[k].session != id ==> k in lost.cache && lost.cache[k] == l.cache[k])
            && Launches(lost, seen) == Some(id)
            && id in Next(lost, seen).registry.others
            && Next(lost, seen).registry.others[id] == Session(id, p.timeline, None)
  {
    var lost := Next(l, MeasurementLost(id));
    InvStep(l, MeasurementLost(id));
    assert !TimelineCached(lost.cache, id, p.timeline);
    hide UpdateSessionTiming;
    SightingTells(lost, p, addr, now);
  }

  /** After a client's change the cache has no other timeline of the session than the new one, so
      that none that is still announced is filtered out; other sessions are as they were. */
  lemma ChangeReachesCache(l: Link, tl: ClampedTimeline, at: int, ss: Option<ClientStartStop>, now: int, session: Id,
                           seen: Timeline)
    requires Inv(l) && TimelineCached(Next(l, ClientHandled(Some((at, tl)), ss, now)).cache, session, seen)
    ensures if session == l.sessionId
            then seen == Next(l, ClientHandled(Some((at, tl)), ss, now)).registry.current.timeline
            else TimelineCached(l.cache, session, seen)
  {
    var s := UpdateSessionTimelineFromClient(l.timeline, tl, at, l.xform);
    ChangedCache(l, tl, at, ss, now);
    var c := SetSessionTimeline(l.cache, l.sessionId, s);
    var k :| k in c && c[k].session == session && c[k].timeline == seen;
    assert k in l.cache && l.cache[k].session == session;
    if session != l.sessionId { assert l.cache[k].timeline == seen; }
  }

  lemma ChangedCache(l: Link, tl: ClampedTimeline, at: int, ss: Option<ClientStartStop>, now: int)
    ensures var l' := Next(l, ClientHandled(Some((at, tl)), ss, now));
            var s := UpdateSessionTimelineFromClient(l.timeline, tl, at, l.xform);
            l'.registry.current.timeline == s && l'.cache == SetSessionTimeline(l.cache, l.sessionId, s)
  {
    hide UpdateSessionTimelineFromClient, SetSessionTimeline;
  }
}
