/** The registry of sessions: the current one, and the others in a vector sorted by id. */
module Sessions {
  import opened Algorithms
  import opened Timelines
  import opened LinkProtocol
  import opened SortedVectors
  import opened Stranding
  import opened Wrappers
  import P = Peers

  const REMEASUREMENT := 30000000

  function IdOf(s: Session): Id { s.id }

  function Itself(s: Session): Session { s }

  predicate Before(a: Session, b: Session) { a.id < b.id }

  ghost predicate Sorted(ss: seq<Session>) { IsSorted(ss, Before) }

  ghost function View(ss: seq<Session>): map<Id, Session> { MapOf(ss, IdOf, Itself) }

  /** The bounds that `equal_range`, and `upper_bound`, find. */
  function LowerBound(ss: seq<Session>, id: Id): (i: nat)
    ensures i <= |ss|
  {
    PartitionPoint(ss, (s: Session) => s.id < id)
  }

  function UpperBound(ss: seq<Session>, id: Id): (i: nat)
    ensures i <= |ss|
  {
    PartitionPoint(ss, (s: Session) => s.id <= id)
  }

  /** The range of an id holds its session, if the view has one, at the lower bound. */
  lemma RangeIs(ss: seq<Session>, id: Id)
    requires Sorted(ss)
    ensures var i := LowerBound(ss, id);
            && (i < |ss| && ss[i].id == id <==> id in View(ss))
            && (id in View(ss) ==> View(ss)[id] == ss[i])
            && (forall j :: 0 <= j < i ==> ss[j].id < id)
            && (id !in View(ss) ==> forall j :: i <= j < |ss| ==> ss[j].id > id)
  {
    var i := LowerBound(ss, id);
    forall j | i < j < |ss| ensures ss[j].id > id { assert Before(ss[i], ss[j]); }
    MapHas(ss, IdOf, Itself, id);
    if i < |ss| { MapAt(ss, IdOf, Itself, i); }
  }

  lemma InsertSession(ss: seq<Session>, i: nat, s: Session)
    requires Sorted(ss) && i <= |ss|
    requires forall j :: 0 <= j < i ==> ss[j].id < s.id
    requires forall j :: i <= j < |ss| ==> ss[j].id > s.id
    ensures Sorted(InsertAt(ss, i, s)) && View(InsertAt(ss, i, s)) == View(ss)[s.id := s]
  {
    SortedVectors.InsertSorted(ss, Before, i, s);
    InsertInMap(ss, IdOf, Itself, i, s);
  }

  lemma ReplaceSession(ss: seq<Session>, i: nat, s: Session)
    requires Sorted(ss) && i < |ss| && ss[i].id == s.id
    ensures Sorted(ss[i := s]) && View(ss[i := s]) == View(ss)[s.id := s]
  {
    ReplaceInMap(ss, IdOf, Itself, i, s);
  }

  lemma EraseSession(ss: seq<Session>, i: nat)
    requires Sorted(ss) && i < |ss|
    ensures Sorted(EraseAt(ss, i)) && View(EraseAt(ss, i)) == View(ss) - {ss[i].id}
  {
    EraseSorted(ss, Before, i);
    EraseFromMap(ss, IdOf, Itself, i);
  }

  /** Taking out session i and putting back the one that was current. */
  lemma SwapSorted(ss: seq<Session>, i: nat, left: Session)
    requires Sorted(ss) && i < |ss| && forall j :: 0 <= j < |ss| ==> ss[j].id != left.id
    ensures var rest := EraseAt(ss, i);
            var r := InsertAt(rest, UpperBound(rest, left.id), left);
            && Sorted(r) && View(r) == (View(ss) - {ss[i].id})[left.id := left]
            && forall j :: 0 <= j < |r| ==> r[j].id != ss[i].id
  {
    var rest := EraseAt(ss, i);
    var at := UpperBound(rest, left.id);
    EraseSession(ss, i);
    forall j | 0 <= j < |rest| ensures rest[j].id != left.id && rest[j].id != ss[i].id {
      ErasedElement(ss, i, j);
      assert j < i ==> Before(ss[j], ss[i]);
      assert j >= i ==> Before(ss[i], ss[j + 1]);
    }
    forall j | at <= j < |rest| ensures rest[j].id > left.id { assert at < j ==> Before(rest[at], rest[j]); }
    InsertSession(rest, at, left);
  }

  /** The peer through which a session is measured: its founder if sighted, else the
      first one. */
  function PeerToMeasure(members: seq<P.Peer>, session: Id): (r: Option<P.Peer>)
    ensures r.None? <==> members == []
    ensures r.Some? ==> r.value in members
    ensures (exists p :: p in members && p.state.ident == session) ==> r.Some? && r.value.state.ident == session
    ensures r.Some? && r.value.state.ident != session ==> r.value == members[0]
  {
    var i := PartitionPoint(members, (p: P.Peer) => p.state.ident != session);
    if members == [] then None else if i == |members| then Some(members[0]) else Some(members[i])
  }

  class Sessions {
    const peers: P.Peers
    var current: Session
    var others: seq<Session>

    /** When the current session is to be measured again. */
    var remeasureAt: Option<int>

    /** The measurements under way, which the gateways hold. */
    ghost var measuring: Measuring

    ghost predicate Valid()
      reads this
    {
      Sorted(others) && forall i :: 0 <= i < |others| ==> others[i].id != current.id
    }

    ghost function Known(): Registry
      reads this
    {
      Registry(current, View(others))
    }

    constructor (init: Session, peers: P.Peers)
      ensures Valid() && Known() == Registry(init, map[]) && this.peers == peers
      ensures remeasureAt == None && measuring == map[]
    {
      this.peers := peers;
      current, others := init, [];
      remeasureAt, measuring := None, map[];
    }

    method ResetSession(session: Session)
      modifies this`current, this`others
      ensures Valid() && Known() == Registry(session, map[])
    {
      current, others := session, [];
    }

    method ResetTimeline(tl: Timeline)
      requires Valid()
      modifies this`current
      ensures Valid() && Known() == old(Known()).(current := old(current).(timeline := tl))
    {
      current := current.(timeline := tl);
    }

    /** Starts to measure a session through a peer, if it has one.  `launched` says whether
        that gets under way, in place of what was measured through that peer, or fails at once. */
    method LaunchSessionMeasurement(id: Id, launched: bool, now: int) returns (measure: Option<P.Peer>)
      requires Valid() && peers.Valid() && id !in View(others)
      modifies this`others, this`remeasureAt, this`measuring, peers
      ensures Valid() && peers.Valid() && peers.Cached() == old(peers.Cached()) && others == old(others)
      ensures measure == old(PeerToMeasure(peers.SessionPeers(id), id))
      ensures measuring == if measure.Some? && launched then old(measuring)[measure.value.Key() := id]
                           else old(measuring)
      ensures remeasureAt == if measure.Some? && !launched && id == current.id then Some(now + REMEASUREMENT)
                             else old(remeasureAt)
    {
      measure := PeerToMeasure(peers.SessionPeers(id), id);
      if measure.Some? {
        if launched {
          measuring := measuring[measure.value.Key() := id];
        } else {
          HandleFailedMeasurement(id, None, now);
        }
      }
    }

    /** Considers an observed timeline and returns the one to use from now on.  A session
        not known before is measured through the peer returned, before it is known: a failure
        at once has no effect on it. */
    method Saw(id: Id, tl: Timeline, launched: bool, now: int)
      returns (timeline: Timeline, measure: Option<P.Peer>)
      requires Valid() && peers.Valid()
      modifies this, peers
      ensures Valid() && peers.Valid() && peers.Cached() == old(peers.Cached())
      ensures Known() == SawSessionTimeline(old(Known()), id, tl)
      ensures timeline == current.timeline
      ensures measure == if id in KnownSessions(old(Known())) then None
                         else old(PeerToMeasure(peers.SessionPeers(id), id))
      ensures measuring == if measure.Some? && launched then old(measuring)[measure.value.Key() := id]
                           else old(measuring)
      ensures remeasureAt == old(remeasureAt)
    {
      hide MapOf, IsSorted;
      measure := None;
      if id == current.id {
        current := Adopt(current, tl);
      } else {
        var i := LowerBound(others, id);
        RangeIs(others, id);
        if i == |others| || others[i].id != id {
          measure := LaunchSessionMeasurement(id, launched, now);
          var session := Session(id, tl, None);
          InsertSession(others, i, session);
          others := InsertAt(others, i, session);
        } else {
          ReplaceSession(others, i, Adopt(others[i], tl));
          others := others[i := Adopt(others[i], tl)];
        }
      }
      timeline := current.timeline;
    }

    /** Records a measurement, made through the peer `via`; returns the session to join when
        that is called for, and sets the timer when that is another one. */
    method HandleSuccessfulMeasurement(
      id: Id, ghost via: PeerKey, xform: GhostXForm, stamp: int, hostTime: int, now: int)
      returns (join: Option<Session>)
      requires Valid() && via in measuring && measuring[via] == id
      modifies this
      ensures Valid() && Known() == Measured(old(Known()), id, Measurement(xform, stamp), hostTime)
      ensures join == if id == old(current).id || SwitchesTo(old(Known()), id, xform, hostTime)
                      then Some(current) else None
      ensures remeasureAt == if SwitchesTo(old(Known()), id, xform, hostTime) then Some(now + REMEASUREMENT)
                             else old(remeasureAt)
      ensures measuring == old(measuring) - {via}
    {
      hide MapOf, IsSorted, InsertAt, EraseAt;
      join := None;
      measuring := measuring - {via};
      var m := Measurement(xform, stamp);
      if current.id == id {
        current := current.(measurement := Some(m));
        join := Some(current);
      } else {
        var i := LowerBound(others, id);
        RangeIs(others, id);
        if i < |others| && others[i].id == id {
          var measured := others[i].(measurement := Some(m));
          var ghostDiff := xform.HostToGhost(hostTime) - current.HostToGhost(hostTime);
          if ghostDiff > SESSION_EPS || (-SESSION_EPS < ghostDiff < SESSION_EPS && id < current.id) {
            var left := current;
            SwapSorted(others, i, left);
            current, others := measured, EraseAt(others, i);
            others := InsertAt(others, UpperBound(others, left.id), left);
            join := Some(current);
            ScheduleRemeasurement(now);
          } else {
            ReplaceSession(others, i, measured);
            others := others[i := measured];
          }
        }
      }
    }

    method ScheduleRemeasurement(now: int)
      modifies this`remeasureAt
      ensures remeasureAt == Some(now + REMEASUREMENT)
    {
      remeasureAt := Some(now + REMEASUREMENT);
    }

    /** Drops a session that could not be measured, with its peers; the current one is
        kept, to be measured again.  Without `via` the measurement never got under way. */
    method HandleFailedMeasurement(id: Id, ghost via: Option<PeerKey>, now: int)
      requires Valid() && peers.Valid()
      requires via.Some? ==> via.value in measuring && measuring[via.value] == id
      modifies this`others, this`remeasureAt, this`measuring, peers
      ensures Valid() && Known() == MeasurementFailed(old(Known()), id)
      ensures peers.Valid()
      ensures peers.Cached() == if id != current.id && id in old(Known()).others
                                then ForgetSession(old(peers.Cached()), id)
                                else old(peers.Cached())
      ensures remeasureAt == if id == current.id then Some(now + REMEASUREMENT) else old(remeasureAt)
      ensures measuring == if via.Some? then old(measuring) - {via.value} else old(measuring)
      ensures id == current.id || id !in old(Known()).others ==> others == old(others)
    {
      measuring := if via.Some? then measuring - {via.value} else measuring;
      if current.id == id {
        ScheduleRemeasurement(now);
      } else {
        var i := LowerBound(others, id);
        RangeIs(others, id);
        if i < |others| && others[i].id == id {
          EraseSession(others, i);
          others := EraseAt(others, i);
          peers.Forget(id);
        }
      }
    }

    /** The timer fires: starts a new measurement of the current session if it has peers,
        and sets the timer again whether or not that gets under way. */
    method Remeasure(launched: bool, now: int) returns (measure: Option<P.Peer>)
      requires Valid() && peers.Valid()
      modifies this, peers
      ensures Valid() && peers.Valid() && peers.Cached() == old(peers.Cached())
      ensures measure == old(PeerToMeasure(peers.SessionPeers(current.id), current.id))
      ensures Known() == if measure.Some? then RemeasureCurrent(old(Known())) else old(Known())
      ensures remeasureAt == Some(now + REMEASUREMENT)
      ensures measuring == if measure.Some? && launched then old(measuring)[measure.value.Key() := current.id]
                           else old(measuring)
    {
      MapHas(others, IdOf, Itself, current.id);
      measure := LaunchSessionMeasurement(current.id, launched, now);
      if measure.Some? && current.measurement.Some? {
        current := current.(measurement := Some(current.measurement.value.(timestamp := 0)));
      }
      ScheduleRemeasurement(now);
    }
  }
}
