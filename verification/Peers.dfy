/** The cache of sighted peers: a vector sorted by peer id and gateway address. */
module Peers {
  import opened Algorithms
  import opened Timelines
  import opened LinkProtocol
  import opened SortedVectors

  datatype Peer = Peer(state: PeerState, addr: Addr) {
    function Key(): PeerKey { PeerKey(state.ident, addr) }
  }

  predicate KeyLess(a: PeerKey, b: PeerKey) {
    a.ident < b.ident || (a.ident == b.ident && a.addr < b.addr)
  }

  function KeyOf(p: Peer): PeerKey { p.Key() }

  function StateOf(p: Peer): PeerState { p.state }

  predicate Before(a: Peer, b: Peer) { KeyLess(a.Key(), b.Key()) }

  ghost predicate Sorted(ps: seq<Peer>) { IsSorted(ps, Before) }

  /** What the vector says: one state for each peer on each gateway. */
  ghost function View(ps: seq<Peer>): Cache { MapOf(ps, KeyOf, StateOf) }

  lemma SortedHasDistinctKeys(ps: seq<Peer>)
    requires Sorted(ps)
    ensures HasDistinctKeys(ps, KeyOf)
  {
  }

  lemma ViewAt(ps: seq<Peer>, i: nat)
    requires Sorted(ps) && i < |ps|
    ensures ps[i].Key() in View(ps) && View(ps)[ps[i].Key()] == ps[i].state
  {
    SortedHasDistinctKeys(ps);
    MapAt(ps, KeyOf, StateOf, i);
  }

  /** An entry of the vector for each key of the cache. */
  lemma EntryOf(ps: seq<Peer>, k: PeerKey) returns (i: nat)
    requires Sorted(ps) && k in View(ps)
    ensures i < |ps| && ps[i].Key() == k && View(ps)[k] == ps[i].state
  {
    MapHas(ps, KeyOf, StateOf, k);
    i :| i < |ps| && KeyOf(ps[i]) == k;
    ViewAt(ps, i);
  }

  /** A property of some cached state is a property of some entry of the vector. */
  lemma CachedIff(ps: seq<Peer>, holds: (PeerKey, PeerState) -> bool)
    requires Sorted(ps)
    ensures (exists k :: k in View(ps) && holds(k, View(ps)[k]))
            <==> exists i :: 0 <= i < |ps| && holds(ps[i].Key(), ps[i].state)
  {
    if k :| k in View(ps) && holds(k, View(ps)[k]) {
      var i := EntryOf(ps, k);
    }
    if i :| 0 <= i < |ps| && holds(ps[i].Key(), ps[i].state) { ViewAt(ps, i); }
  }

  lemma InsertPeer(ps: seq<Peer>, i: nat, p: Peer)
    requires Sorted(ps) && i <= |ps|
    requires forall j :: 0 <= j < i ==> KeyLess(ps[j].Key(), p.Key())
    requires i < |ps| ==> KeyLess(p.Key(), ps[i].Key())
    ensures Sorted(InsertAt(ps, i, p)) && View(InsertAt(ps, i, p)) == View(ps)[p.Key() := p.state]
  {
    forall j | i <= j < |ps| ensures Before(p, ps[j]) { assert i < j ==> Before(ps[i], ps[j]); }
    forall j | 0 <= j < |ps| ensures KeyOf(ps[j]) != KeyOf(p) { assert j < i ==> Before(ps[j], p); }
    InsertSorted(ps, Before, i, p);
    InsertInMap(ps, KeyOf, StateOf, i, p);
  }

  lemma ReplacePeer(ps: seq<Peer>, i: nat, p: Peer)
    requires Sorted(ps) && i < |ps| && ps[i].Key() == p.Key()
    ensures Sorted(ps[i := p]) && View(ps[i := p]) == View(ps)[p.Key() := p.state]
  {
    SortedHasDistinctKeys(ps);
    ReplaceInMap(ps, KeyOf, StateOf, i, p);
  }

  lemma ErasePeer(ps: seq<Peer>, i: nat)
    requires Sorted(ps) && i < |ps|
    ensures Sorted(EraseAt(ps, i)) && View(EraseAt(ps, i)) == View(ps) - {ps[i].Key()}
  {
    SortedHasDistinctKeys(ps);
    EraseSorted(ps, Before, i);
    EraseFromMap(ps, KeyOf, StateOf, i);
  }

  lemma {:induction false} RemovePeers(ps: seq<Peer>, drop: Peer -> bool)
    requires Sorted(ps)
    ensures Sorted(RemoveIf(ps, drop))
    ensures View(RemoveIf(ps, drop)) == map k | k in View(ps) && !drop(Peer(View(ps)[k], k.addr)) :: View(ps)[k]
  {
    hide Sorted;
    RemoveKeepsOrder(ps, drop);
    if ps != [] {
      var rest := RemoveIf(ps[1..], drop);
      TailSorted(ps);
      RemovePeers(ps[1..], drop);
      if !drop(ps[0]) {
        assert RemoveIf(ps, drop) == [ps[0]] + rest && ([ps[0]] + rest)[1..] == rest;
      }
    }
  }

  lemma RemoveKeepsOrder(ps: seq<Peer>, drop: Peer -> bool)
    requires Sorted(ps)
    ensures Sorted(RemoveIf(ps, drop))
  {
    RemoveSorted(ps, Before, drop);
  }

  lemma TailSorted(ps: seq<Peer>)
    requires Sorted(ps) && ps != []
    ensures Sorted(ps[1..]) && ps[0].Key() !in View(ps[1..])
  {
    MapHas(ps[1..], KeyOf, StateOf, ps[0].Key());
  }

  /** The bounds that `equal_range` finds in the order of ids, and of addresses. */
  function IdLowerBound(ps: seq<Peer>, ident: Id): nat {
    PartitionPoint(ps, (p: Peer) => p.state.ident < ident)
  }

  function IdUpperBound(ps: seq<Peer>, ident: Id): nat {
    PartitionPoint(ps, (p: Peer) => p.state.ident <= ident)
  }

  function AddrLowerBound(ps: seq<Peer>, addr: Addr): nat {
    PartitionPoint(ps, (p: Peer) => p.addr < addr)
  }

  /** The vector with a peer added, or updated on a gateway where it is known. */
  function Placed(ps: seq<Peer>, peer: Peer): seq<Peer> {
    var first, last := IdLowerBound(ps, peer.state.ident), IdUpperBound(ps, peer.state.ident);
    if first >= last then
      InsertAt(ps, first, peer)
    else
      var at := first + AddrLowerBound(ps[first..last], peer.addr);
      if at < last && ps[at].addr == peer.addr then ps[at := peer] else InsertAt(ps, at, peer)
  }

  /** The peer is unknown, or all its entries are in other sessions. */
  predicate MembershipChanges(ps: seq<Peer>, state: PeerState) {
    var first, last := IdLowerBound(ps, state.ident), IdUpperBound(ps, state.ident);
    forall i :: first <= i < last ==> ps[i].state.session != state.session
  }

  /** Some entry combines the session with the timeline, or with the start/stop state. */
  predicate HasTimeline(ps: seq<Peer>, session: Id, tl: Timeline) {
    exists i :: 0 <= i < |ps| && ps[i].state.session == session && ps[i].state.timeline == tl
  }

  predicate HasStartStop(ps: seq<Peer>, session: Id, ss: StartStop) {
    exists i :: 0 <= i < |ps| && ps[i].state.session == session && ps[i].state.startStop == ss
  }

  class Peers {
    var peers: seq<Peer>

    ghost predicate Valid()
      reads this
    {
      Sorted(peers)
    }

    ghost function Cached(): Cache
      requires Valid()
      reads this
    {
      View(peers)
    }

    constructor ()
      ensures Valid() && Cached() == map[]
    {
      peers := [];
    }

    /** Notes a sighting and says whether its timeline and its start/stop state are new
        combinations with its session, and whether the membership of a session changed. */
    method SawPeerOnGateway(state: PeerState, addr: Addr)
      returns (newTimeline: bool, newStartStop: bool, membershipChanged: bool)
      requires Valid()
      modifies this
      ensures Valid() && Cached() == old(Cached())[PeerKey(state.ident, addr) := state]
      ensures newTimeline == !TimelineCached(old(Cached()), state.session, state.timeline)
      ensures newStartStop == !StartStopCached(old(Cached()), state.session, state.startStop)
      ensures membershipChanged <==>
              !exists k :: k in old(Cached()) && k.ident == state.ident && old(Cached())[k].session == state.session
    {
      newTimeline := !HasTimeline(peers, state.session, state.timeline);
      newStartStop := !HasStartStop(peers, state.session, state.startStop);
      CombinationsIff(peers, state);

      membershipChanged := MembershipChanges(peers, state);
      MembershipIs(peers, state);
      PlacedIs(peers, Peer(state, addr));
      peers := Placed(peers, Peer(state, addr));
    }

    method PeerLeftGateway(ident: Id, addr: Addr) returns (membershipChanged: bool)
      requires Valid()
      modifies this
      ensures Valid() && Cached() == old(Cached()) - {PeerKey(ident, addr)}
      ensures membershipChanged == (PeerKey(ident, addr) in old(Cached()))
    {
      var at := PartitionPoint(peers, (p: Peer) => !(p.state.ident == ident && p.addr == addr));
      membershipChanged := at < |peers|;
      MapHas(peers, KeyOf, StateOf, PeerKey(ident, addr));
      if membershipChanged {
        ErasePeer(peers, at);
        peers := EraseAt(peers, at);
      }
    }

    /** Membership counts as changed whether or not a peer was there. */
    method GatewayClosed(addr: Addr) returns (membershipChanged: bool)
      requires Valid()
      modifies this
      ensures membershipChanged
      ensures Valid() && Cached() == CloseGateway(old(Cached()), addr)
    {
      RemovePeers(peers, (p: Peer) => p.addr == addr);
      peers := RemoveIf(peers, (p: Peer) => p.addr == addr);
      membershipChanged := true;
    }

    /** Purges the peers of a session. */
    method Forget(session: Id)
      requires Valid()
      modifies this
      ensures Valid() && Cached() == ForgetSession(old(Cached()), session)
    {
      RemovePeers(peers, (p: Peer) => p.state.session == session);
      peers := RemoveIf(peers, (p: Peer) => p.state.session == session);
    }

    method ResetPeers()
      modifies this
      ensures Valid() && Cached() == map[]
    {
      peers := [];
    }

    method SetTimeline(session: Id, tl: Timeline)
      requires Valid()
      modifies this
      ensures Valid() && Cached() == SetSessionTimeline(old(Cached()), session, tl)
    {
      var i := 0;
      while i < |peers|
        invariant i <= |peers| == |old(peers)|
        invariant forall j :: i <= j < |peers| ==> peers[j] == old(peers)[j]
        invariant forall j :: 0 <= j < i ==> peers[j] == WithTimeline(old(peers)[j], session, tl)
      {
        if peers[i].state.session == session {
          peers := peers[i := peers[i].(state := peers[i].state.(timeline := tl))];
        }
        i := i + 1;
      }
      SetSorted(old(peers), peers, session, tl);
    }

    /** The session's peers in order, with one entry for each gateway. */
    function SessionPeers(session: Id): (r: seq<Peer>)
      reads this
      ensures forall p :: p in r <==> p in peers && p.state.session == session
      ensures Sorted(peers) ==> Sorted(r)
    {
      assert Sorted(peers) ==> Sorted(RemoveIf(peers, (p: Peer) => p.state.session != session)) by {
        if Sorted(peers) { RemoveKeepsOrder(peers, (p: Peer) => p.state.session != session); }
      }
      RemoveIf(peers, (p: Peer) => p.state.session != session)
    }

    /** The number of distinct peers in the session. */
    method UniqueSessionPeerCount(session: Id) returns (n: nat)
      requires Valid()
      ensures n == |set k | k in Cached() && Cached()[k].session == session :: k.ident|
    {
      var members := SessionPeers(session);
      RemovePeers(peers, (p: Peer) => p.state.session != session);
      var ids: seq<Id> := seq(|members|, i requires 0 <= i < |members| => members[i].state.ident);
      n := UniqueCount(ids);
      UniqueCountIsCardinality(ids);
      MemberIds(peers, members, session, ids);
    }
  }

  lemma MemberIds(ps: seq<Peer>, members: seq<Peer>, session: Id, ids: seq<Id>)
    requires Sorted(ps) && members == RemoveIf(ps, (p: Peer) => p.state.session != session)
    requires |ids| == |members| && forall i :: 0 <= i < |ids| ==> ids[i] == members[i].state.ident
    ensures |Elements(ids)| == |set k | k in View(ps) && View(ps)[k].session == session :: k.ident|
  {
    var idents := set k | k in View(ps) && View(ps)[k].session == session :: k.ident;
    forall x: Id ensures x in ids <==> x in idents {
      if x in ids {
        var i :| 0 <= i < |ids| && ids[i] == x;
        assert members[i] in members;
        var j :| 0 <= j < |ps| && ps[j] == members[i];
        ViewAt(ps, j);
      }
      if x in idents {
        var k :| k in View(ps) && View(ps)[k].session == session && k.ident == x;
        var j := EntryOf(ps, k);
        assert ps[j] in members;
        var i :| 0 <= i < |members| && members[i] == ps[j];
        assert ids[i] == x;
      }
    }
    assert Elements(ids) == idents;
  }

  function WithTimeline(p: Peer, session: Id, tl: Timeline): Peer {
    if p.state.session == session then p.(state := p.state.(timeline := tl)) else p
  }

  lemma {:induction false} SetSorted(before: seq<Peer>, after: seq<Peer>, session: Id, tl: Timeline)
    requires Sorted(before) && |after| == |before|
    requires forall i :: 0 <= i < |after| ==> after[i] == WithTimeline(before[i], session, tl)
    ensures Sorted(after) && View(after) == SetSessionTimeline(View(before), session, tl)
  {
    assert forall i :: 0 <= i < |after| ==> after[i].Key() == before[i].Key();
    if before != [] {
      SetSorted(before[1..], after[1..], session, tl);
    }
  }

  /** The range between the bounds holds exactly the entries with the id. */
  lemma RangeIs(ps: seq<Peer>, ident: Id)
    requires Sorted(ps)
    ensures var first, last := IdLowerBound(ps, ident), IdUpperBound(ps, ident);
            && first <= last <= |ps|
            && (forall j :: 0 <= j < first ==> ps[j].state.ident < ident)
            && (forall j :: 0 <= j < |ps| ==> (ps[j].state.ident == ident <==> first <= j < last))
            && (forall j :: last <= j < |ps| ==> ps[j].state.ident > ident)
  {
    var first, last := IdLowerBound(ps, ident), IdUpperBound(ps, ident);
    forall j | first <= j < |ps| ensures ps[j].state.ident >= ident {
      assert first < j ==> Before(ps[first], ps[j]);
    }
    forall j | last <= j < |ps| ensures ps[j].state.ident > ident {
      assert last < j ==> Before(ps[last], ps[j]);
    }
  }

  lemma BetweenIds(ps: seq<Peer>, peer: Peer, at: nat)
    requires at <= |ps| && forall j :: 0 <= j < at ==> ps[j].state.ident < peer.state.ident
    requires forall j :: at <= j < |ps| ==> ps[j].state.ident > peer.state.ident
    ensures forall j :: 0 <= j < at ==> KeyLess(ps[j].Key(), peer.Key())
    ensures at < |ps| ==> KeyLess(peer.Key(), ps[at].Key())
  {
  }

  lemma PlacedIs(ps: seq<Peer>, peer: Peer)
    requires Sorted(ps)
    ensures Sorted(Placed(ps, peer)) && View(Placed(ps, peer)) == View(ps)[peer.Key() := peer.state]
  {
    hide Sorted, View, KeyLess;
    var ident := peer.state.ident;
    var first, last := IdLowerBound(ps, ident), IdUpperBound(ps, ident);
    RangeIs(ps, ident);
    if first >= last {
      BetweenIds(ps, peer, first);
      InsertPeer(ps, first, peer);
    } else {
      var at := first + AddrLowerBound(ps[first..last], peer.addr);
      PositionIs(ps, ps[first..last], peer, first, last, at);
      if at < last && ps[at].addr == peer.addr {
        ReplacePeer(ps, at, peer);
      } else {
        InsertPeer(ps, at, peer);
      }
    }
  }

  lemma PositionIs(ps: seq<Peer>, range: seq<Peer>, peer: Peer, first: nat, last: nat, at: nat)
    requires Sorted(ps) && first <= at <= last <= |ps| && range == ps[first..last]
    requires forall j :: 0 <= j < |ps| ==> (ps[j].state.ident == peer.state.ident <==> first <= j < last)
    requires forall j :: last <= j < |ps| ==> ps[j].state.ident > peer.state.ident
    requires forall j :: 0 <= j < first ==> ps[j].state.ident < peer.state.ident
    requires forall j :: 0 <= j < at - first ==> range[j].addr < peer.addr
    requires at < last ==> range[at - first].addr >= peer.addr
    ensures forall j :: 0 <= j < at ==> KeyLess(ps[j].Key(), peer.Key())
    ensures at < |ps| ==> ps[at].Key() == peer.Key() || KeyLess(peer.Key(), ps[at].Key())
    ensures at < last && ps[at].addr == peer.addr <==> at < |ps| && ps[at].Key() == peer.Key()
  {
    forall j | first <= j < at ensures ps[j].addr < peer.addr { assert range[j - first] == ps[j]; }
    if at < last { assert range[at - first] == ps[at]; }
  }

  /** Some entry of the id range is in the session exactly when the cache has one. */
  lemma MembershipIs(ps: seq<Peer>, state: PeerState)
    requires Sorted(ps)
    ensures MembershipChanges(ps, state)
            <==> !exists k :: k in View(ps) && k.ident == state.ident && View(ps)[k].session == state.session
  {
    RangeIs(ps, state.ident);
    CachedIff(ps, (k: PeerKey, p: PeerState) => k.ident == state.ident && p.session == state.session);
  }

  lemma CombinationsIff(ps: seq<Peer>, state: PeerState)
    requires Sorted(ps)
    ensures TimelineCached(View(ps), state.session, state.timeline)
            <==> HasTimeline(ps, state.session, state.timeline)
    ensures StartStopCached(View(ps), state.session, state.startStop)
            <==> HasStartStop(ps, state.session, state.startStop)
  {
    CachedIff(ps, (k, p: PeerState) => p.session == state.session && p.timeline == state.timeline);
    CachedIff(ps, (k, p: PeerState) => p.session == state.session && p.startStop == state.startStop);
  }
}
