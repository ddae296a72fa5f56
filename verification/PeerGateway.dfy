/** The timeout table of a gateway: a vector sorted by deadline, and a prune timer.
    Times are in microseconds, TTLs in seconds. */
module PeerGateways {
  import opened Algorithms
  import opened SortedVectors
  import opened Wrappers

  type Id = nat

  const SECOND := 1000000

  // ---------------------------------------------------------------- what should be in the table

  datatype Event =
    | Seen(id: Id, ttl: nat, now: int)
    | Left(id: Id)
    | Fired(now: int)

  /** The peers being watched, with their deadlines, after one more event. */
  function Step(m: map<Id, int>, e: Event): map<Id, int> {
    match e
    case Seen(id, ttl, now) => m[id := now + ttl * SECOND]
    case Left(id) => m - {id}
    case Fired(now) => map id | id in m && m[id] >= now :: m[id]
  }

  function Watched(log: seq<Event>): map<Id, int> {
    if log == [] then map[] else Step(Watched(log[..|log| - 1]), log[|log| - 1])
  }

  /** The event ends the watch of the peer that began with this deadline. */
  predicate Ends(e: Event, id: Id, deadline: int) {
    match e
    case Seen(other, _, _) => other == id
    case Left(other) => other == id
    case Fired(now) => now > deadline
  }

  /** The peer was last seen with this deadline, and has since neither left nor been
      pruned after the deadline. */
  ghost predicate LastSeen(log: seq<Event>, id: Id, deadline: int) {
    exists i :: && 0 <= i < |log| && log[i].Seen? && log[i].id == id && deadline == log[i].now + log[i].ttl * SECOND
                && forall j :: i < j < |log| ==> !Ends(log[j], id, deadline)
  }

  /** After any history the table holds exactly the peers seen and not yet left or timed
      out, each with the deadline of its last sighting. */
  lemma {:induction false} WatchedIsLastSeen(log: seq<Event>, id: Id, deadline: int)
    ensures id in Watched(log) && Watched(log)[id] == deadline <==> LastSeen(log, id, deadline)
  {
    if log != [] {
      hide LastSeen;
      WatchedIsLastSeen(log[..|log| - 1], id, deadline);
      LastSeenStep(log, id, deadline);
    }
  }

  /** One more event begins the watch, or does not end it. */
  lemma LastSeenStep(log: seq<Event>, id: Id, deadline: int)
    requires log != []
    ensures var init, e := log[..|log| - 1], log[|log| - 1];
            LastSeen(log, id, deadline)
            <==> (e.Seen? && e.id == id && deadline == e.now + e.ttl * SECOND)
                 || (LastSeen(init, id, deadline) && !Ends(e, id, deadline))
  {
    hide Ends;
    var n := |log| - 1;
    var init := log[..n];
    if i :| 0 <= i < n && init[i].Seen? && init[i].id == id && deadline == init[i].now + init[i].ttl * SECOND
            && forall j :: i < j < n ==> !Ends(init[j], id, deadline)
    {
      assert log[i] == init[i];
    }
    if LastSeen(log, id, deadline) {
      var i :| 0 <= i < |log| && log[i].Seen? && log[i].id == id && deadline == log[i].now + log[i].ttl * SECOND
               && forall j :: i < j < |log| ==> !Ends(log[j], id, deadline);
      if i < n { assert init[i] == log[i]; }
    }
  }

  // ---------------------------------------------------------------- the vector

  datatype Timeout = Timeout(deadline: int, id: Id)

  function IdOf(t: Timeout): Id { t.id }

  function DeadlineOf(t: Timeout): int { t.deadline }

  predicate NotAfter(a: Timeout, b: Timeout) { a.deadline <= b.deadline }

  ghost predicate ByDeadline(ts: seq<Timeout>) { IsSorted(ts, NotAfter) }

  ghost predicate Distinct(ts: seq<Timeout>) { HasDistinctKeys(ts, IdOf) }

  ghost function View(ts: seq<Timeout>): map<Id, int> { MapOf(ts, IdOf, DeadlineOf) }

  function FindPeer(ts: seq<Timeout>, id: Id): (i: nat)
    ensures i <= |ts| && (i < |ts| ==> ts[i].id == id)
  {
    PartitionPoint(ts, (t: Timeout) => t.id != id)
  }

  function LowerBound(ts: seq<Timeout>, deadline: int): (i: nat)
    ensures i <= |ts|
  {
    PartitionPoint(ts, (t: Timeout) => t.deadline < deadline)
  }

  function UpperBound(ts: seq<Timeout>, deadline: int): (i: nat)
    ensures i <= |ts|
  {
    PartitionPoint(ts, (t: Timeout) => t.deadline <= deadline)
  }

  lemma ViewHas(ts: seq<Timeout>, id: Id)
    ensures id in View(ts) <==> FindPeer(ts, id) < |ts|
  {
    MapHas(ts, IdOf, DeadlineOf, id);
    if i :| 0 <= i < |ts| && IdOf(ts[i]) == id { assert i >= FindPeer(ts, id); }
  }

  lemma InsertTimeout(ts: seq<Timeout>, t: Timeout)
    requires ByDeadline(ts) && Distinct(ts) && FindPeer(ts, t.id) == |ts|
    ensures var r := InsertAt(ts, UpperBound(ts, t.deadline), t);
            ByDeadline(r) && Distinct(r) && View(r) == View(ts)[t.id := t.deadline]
  {
    var i := UpperBound(ts, t.deadline);
    forall j | i <= j < |ts| ensures NotAfter(t, ts[j]) { assert i < j ==> NotAfter(ts[i], ts[j]); }
    forall j | 0 <= j < |ts| ensures IdOf(ts[j]) != IdOf(t) { assert ts[j].id != t.id; }
    SortedVectors.InsertSorted(ts, NotAfter, i, t);
    InsertInMap(ts, IdOf, DeadlineOf, i, t);
    InsertDistinct(ts, i, t);
  }

  lemma InsertDistinct(ts: seq<Timeout>, i: nat, t: Timeout)
    requires Distinct(ts) && i <= |ts| && forall j :: 0 <= j < |ts| ==> IdOf(ts[j]) != IdOf(t)
    ensures Distinct(InsertAt(ts, i, t))
  {
    forall j, k | 0 <= j < k <= |ts| ensures IdOf(InsertAt(ts, i, t)[j]) != IdOf(InsertAt(ts, i, t)[k]) {
      InsertedElement(ts, i, t, j);
      InsertedElement(ts, i, t, k);
    }
  }

  lemma EraseTimeout(ts: seq<Timeout>, i: nat)
    requires ByDeadline(ts) && Distinct(ts) && i < |ts|
    ensures ByDeadline(EraseAt(ts, i)) && Distinct(EraseAt(ts, i))
    ensures View(EraseAt(ts, i)) == View(ts) - {ts[i].id}
    ensures EraseAt(ts, i) != [] ==> EraseAt(ts, i)[0].deadline >= ts[0].deadline
  {
    EraseFromMap(ts, IdOf, DeadlineOf, i);
    EraseSorted(ts, NotAfter, i);
    forall j, k | 0 <= j < k < |ts| - 1 ensures IdOf(EraseAt(ts, i)[j]) != IdOf(EraseAt(ts, i)[k]) {
      ErasedElement(ts, i, j);
      ErasedElement(ts, i, k);
    }
    if |ts| > 1 {
      ErasedElement(ts, i, 0);
      assert NotAfter(ts[0], ts[1]);
    }
  }

  lemma {:induction false} PrunedView(ts: seq<Timeout>, now: int)
    requires ByDeadline(ts) && Distinct(ts)
    ensures View(ts[LowerBound(ts, now)..]) == Step(View(ts), Fired(now))
  {
    hide View, Step, LowerBound, ByDeadline, Distinct;
    var n := LowerBound(ts, now);
    LowerBoundOfTail(ts, now);
    if n == 0 {
      NoneExpired(ts, now);
      assert ts[0..] == ts;
    } else {
      RestIsSorted(ts, 1);
      PrunedView(ts[1..], now);
      PruneFirst(ts, now);
      assert ts[n..] == ts[1..][n - 1..];
    }
  }

  /** An entry of the vector for each key of the view. */
  lemma EntryOf(ts: seq<Timeout>, id: Id) returns (i: nat)
    requires Distinct(ts) && id in View(ts)
    ensures i < |ts| && ts[i].id == id && View(ts)[id] == ts[i].deadline
  {
    ViewHas(ts, id);
    i := FindPeer(ts, id);
    MapAt(ts, IdOf, DeadlineOf, i);
  }

  lemma LowerBoundOfTail(ts: seq<Timeout>, now: int)
    ensures LowerBound(ts, now) > 0 ==>
              ts != [] && ts[0].deadline < now && LowerBound(ts[1..], now) == LowerBound(ts, now) - 1
  {
  }

  lemma RestIsSorted(ts: seq<Timeout>, n: nat)
    requires n <= |ts| && ByDeadline(ts) && Distinct(ts)
    ensures ByDeadline(ts[n..]) && Distinct(ts[n..])
  {
  }

  lemma NoneExpired(ts: seq<Timeout>, now: int)
    requires ByDeadline(ts) && Distinct(ts) && LowerBound(ts, now) == 0
    ensures View(ts) == Step(View(ts), Fired(now))
  {
    forall id | id in View(ts) ensures View(ts)[id] >= now {
      var i := EntryOf(ts, id);
      assert i > 0 ==> NotAfter(ts[0], ts[i]);
    }
  }

  lemma PruneFirst(ts: seq<Timeout>, now: int)
    requires ts != [] && Distinct(ts) && ts[0].deadline < now
    ensures Step(View(ts), Fired(now)) == Step(View(ts[1..]), Fired(now))
  {
    ViewHas(ts[1..], ts[0].id);
  }

  function Ids(ts: seq<Timeout>): (r: seq<Id>)
    ensures |r| == |ts| && forall i :: 0 <= i < |r| ==> r[i] == ts[i].id
  {
    if ts == [] then [] else [ts[0].id] + Ids(ts[1..])
  }

  /** The list has each peer whose deadline has passed once, earliest deadline first. */
  ghost predicate AreExpired(expired: seq<Id>, m: map<Id, int>, now: int) {
    && (forall id :: id in expired <==> id in m && m[id] < now)
    && (forall i, j :: 0 <= i < j < |expired| ==>
          && expired[i] != expired[j] && expired[i] in m && expired[j] in m && m[expired[i]] <= m[expired[j]])
  }

  /** The front of the vector up to the bound: the expired peers, earliest first. */
  lemma ExpiredAre(ts: seq<Timeout>, now: int)
    requires ByDeadline(ts) && Distinct(ts)
    ensures AreExpired(Ids(ts[..LowerBound(ts, now)]), View(ts), now)
  {
    var n := LowerBound(ts, now);
    var expired, m := Ids(ts[..n]), View(ts);
    forall i | 0 <= i < n ensures expired[i] in m && m[expired[i]] == ts[i].deadline {
      assert expired[i] == ts[i].id;
      MapAt(ts, IdOf, DeadlineOf, i);
    }
    forall i | n <= i < |ts| ensures ts[i].deadline >= now { assert n < i ==> NotAfter(ts[n], ts[i]); }
    forall id | id in m && m[id] < now ensures id in expired {
      var i := EntryOf(ts, id);
      assert expired[i] == id;
    }
  }

  // ---------------------------------------------------------------- the object

  class PeerGateway {
    var timeouts: seq<Timeout>
    var timer: Option<int>
    ghost var log: seq<Event>

    /** Sorted, one entry for each watched peer, and a prune timer armed for no later
        than a second after the earliest deadline. */
    ghost predicate Valid()
      reads this
    {
      && ByDeadline(timeouts) && Distinct(timeouts)
      && View(timeouts) == Watched(log)
      && (timeouts != [] ==> timer.Some? && timer.value <= timeouts[0].deadline + SECOND)
    }

    constructor ()
      ensures Valid() && log == []
    {
      timeouts, timer, log := [], None, [];
    }

    method ScheduleNextPruning()
      modifies this`timer
      ensures timeouts != [] ==> timer == Some(timeouts[0].deadline + SECOND)
      ensures timeouts == [] ==> timer == old(timer)
    {
      if timeouts != [] {
        timer := Some(timeouts[0].deadline + SECOND);
      }
    }

    method OnPeerState(id: Id, ttl: nat, now: int)
      requires Valid()
      modifies this
      ensures Valid() && log == old(log) + [Seen(id, ttl, now)]
      ensures timeouts != [] && timer == Some(timeouts[0].deadline + SECOND)
    {
      hide View, EraseAt, ByDeadline, Distinct;
      var existing := FindPeer(timeouts, id);
      ViewHas(timeouts, id);
      if existing < |timeouts| {
        EraseTimeout(timeouts, existing);
        timeouts := EraseAt(timeouts, existing);
      }
      assert View(timeouts) == Watched(log) - {id};
      ViewHas(timeouts, id);
      var newTo := Timeout(now + ttl * SECOND, id);
      var at := UpperBound(timeouts, newTo.deadline);
      InsertTimeout(timeouts, newTo);
      timeouts := InsertAt(timeouts, at, newTo);
      log := log + [Seen(id, ttl, now)];
      assert log[..|log| - 1] == old(log);
      ScheduleNextPruning();
    }

    /** Returns whether the observer is told that the peer left. */
    method OnByeBye(id: Id) returns (left: bool)
      requires Valid()
      modifies this
      ensures Valid() && log == old(log) + [Left(id)]
      ensures left == (id in Watched(old(log)))
    {
      var at := FindPeer(timeouts, id);
      ViewHas(timeouts, id);
      left := at < |timeouts|;
      if left {
        EraseTimeout(timeouts, at);
        timeouts := EraseAt(timeouts, at);
      }
      log := log + [Left(id)];
      assert log[..|log| - 1] == old(log);
    }

    /** The timer fires: returns the peers timed out, earliest deadline first.  They are
        exactly the watched peers whose deadline has passed. */
    method PruneExpiredPeers(now: int) returns (expired: seq<Id>)
      requires Valid() && timer.Some?
      modifies this
      ensures Valid() && log == old(log) + [Fired(now)]
      ensures AreExpired(expired, Watched(old(log)), now)
      ensures timer.Some? <==> timeouts != []
    {
      hide View, Ids, ByDeadline, Distinct, LowerBound;
      timer := None;
      var n := LowerBound(timeouts, now);
      expired := Ids(timeouts[..n]);
      ExpiredAre(timeouts, now);
      PrunedView(timeouts, now);
      RestIsSorted(timeouts, n);
      timeouts := timeouts[n..];
      log := log + [Fired(now)];
      assert log[..|log| - 1] == old(log);
      ScheduleNextPruning();
    }
  }

  /** So a peer is timed out only when its last TTL has elapsed, and then at the first
      firing. */
  lemma TimedOutExactlyAfterTtl(log: seq<Event>, id: Id, now: int)
    ensures (id in Watched(log) && Watched(log)[id] < now)
            <==> exists deadline :: LastSeen(log, id, deadline) && deadline < now
  {
    if id in Watched(log) { WatchedIsLastSeen(log, id, Watched(log)[id]); }
    if deadline :| LastSeen(log, id, deadline) && deadline < now { WatchedIsLastSeen(log, id, deadline); }
  }
}
