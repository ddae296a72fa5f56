/** The measurement of the offset between the host clock and a session's ghost time, by
    exchanging pings and pongs with a peer of that session. */
module Measurements {
  import opened Medians
  import opened Rounding
  import opened Timelines
  import opened Wrappers
  import L = LinkProtocol

  const NUM_DATA_POINTS := 100
  const NUM_MEASUREMENTS := 5
  const TIMEOUT := 50000

  /** What a ping says, with zero for an entry that is not there. */
  datatype Ping = Ping(hostTime: int, prevGhostTime: int)

  /** What a pong says: the responder's session and ghost time, and the ping it answers. */
  datatype Pong = Pong(session: L.Id, ghostTime: int, ping: Ping)

  datatype Status = Running | Failed | Finished

  datatype Progress = Progress(status: Status, data: seq<real>, started: nat)

  const STARTED := Progress(Running, [], 0)

  // ---------------------------------------------------------------- the handlers, as functions

  /** The samples taken from a pong that arrives at a host time. */
  function Samples(pong: Pong, hostTime: int): seq<real> {
    var ghostTime, prevGhostTime, prevHostTime := pong.ghostTime, pong.ping.prevGhostTime, pong.ping.hostTime;
    if ghostTime == 0 || prevHostTime == 0 then []
    else
      [ghostTime as real - (hostTime + prevHostTime) as real * 0.5]
      + if prevGhostTime == 0 then [] else [(ghostTime + prevGhostTime) as real * 0.5 - prevHostTime as real]
  }

  function OnPong(p: Progress, session: L.Id, pong: Pong, hostTime: int): Progress {
    if pong.session != session then Progress(Failed, [], p.started)
    else
      var data := p.data + Samples(pong, hostTime);
      Progress(if |data| > NUM_DATA_POINTS then Finished else p.status, data, p.started)
  }

  function OnTimeout(p: Progress): Progress {
    if p.started < NUM_MEASUREMENTS then p.(started := p.started + 1)
    else Progress(Failed, [], p.started)
  }

  /** The ping that answers a pong. */
  function Answer(pong: Pong, hostTime: int): Ping { Ping(hostTime, pong.ghostTime) }

  // ---------------------------------------------------------------- the objects

  class Measurement {
    const session: L.Id
    var status: Status
    var data: seq<real>
    var started: nat
    var deadline: Option<int>
    var sent: seq<Ping>

    /** The data that the callback was called with. */
    var result: Option<seq<real>>

    /** A running measurement is still short of data, has its timer armed and has not called
        back; one that failed has called back with no data, and one that finished with
        more than enough. */
    ghost predicate Valid()
      reads this
    {
      match status
      case Running => |data| <= NUM_DATA_POINTS && started <= NUM_MEASUREMENTS && deadline.Some? && result.None?
      case Failed => data == [] && result == Some([])
      case Finished => NUM_DATA_POINTS < |data| <= NUM_DATA_POINTS + 2 && result == Some(data)
    }

    ghost function Model(): Progress
      reads this
    {
      Progress(status, data, started)
    }

    constructor (session: L.Id, micros: int)
      ensures Valid() && Model() == STARTED && this.session == session
      ensures sent == [Ping(micros, 0)] && deadline == Some(micros + TIMEOUT)
    {
      this.session := session;
      status, data, started := Running, [], 0;
      sent := [Ping(micros, 0)];
      deadline := Some(micros + TIMEOUT);
      result := None;
    }

    method ResetTimer(micros: int)
      modifies `deadline
      ensures deadline == Some(micros + TIMEOUT)
    {
      deadline := Some(micros + TIMEOUT);
    }

    method OnTimer(micros: int)
      requires Valid() && status == Running
      modifies this
      ensures Valid() && Model() == OnTimeout(old(Model()))
      ensures sent == old(sent) + (if status == Running then [Ping(micros, 0)] else [])
      ensures status == Running ==> deadline == Some(micros + TIMEOUT)
    {
      if started < NUM_MEASUREMENTS {
        sent := sent + [Ping(micros, 0)];
        started := started + 1;
        ResetTimer(micros);
      } else {
        Fail();
      }
    }

    /** A message that is no pong, or cannot be parsed, is `None`. */
    method OnMessage(message: Option<Pong>, micros: int)
      requires Valid() && status == Running
      modifies this
      ensures Valid()
      ensures message.None? ==> unchanged(this)
      ensures message.Some? ==> Model() == OnPong(old(Model()), session, message.value, micros)
      ensures message.Some? ==>
                sent == old(sent) + if message.value.session == session then [Answer(message.value, micros)] else []
      ensures message.Some? && status == Running ==> deadline == Some(micros + TIMEOUT)
    {
      if message == None {
        return;
      }
      var pong := message.value;
      if session == pong.session {
        sent := sent + [Ping(micros, pong.ghostTime)];
        if pong.ghostTime != 0 && pong.ping.hostTime != 0 {
          data := data + [pong.ghostTime as real - (micros + pong.ping.hostTime) as real * 0.5];
          if pong.ping.prevGhostTime != 0 {
            data := data
              + [(pong.ghostTime + pong.ping.prevGhostTime) as real * 0.5 - pong.ping.hostTime as real];
          }
        }
        assert data == old(data) + Samples(pong, micros);
        if |data| > NUM_DATA_POINTS {
          Finish();
        } else {
          ResetTimer(micros);
        }
      } else {
        Fail();
      }
    }

    method Finish()
      modifies `deadline, `status, `result
      ensures status == Finished && deadline == None && result == Some(data)
    {
      deadline := None;
      status := Finished;
      result := Some(data);
    }

    method Fail()
      modifies `data, `status, `result
      ensures status == Failed && data == [] && result == Some([])
    {
      data := [];
      status := Failed;
      result := Some(data);
    }
  }

  class PingResponder {
    var session: L.Id
    var xform: GhostXForm

    constructor (session: L.Id, xform: GhostXForm)
      ensures this.session == session && this.xform == xform
    {
      this.session, this.xform := session, xform;
    }

    method UpdateNodeState(session: L.Id, xform: GhostXForm)
      modifies this
      ensures this.session == session && this.xform == xform
    {
      this.session, this.xform := session, xform;
    }

    /** The answer to a ping is a step of every exchange in which the responder's clock and
        transform agree with the offset, if it is in the session measured. */
    method Reply(ping: Ping, micros: int) returns (pong: Pong)
      ensures pong == Pong(session, xform.HostToGhost(micros), ping)
      ensures forall w: World ::
                ping in w.pings && (session == w.session ==> w.now + w.delta == micros + xform.intercept)
                ==> var e := Event.Reply(ping, session, pong.ghostTime); Enabled(w, e) && pong in Next(w, e).pongs
    {
      var currentGhostTime := xform.HostToGhost(micros);
      pong := Pong(session, currentGhostTime, ping);
    }
  }

  class MeasurementService {
    /** The nodes being measured, with the session of each. */
    var measurements: map<L.Id, L.Id>

    /** How many measurements were asked for, how many handlers were called, and how many
        measurements were dropped for a newer one of the same node. */
    ghost var requests: nat
    ghost var answers: nat
    ghost var replaced: nat

    /** No handler is called twice, and none is lost: a request is answered, replaced or
        still being measured. */
    ghost predicate Valid()
      reads this
    {
      requests == answers + replaced + |measurements|
    }

    constructor ()
      ensures Valid() && measurements == map[] && requests == 0
    {
      measurements := map[];
      requests, answers, replaced := 0, 0, 0;
    }

    /** A measurement that cannot be started completes at once, without a transform. */
    method MeasurePeer(node: L.Id, session: L.Id, ready: bool) returns (handled: Option<Option<GhostXForm>>)
      requires Valid()
      modifies this
      ensures Valid() && requests == old(requests) + 1
      ensures answers == old(answers) + if handled.Some? then 1 else 0
      ensures replaced == old(replaced) + if ready && node in old(measurements) then 1 else 0
      ensures ready ==> measurements == old(measurements)[node := session] && handled == None
      ensures !ready ==> measurements == old(measurements) && handled == Some(None)
    {
      requests := requests + 1;
      if ready {
        if node in measurements {
          replaced := replaced + 1;
        }
        Registered(measurements, node, session);
        measurements := measurements[node := session];
        handled := None;
      } else {
        handled := Some(None);
        answers := answers + 1;
      }
    }

    /** The completion callback: hands over the transform, if there is data, and forgets the
        measurement; it is silent for a measurement that is already forgotten. */
    method Complete(node: L.Id, data: array<real>) returns (handled: Option<Option<GhostXForm>>)
      requires Valid() && (data.Length == 0 || data.Length > 2)
      modifies this, data
      ensures Valid() && requests == old(requests) && replaced == old(replaced)
      ensures answers == old(answers) + if handled.Some? then 1 else 0
      ensures node !in old(measurements) ==> handled == None && measurements == old(measurements)
      ensures node in old(measurements) ==> handled.Some? && measurements == old(measurements) - {node}
      ensures handled.Some? ==> (handled.value.None? <==> data.Length == 0)
      ensures handled.Some? && data.Length > 2 ==> MayMeasure(old(data[..]), handled.value.value)
    {
      if node in measurements {
        if data.Length == 0 {
          handled := Some(None);
        } else {
          ghost var before := data[..];
          var m := Median(data);
          handled := Some(Some(GhostXForm(LlRound(m))));
          assert MayBeMedian(before, m);
        }
        Forgotten(measurements, node);
        measurements := measurements - {node};
        answers := answers + 1;
      } else {
        handled := None;
      }
    }
  }

  lemma Registered<K, V>(m: map<K, V>, k: K, v: V)
    ensures |m[k := v]| == |m| + if k in m then 0 else 1
  {
    assert m[k := v].Keys == m.Keys + {k};
    assert k in m ==> m.Keys + {k} == m.Keys;
    assert |m[k := v]| == |m[k := v].Keys| && |m| == |m.Keys|;
  }

  lemma Forgotten<K, V>(m: map<K, V>, k: K)
    requires k in m
    ensures |m - {k}| == |m| - 1
  {
    assert (m - {k}).Keys == m.Keys - {k};
    assert |m - {k}| == |(m - {k}).Keys| && |m| == |m.Keys|;
  }

  /** The transform is one that the data may lead to. */
  ghost predicate MayMeasure(data: seq<real>, xform: GhostXForm)
    requires |data| > 2
  {
    exists m :: MayBeMedian(data, m) && xform == GhostXForm(LlRound(m))
  }

  // ---------------------------------------------------------------- the exchange over a network

  /** A measurement, a network that may lose, repeat and reorder what is sent on it, and
      responders.  The responders' clocks advance with the host clock; those in the
      measured session convert so that their ghost time is the host time plus `delta`. */
  datatype World = World(
    now: int, session: L.Id, delta: int,
    pings: set<Ping>, pongs: set<Pong>,
    progress: Progress, widths: seq<int>)

  datatype Event =
    | Tick(micros: nat)
    | Reply(ping: Ping, session: L.Id, ghostTime: int)
    | Deliver(pong: Pong)
    | Expire

  function Initial(now: int, session: L.Id, delta: int): World {
    World(now, session, delta, {Ping(now, 0)}, {}, STARTED, [])
  }

  ghost predicate Enabled(w: World, e: Event) {
    match e
    case Tick(_) => true
    case Reply(ping, session, ghostTime) => ping in w.pings && (session == w.session ==> ghostTime == w.now + w.delta)
    case Deliver(pong) => pong in w.pongs && w.progress.status == Running
    case Expire => w.progress.status == Running
  }

  /** For each sample the time between the two readings that enclose the third. */
  function Widths(pong: Pong, hostTime: int): seq<int> {
    if pong.ghostTime == 0 || pong.ping.hostTime == 0 then []
    else
      [hostTime - pong.ping.hostTime]
      + if pong.ping.prevGhostTime == 0 then [] else [pong.ghostTime - pong.ping.prevGhostTime]
  }

  function Next(w: World, e: Event): World {
    match e
    case Tick(micros) => w.(now := w.now + micros)
    case Reply(ping, session, ghostTime) => w.(pongs := w.pongs + {Pong(session, ghostTime, ping)})
    case Deliver(pong) =>
      w.(
        progress := OnPong(w.progress, w.session, pong, w.now),
        pings := if pong.session == w.session then w.pings + {Answer(pong, w.now)} else w.pings,
        widths := if pong.session == w.session then w.widths + Widths(pong, w.now) else [])
    case Expire =>
      var progress := OnTimeout(w.progress);
      w.(
        progress := progress,
        pings := if progress.status == Running then w.pings + {Ping(w.now, 0)} else w.pings,
        widths := if progress.status == Running then w.widths else [])
  }

  ghost predicate IsRun(w: World, events: seq<Event>, w': World)
    decreases |events|
  {
    if events == [] then w == w'
    else Enabled(w, events[0]) && IsRun(Next(w, events[0]), events[1..], w')
  }

  // ---------------------------------------------------------------- the error of a sample

  ghost predicate PingOk(p: Ping, now: int, delta: int) {
    p.hostTime <= now && (p.prevGhostTime != 0 ==> p.prevGhostTime - delta <= p.hostTime)
  }

  ghost predicate PongOk(q: Pong, now: int, delta: int) {
    PingOk(q.ping, now, delta) && q.ping.hostTime <= q.ghostTime - delta <= now
  }

  /** Every sample is within half its width of the offset. */
  ghost predicate Close(data: seq<real>, widths: seq<int>, delta: int) {
    && |data| == |widths|
    && forall i :: 0 <= i < |data| ==>
         delta as real - widths[i] as real * 0.5 <= data[i] <= delta as real + widths[i] as real * 0.5
  }

  lemma SamplesAreClose(pong: Pong, now: int, delta: int)
    requires PongOk(pong, now, delta)
    ensures Close(Samples(pong, now), Widths(pong, now), delta)
  {
  }

  ghost predicate Inv(w: World) {
    && (forall p :: p in w.pings ==> PingOk(p, w.now, w.delta))
    && (forall q :: q in w.pongs && q.session == w.session ==> PongOk(q, w.now, w.delta))
    && Close(w.progress.data, w.widths, w.delta)
    && match w.progress.status
       case Running => |w.progress.data| <= NUM_DATA_POINTS
       case Failed => w.progress.data == []
       case Finished => NUM_DATA_POINTS < |w.progress.data| <= NUM_DATA_POINTS + 2
  }

  lemma InvStep(w: World, e: Event)
    requires Inv(w) && Enabled(w, e)
    ensures Inv(Next(w, e))
  {
    if e.Deliver? && e.pong.session == w.session {
      SamplesAreClose(e.pong, w.now, w.delta);
    }
  }

  lemma {:induction false} InvAlongRun(w: World, events: seq<Event>, w': World)
    requires Inv(w) && IsRun(w, events, w')
    ensures Inv(w') && w'.delta == w.delta && w'.session == w.session
    decreases |events|
  {
    if events != [] {
      InvStep(w, events[0]);
      InvAlongRun(Next(w, events[0]), events[1..], w');
    }
  }

  /** How many exchanges are missing: two samples come from each, but one from a ping that has no
      earlier ghost time. */
  function Missing(data: seq<real>, ping: Ping): int {
    if ping.prevGhostTime == 0 then 1 + (NUM_DATA_POINTS + 1 - |data|) / 2 else (NUM_DATA_POINTS + 2 - |data|) / 2
  }

  /** From every point of an exchange at non-zero times, replies that arrive lead to its end, in
      exactly so many exchanges as data is missing: 51 from the start. */
  lemma {:induction false} CanFinish(w: World, ping: Ping) returns (events: seq<Event>, w': World)
    requires w.progress.status == Running && |w.progress.data| <= NUM_DATA_POINTS
    requires ping in w.pings && ping.hostTime != 0 && w.now != 0 && w.now + w.delta != 0
    ensures IsRun(w, events, w') && w'.progress.status == Finished
    ensures |events| == 2 * Missing(w.progress.data, ping)
    decreases NUM_DATA_POINTS - |w.progress.data|
  {
    var pong := Pong(w.session, w.now + w.delta, ping);
    var reply, deliver := Reply(ping, w.session, w.now + w.delta), Deliver(pong);
    var w1 := Next(w, reply);
    var w2 := Next(w1, deliver);
    assert |w2.progress.data| == |w.progress.data| + if ping.prevGhostTime == 0 then 1 else 2;
    var rest: seq<Event> := [];
    w' := w2;
    if w2.progress.status != Finished {
      rest, w' := CanFinish(w2, Answer(pong, w.now));
    }
    assert IsRun(w1, [deliver] + rest, w') by {
      assert ([deliver] + rest)[1..] == rest;
    }
    events := [reply] + ([deliver] + rest);
    assert events[1..] == [deliver] + rest;
  }

  function Timeouts(events: seq<Event>): nat {
    if events == [] then 0 else (if events[0].Expire? then 1 else 0) + Timeouts(events[1..])
  }

  /** Some pong that arrived was of another session. */
  ghost predicate HearsOther(events: seq<Event>, session: L.Id) {
    exists i :: 0 <= i < |events| && events[i].Deliver? && events[i].pong.session != session
  }

  /** A measurement fails exactly by more than five timeouts, whatever arrives between them, or by a
      pong of another session; up to then each timeout only sends another ping. */
  lemma FailsExactly(now: int, session: L.Id, delta: int, events: seq<Event>, w: World)
    requires IsRun(Initial(now, session, delta), events, w)
    ensures w.progress.status == Failed <==> Timeouts(events) > 5 || HearsOther(events, session)
    ensures Timeouts(events) <= 6
  {
    FailsFrom(Initial(now, session, delta), events, w);
  }

  lemma {:induction false} FailsFrom(w: World, events: seq<Event>, w': World)
    requires IsRun(w, events, w') && w.progress.started <= NUM_MEASUREMENTS
    ensures w.progress.status == Running ==>
              && (w'.progress.status == Failed
                  <==> w.progress.started + Timeouts(events) > 5 || HearsOther(events, w.session))
              && w.progress.started + Timeouts(events) <= 6
    ensures w.progress.status != Running ==>
              w'.progress == w.progress && Timeouts(events) == 0 && !HearsOther(events, w.session)
    decreases |events|
  {
    if events != [] {
      var e, rest := events[0], events[1..];
      var next := Next(w, e);
      assert HearsOther(events, w.session)
        <==> (e.Deliver? && e.pong.session != w.session) || HearsOther(rest, w.session) by
      {
        if i :| 0 <= i < |rest| && rest[i].Deliver? && rest[i].pong.session != w.session {
          assert events[i + 1] == rest[i];
        }
        if i :| 0 <= i < |events| && events[i].Deliver? && events[i].pong.session != w.session {
          if i > 0 { assert rest[i - 1] == events[i]; }
        }
      }
      if next.progress.started <= NUM_MEASUREMENTS {
        FailsFrom(next, rest, w');
      }
    }
  }

  /** Until it ends, every timeout and every pong of the session has another ping sent. */
  lemma PingsGoOn(w: World, e: Event)
    requires Enabled(w, e) && (e.Expire? || e.Deliver?) && Next(w, e).progress.status == Running
    ensures e.Expire? ==> Ping(w.now, 0) in Next(w, e).pings
    ensures e.Deliver? ==> Ping(w.now, e.pong.ghostTime) in Next(w, e).pings
  {
  }

  // ---------------------------------------------------------------- the error of a measurement

  /** Whatever the network does, every sample is within half its width of the offset. */
  lemma EverySampleIsClose(now: int, session: L.Id, delta: int, events: seq<Event>, w: World)
    requires IsRun(Initial(now, session, delta), events, w)
    ensures Close(w.progress.data, w.widths, delta)
    ensures w.progress.status == Finished ==> NUM_DATA_POINTS < |w.progress.data| <= NUM_DATA_POINTS + 2
  {
    InvAlongRun(Initial(now, session, delta), events, w);
  }

  lemma RoundedBound(m: real, delta: int, width: int)
    requires delta as real - width as real * 0.5 <= m <= delta as real + width as real * 0.5
    ensures 2 * Abs(LlRound(m) - delta) <= width + 1
  {
    LlRoundIs(m, LlRound(m));
  }

  /** A finished measurement is within half the largest width of the offset, and rounding. */
  lemma FinishedMeasurement(now: int, session: L.Id, delta: int, events: seq<Event>, w: World, xform: GhostXForm,
                            width: int)
    requires IsRun(Initial(now, session, delta), events, w) && w.progress.status == Finished
    requires |w.progress.data| > 2 && MayMeasure(w.progress.data, xform)
    requires forall i :: 0 <= i < |w.widths| ==> w.widths[i] <= width
    ensures 2 * Abs(xform.intercept - delta) <= width + 1
  {
    EverySampleIsClose(now, session, delta, events, w);
    var m :| MayBeMedian(w.progress.data, m) && xform == GhostXForm(LlRound(m));
    MedianWithin(w.progress.data, m, delta as real - width as real * 0.5, delta as real + width as real * 0.5);
    RoundedBound(m, delta, width);
  }

  /** How many widths are at most a bound. */
  function AtMost(widths: seq<int>, width: int): nat {
    if widths == [] then 0 else (if widths[0] <= width then 1 else 0) + AtMost(widths[1..], width)
  }

  lemma {:induction false} NarrowSamples(data: seq<real>, widths: seq<int>, delta: int, width: int)
    requires Close(data, widths, delta)
    ensures AtMost(widths, width)
         <= Between(data, delta as real - width as real * 0.5, delta as real + width as real * 0.5)
    decreases |data|
  {
    if data != [] {
      assert Close(data[1..], widths[1..], delta);
      NarrowSamples(data[1..], widths[1..], delta, width);
    }
  }

  /** With an odd number of samples the bound only needs the narrower half: slow exchanges,
      as long as they are fewer than half, do not harm. */
  lemma OddMeasurementIsRobust(now: int, session: L.Id, delta: int, events: seq<Event>, w: World, xform: GhostXForm,
                               width: int)
    requires IsRun(Initial(now, session, delta), events, w) && w.progress.status == Finished
    requires |w.progress.data| > 2 && MayMeasure(w.progress.data, xform)
    requires |w.progress.data| % 2 == 1 && 2 * AtMost(w.widths, width) > |w.progress.data|
    ensures 2 * Abs(xform.intercept - delta) <= width + 1
  {
    EverySampleIsClose(now, session, delta, events, w);
    var m :| MayBeMedian(w.progress.data, m) && xform == GhostXForm(LlRound(m));
    NarrowSamples(w.progress.data, w.widths, delta, width);
    OddMedianIsRobust(w.progress.data, m, delta as real - width as real * 0.5, delta as real + width as real * 0.5);
    RoundedBound(m, delta, width);
  }
}
