/** The state that a peer announces, as a payload. */
module PeerStates {
  import opened ByteStreams
  import opened Payloads
  import opened Timelines
  import opened Wrappers

  type NodeId = bs: Bytes | |bs| == 8 witness [0, 0, 0, 0, 0, 0, 0, 0]
  const NO_ID: NodeId := [0, 0, 0, 0, 0, 0, 0, 0]

  // ---------------------------------------------------------------- values

  /** A timeline as it travels: its tempo is the microseconds per beat. */
  datatype WireTimeline = WireTimeline(microsPerBeat: Int64, beatOrigin: Int64, timeOrigin: Int64)

  datatype StartStopState = StartStopState(isPlaying: bool, beats: Int64, timestamp: Int64)
  const STOPPED := StartStopState(false, 0, 0)

  type Address4 = n: nat | n < 0x1_0000_0000
  type Address6 = bs: Bytes | |bs| == 16 witness [0, 0, 0, 0, 0, 0, 0, 0, 0, 0, 0, 0, 0, 0, 0, 0]
  type Port = n: nat | n < 0x1_0000

  datatype Endpoint =
    | V4(address4: Address4, port: Port)
    | V6(address6: Address6, port: Port, scope: nat)
  {
    function WithoutScope(): Endpoint { if V6? then this.(scope := 0) else this }
  }

  /** The timeline is a `WireTimeline` in a state that is sent, and an optional one in a state
      that is received: `None` is the timeline of zeros before any is read. */
  datatype NodeState<T> = NodeState(nodeId: NodeId, sessionId: NodeId, timeline: T, startStopState: StartStopState)
  datatype PeerState<T> = PeerState(nodeState: NodeState<T>, endpoint: Endpoint)

  // ---------------------------------------------------------------- the codecs of the entries

  function PrintTimeline(w: WireTimeline): (bs: Bytes)
    ensures |bs| == 24
  {
    PrintInt64(w.microsPerBeat) + PrintInt64(w.beatOrigin) + PrintInt64(w.timeOrigin)
  }

  function ParseTimeline(bs: Bytes): Parsed<WireTimeline> {
    match ParseInt64(bs)
    case Failed => Failed
    case Parsed(m, rest) =>
      match ParseInt64(rest)
      case Failed => Failed
      case Parsed(beats, rest) =>
        match ParseInt64(rest)
        case Failed => Failed
        case Parsed(time, rest) => Parsed(WireTimeline(m, beats, time), rest)
  }

  lemma ParsePrintedTimeline(w: WireTimeline)
    ensures ParseTimeline(PrintTimeline(w)) == Parsed(w, [])
  {
    hide PrintInt64, ParseInt64;
    var a, b, c := PrintInt64(w.microsPerBeat), PrintInt64(w.beatOrigin), PrintInt64(w.timeOrigin);
    assert a + b + c == a + (b + (c + []));
    ParsePrintedInt64(w.microsPerBeat, b + (c + []));
    ParsePrintedInt64(w.beatOrigin, c + []);
    ParsePrintedInt64(w.timeOrigin, []);
  }

  function PrintStartStop(s: StartStopState): (bs: Bytes)
    ensures |bs| == 17
  {
    PrintBool(s.isPlaying) + PrintInt64(s.beats) + PrintInt64(s.timestamp)
  }

  function ParseStartStop(bs: Bytes): Parsed<StartStopState> {
    match ParseBool(bs)
    case Failed => Failed
    case Parsed(isPlaying, rest) =>
      match ParseInt64(rest)
      case Failed => Failed
      case Parsed(beats, rest) =>
        match ParseInt64(rest)
        case Failed => Failed
        case Parsed(timestamp, rest) => Parsed(StartStopState(isPlaying, beats, timestamp), rest)
  }

  lemma ParsePrintedStartStop(s: StartStopState)
    ensures ParseStartStop(PrintStartStop(s)) == Parsed(s, [])
  {
    hide PrintInt64, ParseInt64, PrintBool, ParseBool;
    var a, b, c := PrintBool(s.isPlaying), PrintInt64(s.beats), PrintInt64(s.timestamp);
    assert a + b + c == a + (b + (c + []));
    ParsePrintedBool(s.isPlaying, b + (c + []));
    ParsePrintedInt64(s.beats, c + []);
    ParsePrintedInt64(s.timestamp, []);
  }

  function ParseId(bs: Bytes): Parsed<NodeId> {
    ParseArrayIs(8, bs);
    var p := ParseArray(8, bs);
    Parsed(p.value, p.rest)
  }

  /** A session id may be cut off; only one that is too long is refused. */
  lemma SessionIdIsPadded(bs: Bytes)
    ensures Exactly(ParseId(bs)) == if |bs| <= 8 then Some(Padded(8, bs)) else None
  {
    hide ParseArray, Padded, After;
    ParseArrayIs(8, bs);
  }

  lemma Limits()
    ensures Limit(4) == 0x1_0000_0000 && Limit(2) == 0x1_0000
  {
  }

  /** Empty for an address of the other version. */
  function PrintEndpoint4(ep: Endpoint): Bytes {
    Limits();
    if ep.V6? then [] else PrintUInt(4, ep.address4) + PrintUInt(2, ep.port)
  }

  function ParseEndpoint4(bs: Bytes): Parsed<Endpoint> {
    Limits();
    match ParseUInt(4, bs)
    case Failed => Failed
    case Parsed(address, rest) =>
      match ParseUInt(2, rest)
      case Failed => Failed
      case Parsed(port, rest) => Parsed(V4(address, port), rest)
  }

  lemma ParsePrintedEndpoint4(ep: Endpoint)
    requires ep.V4?
    ensures |PrintEndpoint4(ep)| == 6 && ParseEndpoint4(PrintEndpoint4(ep)) == Parsed(ep, [])
  {
    hide Limit, PrintUInt, ParseUInt;
    Limits();
    var a, b := PrintUInt(4, ep.address4), PrintUInt(2, ep.port);
    assert a + b == a + (b + []);
    ParsePrintedUInt(4, ep.address4, b + []);
    ParsePrintedUInt(2, ep.port, []);
  }

  function PrintEndpoint6(ep: Endpoint): Bytes {
    Limits();
    if ep.V4? then [] else ep.address6 + PrintUInt(2, ep.port)
  }

  function ParseEndpoint6(bs: Bytes): Parsed<Endpoint> {
    Limits();
    ParseArrayIs(16, bs);
    var address := ParseArray(16, bs);
    match ParseUInt(2, address.rest)
    case Failed => Failed
    case Parsed(port, rest) => Parsed(V6(address.value, port, 0), rest)
  }

  lemma ParsePrintedEndpoint6(ep: Endpoint)
    requires ep.V6?
    ensures |PrintEndpoint6(ep)| == 18 && ParseEndpoint6(PrintEndpoint6(ep)) == Parsed(ep.WithoutScope(), [])
  {
    hide Limit, PrintUInt, ParseUInt, ParseArray;
    Limits();
    var b := PrintUInt(2, ep.port);
    var bs := ep.address6 + b;
    ParseArrayIs(16, bs);
    assert Padded(16, bs) == ep.address6 && After(16, bs) == b + [];
    ParsePrintedUInt(2, ep.port, []);
  }

  // ---------------------------------------------------------------- to a payload

  const TMLN: Key := 0x746d6c6e
  const SESS: Key := 0x73657373
  const STST: Key := 0x73747374
  const MEP4: Key := 0x6d657034
  const MEP6: Key := 0x6d657036

  const NODE_KEYS: set<Key> := {TMLN, SESS, STST}
  const ENDPOINT_KEYS: set<Key> := {MEP4, MEP6}

  function TimelineEntry(w: WireTimeline): Entry { Entry(TMLN, PrintTimeline(w)) }

  function NodePayload(s: NodeState<WireTimeline>): Payload {
    Cons(TimelineEntry(s.timeline),
         Cons(Entry(SESS, s.sessionId),
              Single(Entry(STST, PrintStartStop(s.startStopState)))))
  }

  function ToPayload(s: PeerState<WireTimeline>): Payload {
    NodePayload(s.nodeState)
    .Plus(Single(Entry(MEP4, PrintEndpoint4(s.endpoint))))
    .Plus(Single(Entry(MEP6, PrintEndpoint6(s.endpoint))))
  }

  /** The one endpoint entry that is written. */
  function EndpointEntry(ep: Endpoint): Entry {
    if ep.V4? then Entry(MEP4, PrintEndpoint4(ep)) else Entry(MEP6, PrintEndpoint6(ep))
  }

  lemma NodePayloadIs(n: NodeState<WireTimeline>)
    ensures NodePayload(n).Fits() && NodePayload(n).Size() == 73
    ensures NodePayload(n).Written()
         == [TimelineEntry(n.timeline)]
            + ([Entry(SESS, n.sessionId)] + ([Entry(STST, PrintStartStop(n.startStopState))] + []))
  {
    hide PrintTimeline, PrintStartStop, Payload.Fits, Payload.Written, Payload.Size, Single;
    var e1, e2, e3 := TimelineEntry(n.timeline), Entry(SESS, n.sessionId), Entry(STST,
        PrintStartStop(n.startStopState));
    SingleIs(e3);
    ConsIs(e2, Single(e3));
    ConsIs(e1, Cons(e2, Single(e3)));
  }

  lemma ConsIs(e: Entry, rest: Payload)
    requires e.Fits() && rest.Fits()
    ensures Cons(e, rest).Fits() && Cons(e, rest).Size() == HEADER_SIZE + |e.value| + rest.Size()
    ensures Cons(e, rest).Written() == if e.value == [] then rest.Written() else [e] + rest.Written()
  {
  }

  lemma SingleIs(e: Entry)
    requires e.Fits()
    ensures Single(e).Fits() && Single(e).Size() == HEADER_SIZE + |e.value|
    ensures Single(e).Written() == if e.value == [] then [] else [e] + []
  {
  }

  lemma ToPayloadIs(s: PeerState<WireTimeline>)
    ensures ToPayload(s).Fits()
    ensures ToPayload(s).Written()
         == [TimelineEntry(s.nodeState.timeline)]
            + ([Entry(SESS, s.nodeState.sessionId)]
               + ([Entry(STST, PrintStartStop(s.nodeState.startStopState))] + ([EndpointEntry(s.endpoint)] + [])))
    ensures ToPayload(s).Size() == if s.endpoint.V4? then 95 else 107
  {
    hide PrintTimeline, PrintStartStop, PrintEndpoint4, PrintEndpoint6, TimelineEntry, NodePayload, Single,
      Payload.Written, Payload.Plus, Payload.Print, Payload.Size, Payload.Fits;
    var n := NodePayload(s.nodeState);
    var e4, e6 := Entry(MEP4, PrintEndpoint4(s.endpoint)), Entry(MEP6, PrintEndpoint6(s.endpoint));
    EndpointSizes(s.endpoint);
    NodePayloadIs(s.nodeState);
    SingleIs(e4);
    SingleIs(e6);
    PlusPrints(n, Single(e4));
    PlusPrints(n.Plus(Single(e4)), Single(e6));
    var e1, e2, e3 := TimelineEntry(s.nodeState.timeline), Entry(SESS, s.nodeState.sessionId),
                      Entry(STST, PrintStartStop(s.nodeState.startStopState));
    var last := EndpointEntry(s.endpoint);
    assert ToPayload(s).Written() == [e1] + ([e2] + ([e3] + [])) + ([last] + []);
    assert [e1] + ([e2] + ([e3] + [])) + ([last] + []) == [e1] + ([e2] + ([e3] + ([last] + [])));
  }

  lemma EndpointSizes(ep: Endpoint)
    ensures |PrintEndpoint4(ep)| == (if ep.V4? then 6 else 0) && |PrintEndpoint6(ep)| == if ep.V4? then 0 else 18
  {
    if ep.V4? {
      ParsePrintedEndpoint4(ep);
    } else {
      ParsePrintedEndpoint6(ep);
    }
  }

  // ---------------------------------------------------------------- on the wire

  /** Four letters. */
  function Letters(key: Key): (bs: Bytes)
    ensures |bs| == 4
  {
    [key / 0x100_0000, key / 0x1_0000 % 0x100, key / 0x100 % 0x100, key % 0x100]
  }

  lemma LettersArePrinted(key: Key)
    ensures Limit(4) == 0x1_0000_0000 && PrintUInt(4, key) == Letters(key)
  {
    hide PrintUInt;
    LimitOf4();
    assert Limit(0) == 1 && Limit(1) == 0x100 && Limit(2) == 0x1_0000 && Limit(3) == 0x100_0000;
    forall k: nat | k < 4 ensures PrintUInt(4, key)[k] == Letters(key)[k] { PrintedByte(4, key, k); }
  }

  /** The entry stands in the bytes at the place, with its key, its size and its value. */
  ghost predicate StandsAt(bs: Bytes, at: nat, key: Key, value: Bytes) {
    && |value| < 0x1_0000_0000 && at + 8 + |value| <= |bs|
    && bs[at..at + 4] == Letters(key) && bs[at + 4..at + 8] == Letters(|value|) && bs[at + 8..at + 8 + |value|] == value
  }

  lemma RawStandsAt(before: Bytes, e: Entry, after: Bytes)
    requires e.Fits()
    ensures StandsAt(before + (PrintRaw(e) + after), |before|, e.key, e.value)
  {
    hide PrintUInt, Letters, Limit;
    LettersArePrinted(e.key);
    LettersArePrinted(|e.value|);
    var bs := before + (PrintRaw(e) + after);
    assert bs == before + (Letters(e.key) + (Letters(|e.value|) + (e.value + after)));
    var at := |before|;
    assert bs[at..at + 4] == Letters(e.key);
    assert bs[at + 4..at + 8] == Letters(|e.value|);
    assert bs[at + 8..at + 8 + |e.value|] == e.value;
  }

  lemma FourRaws(e1: Entry, e2: Entry, e3: Entry, e4: Entry)
    requires e1.Fits() && e2.Fits() && e3.Fits() && e4.Fits()
    ensures var es := [e1] + ([e2] + ([e3] + ([e4] + [])));
            AllFit(es) && PrintRaws(es) == PrintRaw(e1) + (PrintRaw(e2) + (PrintRaw(e3) + (PrintRaw(e4) + [])))
  {
    RawsCons(e4, []);
    RawsCons(e3, [e4] + []);
    RawsCons(e2, [e3] + ([e4] + []));
    RawsCons(e1, [e2] + ([e3] + ([e4] + [])));
  }

  lemma RawsCons(e: Entry, es: seq<Entry>)
    requires e.Fits() && AllFit(es)
    ensures AllFit([e] + es) && PrintRaws([e] + es) == PrintRaw(e) + PrintRaws(es)
  {
    hide PrintRaw;
    assert ([e] + es)[1..] == es;
  }

  /** Where everything stands in the bytes of a state, and with how many bytes. */
  lemma StateOnTheWire(s: PeerState<WireTimeline>)
    ensures ToPayload(s).Fits()
    ensures var (bs, n, ep) := (ToPayload(s).Print(), s.nodeState, s.endpoint);
            && |bs| == (if ep.V4? then 87 else 99)
            && StandsAt(bs, 0, 0x746d6c6e, PrintTimeline(n.timeline))
            && StandsAt(bs, 32, 0x73657373, n.sessionId)
            && StandsAt(bs, 48, 0x73747374, PrintStartStop(n.startStopState))
            && StandsAt(bs, 73, if ep.V4? then 0x6d657034 else 0x6d657036, EndpointEntry(ep).value)
  {
    hide PrintUInt, PrintInt64, PrintRaw, StandsAt, PrintTimeline, PrintStartStop, PrintEndpoint4, PrintEndpoint6,
      ToPayload, PrintRaws, Limit;
    var n := s.nodeState;
    var e1, e2, e3, e4 := TimelineEntry(n.timeline), Entry(SESS, n.sessionId),
                          Entry(STST, PrintStartStop(n.startStopState)), EndpointEntry(s.endpoint);
    ToPayloadIs(s);
    EndpointSizes(s.endpoint);
    PrintIsPrintRaws(ToPayload(s));
    FourRaws(e1, e2, e3, e4);
    FourStand(e1, e2, e3, e4);
  }

  lemma FourStand(e1: Entry, e2: Entry, e3: Entry, e4: Entry)
    requires e1.Fits() && e2.Fits() && e3.Fits() && e4.Fits()
    requires |e1.value| == 24 && |e2.value| == 8 && |e3.value| == 17
    ensures var bs := PrintRaw(e1) + (PrintRaw(e2) + (PrintRaw(e3) + (PrintRaw(e4) + [])));
            && |bs| == 81 + |e4.value|
            && StandsAt(bs, 0, e1.key, e1.value) && StandsAt(bs, 32, e2.key, e2.value)
            && StandsAt(bs, 48, e3.key, e3.value) && StandsAt(bs, 73, e4.key, e4.value)
  {
    hide PrintRaw, StandsAt;
    var r1, r2, r3, r4 := PrintRaw(e1), PrintRaw(e2), PrintRaw(e3), PrintRaw(e4);
    var bs := r1 + (r2 + (r3 + (r4 + [])));
    assert bs == [] + bs;
    assert bs == (r1 + r2) + (r3 + (r4 + []));
    assert bs == (r1 + r2 + r3) + (r4 + []);
    RawStandsAt([], e1, r2 + (r3 + (r4 + [])));
    RawStandsAt(r1, e2, r3 + (r4 + []));
    RawStandsAt(r1 + r2, e3, r4 + []);
    RawStandsAt(r1 + r2 + r3, e4, []);
  }

  /** And in the bytes of the values. */
  lemma TimelineParts(w: WireTimeline)
    ensures var v := PrintTimeline(w);
            v[0..8] == PrintInt64(w.microsPerBeat) && v[8..16] == PrintInt64(w.beatOrigin)
            && v[16..24] == PrintInt64(w.timeOrigin)
  {
    hide PrintInt64;
  }

  lemma StartStopParts(st: StartStopState)
    ensures var v := PrintStartStop(st);
            v[0] == (if st.isPlaying then 1 else 0) && v[1..9] == PrintInt64(st.beats)
            && v[9..17] == PrintInt64(st.timestamp)
  {
    hide PrintInt64;
  }

  lemma EndpointParts(ep: Endpoint)
    ensures Limit(4) == 0x1_0000_0000 && Limit(2) == 0x1_0000
    ensures var v := EndpointEntry(ep).value;
            && |v| == (if ep.V4? then 6 else 18)
            && (ep.V4? ==> v[..4] == PrintUInt(4, ep.address4)) && (ep.V6? ==> v[..16] == ep.address6)
            && v[|v| - 2..] == PrintUInt(2, ep.port)
  {
    hide PrintUInt, Limit;
    Limits();
    EndpointSizes(ep);
  }

  // ---------------------------------------------------------------- from a payload

  /** A value must be read to its end. */
  function Exactly<T>(p: Parsed<T>): Option<T> {
    if p.Parsed? && p.rest == [] then Some(p.value) else None
  }

  function NodeHandlers(s: NodeState<Option<WireTimeline>>, e: Entry): Option<NodeState<Option<WireTimeline>>> {
    if e.key == TMLN then
      match Exactly(ParseTimeline(e.value)) case None => None case Some(w) => Some(s.(timeline := Some(w)))
    else if e.key == SESS then
      match Exactly(ParseId(e.value)) case None => None case Some(ident) => Some(s.(sessionId := ident))
    else if e.key == STST then
      match Exactly(ParseStartStop(e.value)) case None => None case Some(st) => Some(s.(startStopState := st))
    else Some(s)
  }

  function EndpointHandlers(ep: Endpoint, e: Entry): Option<Endpoint> {
    if e.key == MEP4 then Exactly(ParseEndpoint4(e.value))
    else if e.key == MEP6 then Exactly(ParseEndpoint6(e.value))
    else Some(ep)
  }

  function NewNodeState(nodeId: NodeId): NodeState<Option<WireTimeline>> { NodeState(nodeId, NO_ID, None, STOPPED) }

  const NO_ENDPOINT := V4(0, 0)

  /** Two passes over the same bytes. */
  function Read(nodeId: NodeId, bs: Bytes): Option<PeerState<Option<WireTimeline>>> {
    match ParsePayload(NodeHandlers, NewNodeState(nodeId), bs)
    case None => None
    case Some(nodeState) =>
      match ParsePayload(EndpointHandlers, NO_ENDPOINT, bs)
      case None => None
      case Some(endpoint) => Some(PeerState(nodeState, endpoint))
  }

  method FromPayload(nodeId: NodeId, bytes: Bytes) returns (r: Option<PeerState<Option<WireTimeline>>>)
    ensures r == Read(nodeId, bytes)
  {
    var nodeState := ParseByteStream(NodeHandlers, NewNodeState(nodeId), bytes);
    if nodeState == None {
      return None;
    }
    var endpoint := ParseByteStream(EndpointHandlers, NO_ENDPOINT, bytes);
    if endpoint == None {
      return None;
    }
    return Some(PeerState(nodeState.value, endpoint.value));
  }

  // ---------------------------------------------------------------- there and back

  /** What arrives of a state. */
  function Received(s: PeerState<WireTimeline>): PeerState<Option<WireTimeline>> {
    var n := s.nodeState;
    PeerState(NodeState(n.nodeId, n.sessionId, Some(n.timeline), n.startStopState), s.endpoint.WithoutScope())
  }

  lemma KnownCons(keys: set<Key>, e: Entry, es: seq<Entry>)
    ensures Known(keys, [e] + es) == if e.key in keys then [e] + Known(keys, es) else Known(keys, es)
  {
    assert ([e] + es)[1..] == es;
  }

  lemma HandleCons<S>(handlers: Handlers<S>, s: S, e: Entry, es: seq<Entry>)
    ensures Handle(handlers, s, [e] + es)
         == match handlers(s, e) case None => None case Some(s') => Handle(handlers, s', es)
  {
    assert ([e] + es)[1..] == es;
  }

  /** Three entries of the node state and one of another key, each read exactly. */
  lemma ReadNode(n: NodeState<WireTimeline>, other: Entry)
    requires other.key !in NODE_KEYS
    ensures Handle(NodeHandlers, NewNodeState(n.nodeId),
                   [TimelineEntry(n.timeline)]
                   + ([Entry(SESS, n.sessionId)]
                      + ([Entry(STST, PrintStartStop(n.startStopState))] + ([other] + []))))
         == Some(NodeState(n.nodeId, n.sessionId, Some(n.timeline), n.startStopState))
  {
    hide ParseTimeline, PrintTimeline, ParseStartStop, PrintStartStop, ParseId;
    var e1, e2, e3 := TimelineEntry(n.timeline), Entry(SESS, n.sessionId), Entry(STST,
        PrintStartStop(n.startStopState));
    var s0 := NewNodeState(n.nodeId);
    var s1 := s0.(timeline := Some(n.timeline));
    var s2 := s1.(sessionId := n.sessionId);
    var s3 := s2.(startStopState := n.startStopState);
    ParsePrintedTimeline(n.timeline);
    SessionIdIsPadded(n.sessionId);
    ParsePrintedStartStop(n.startStopState);
    HandleCons(NodeHandlers, s0, e1, [e2] + ([e3] + ([other] + [])));
    HandleCons(NodeHandlers, s1, e2, [e3] + ([other] + []));
    HandleCons(NodeHandlers, s2, e3, [other] + []);
    HandleCons(NodeHandlers, s3, other, []);
  }

  lemma ReadEndpoint(ep: Endpoint)
    ensures Handle(EndpointHandlers, NO_ENDPOINT, [EndpointEntry(ep)] + []) == Some(ep.WithoutScope())
  {
    hide ParseEndpoint4, PrintEndpoint4, ParseEndpoint6, PrintEndpoint6;
    HandleCons(EndpointHandlers, NO_ENDPOINT, EndpointEntry(ep), []);
    if ep.V4? {
      ParsePrintedEndpoint4(ep);
    } else {
      ParsePrintedEndpoint6(ep);
    }
  }

  lemma OnlyHandleTheirKeys()
    ensures OnlyHandle(NodeHandlers, NODE_KEYS) && OnlyHandle(EndpointHandlers, ENDPOINT_KEYS)
  {
  }

  /** A state is recovered from any bytes whose entries are those of its payload with
      entries of other keys before, between and after them. */
  lemma ReadAmongOthers(s: PeerState<WireTimeline>, es: seq<Entry>)
    requires AllFit(es)
    requires Known(NODE_KEYS + ENDPOINT_KEYS, es) == ToPayload(s).Written()
    ensures Read(s.nodeState.nodeId, PrintRaws(es)) == Some(Received(s))
  {
    hide NodeHandlers, EndpointHandlers, PrintRaws, ParseRaws, ToPayload, Handle, TimelineEntry, PrintStartStop,
      EndpointEntry;
    var n, keys := s.nodeState, NODE_KEYS + ENDPOINT_KEYS;
    var e1, e2, e3, e4 := TimelineEntry(n.timeline), Entry(SESS, n.sessionId),
                          Entry(STST, PrintStartStop(n.startStopState)), EndpointEntry(s.endpoint);
    ParsePrintedRaws(es);
    OnlyHandleTheirKeys();
    ToPayloadIs(s);
    var all := ToPayload(s).Written();
    HandleKnown(NodeHandlers, NODE_KEYS, NewNodeState(n.nodeId), es);
    HandleKnown(NodeHandlers, NODE_KEYS, NewNodeState(n.nodeId), all);
    HandleKnown(EndpointHandlers, ENDPOINT_KEYS, NO_ENDPOINT, es);
    KnownOfPart(keys, NODE_KEYS, es);
    KnownOfPart(keys, ENDPOINT_KEYS, es);
    EntryKeys(n.timeline, s.endpoint);
    ReadNode(n, e4);
    ReadEndpoint(s.endpoint);
    EndpointPart(e1, e2, e3, e4);
  }

  lemma EntryKeys(w: WireTimeline, ep: Endpoint)
    ensures TimelineEntry(w).key == TMLN && EndpointEntry(ep).key in ENDPOINT_KEYS
  {
  }

  lemma EndpointPart(e1: Entry, e2: Entry, e3: Entry, e4: Entry)
    requires e1.key in NODE_KEYS && e2.key in NODE_KEYS && e3.key in NODE_KEYS && e4.key in ENDPOINT_KEYS
    ensures Known(ENDPOINT_KEYS, [e1] + ([e2] + ([e3] + ([e4] + [])))) == [e4] + []
  {
    hide Known;
    KnownCons(ENDPOINT_KEYS, e1, [e2] + ([e3] + ([e4] + [])));
    KnownCons(ENDPOINT_KEYS, e2, [e3] + ([e4] + []));
    KnownCons(ENDPOINT_KEYS, e3, [e4] + []);
    KnownCons(ENDPOINT_KEYS, e4, []);
    KnownOfNone(ENDPOINT_KEYS);
  }

  lemma KnownOfNone(keys: set<Key>)
    ensures Known(keys, []) == []
  {
  }

  lemma {:induction false} AllKnown(keys: set<Key>, es: seq<Entry>)
    requires forall i :: 0 <= i < |es| ==> es[i].key in keys
    ensures Known(keys, es) == es
  {
    if es != [] {
      AllKnown(keys, es[1..]);
    }
  }

  /** Printing then parsing recovers the whole state except for the scope of an IPv6 address. */
  lemma PeerStateRoundTrip(s: PeerState<WireTimeline>)
    ensures ToPayload(s).Fits() && Read(s.nodeState.nodeId, ToPayload(s).Print()) == Some(Received(s))
  {
    hide NodeHandlers, EndpointHandlers, Read, ToPayload;
    ToPayloadIs(s);
    EntryKeys(s.nodeState.timeline, s.endpoint);
    AllKnown(NODE_KEYS + ENDPOINT_KEYS, ToPayload(s).Written());
    PrintIsPrintRaws(ToPayload(s));
    ReadAmongOthers(s, ToPayload(s).Written());
  }

  // ---------------------------------------------------------------- the tempo on the wire

  predicate IsInt64(i: int) { -TWO_63 <= i < TWO_63 }

  /** The fields of the timeline fit the 64 bits that they have on the wire. */
  predicate Sendable(tl: Timeline) {
    tl.Valid() && IsInt64(tl.M()) && IsInt64(tl.beatOrigin) && IsInt64(tl.timeOrigin)
  }

  function ToWire(tl: Timeline): WireTimeline
    requires Sendable(tl)
  {
    WireTimeline(tl.M(), tl.beatOrigin, tl.timeOrigin)
  }

  /** The receiver's timeline. */
  function FromWire(w: WireTimeline): Timeline
    requires w.microsPerBeat > 0
  {
    Timeline(Tempo.FromMicrosPerBeat(w.microsPerBeat), w.beatOrigin, w.timeOrigin)
  }

  /** The receiver converts between beats and time as the sender does, although its tempo may
      differ, and goes on doing so after it has clamped the tempo. */
  lemma ReceivedTimelineConverts(tl: Timeline, x: int)
    requires Sendable(tl)
    ensures FromWire(ToWire(tl)).Valid() && FromWire(ToWire(tl)).M() == tl.M()
    ensures FromWire(ToWire(tl)).ToBeats(x) == tl.ToBeats(x) && FromWire(ToWire(tl)).FromBeats(x) == tl.FromBeats(x)
    ensures tl.InRange() ==>
              var r := ClampTempo(FromWire(ToWire(tl)));
              r.ToBeats(x) == tl.ToBeats(x) && r.FromBeats(x) == tl.FromBeats(x)
  {
    hide Scale;
    WireTempo(tl.M());
    if tl.InRange() {
      WireThenClamp(tl.tempo);
    }
  }
}
