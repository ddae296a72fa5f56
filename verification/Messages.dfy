/** The messages of the two protocols: discovery, which carries peer states, and link, which
    carries pings and pongs. */
module Messages {
  import opened ByteStreams
  import opened Payloads
  import opened PeerStates
  import opened Wrappers
  import M = Measurements

  const MAX_MESSAGE_SIZE := 512

  // ---------------------------------------------------------------- discovery

  const INVALID: Byte := 0
  const ALIVE: Byte := 1
  const RESPONSE: Byte := 2
  const BYE_BYE: Byte := 3

  /** `_asdp_v` and the version. */
  const ASDP: Bytes := [95, 97, 115, 100, 112, 95, 118, 1]

  type GroupId = n: nat | n < 0x1_0000

  datatype MessageHeader = MessageHeader(messageType: Byte, ttl: Byte, groupId: GroupId, ident: NodeId)

  const NO_HEADER := MessageHeader(INVALID, 0, 0, NO_ID)
  const MESSAGE_HEADER_SIZE := 12

  function PrintMessageHeader(h: MessageHeader): (bs: Bytes)
    ensures |bs| == MESSAGE_HEADER_SIZE
  {
    Limits();
    [h.messageType] + ([h.ttl] + (PrintUInt(2, h.groupId) + h.ident))
  }

  function ParseHeaderFields(bs: Bytes): Parsed<MessageHeader> {
    Limits();
    match ParseByte(bs)
    case Failed => Failed
    case Parsed(messageType, rest) =>
      match ParseByte(rest)
      case Failed => Failed
      case Parsed(ttl, rest) =>
        match ParseUInt(2, rest)
        case Failed => Failed
        case Parsed(groupId, rest) =>
          var ident := ParseId(rest);
          ParseArrayIs(8, rest);
          Parsed(MessageHeader(messageType, ttl, groupId, ident.value), ident.rest)
  }

  lemma ParsePrintedFields(h: MessageHeader, rest: Bytes)
    ensures ParseHeaderFields(PrintMessageHeader(h) + rest) == Parsed(h, rest)
  {
    hide Limit, PrintUInt, ParseUInt, ParseArray;
    Limits();
    var group := PrintUInt(2, h.groupId);
    assert PrintMessageHeader(h) + rest == [h.messageType] + ([h.ttl] + (group + (h.ident + rest)));
    ParsePrintedByte(h.messageType, [h.ttl] + (group + (h.ident + rest)));
    ParsePrintedByte(h.ttl, group + (h.ident + rest));
    ParsePrintedUInt(2, h.groupId, h.ident + rest);
    ParseArrayIs(8, h.ident + rest);
    PaddedPrefix(h.ident, rest);
  }

  lemma ParsePrintedByte(b: Byte, rest: Bytes)
    ensures ParseByte([b] + rest) == Parsed(b, rest)
  {
  }

  lemma PaddedPrefix(bs: Bytes, rest: Bytes)
    ensures Padded(|bs|, bs + rest) == bs && After(|bs|, bs + rest) == rest
  {
  }

  /** Any twelve bytes are a header. */
  lemma PrintParsedFields(bs: Bytes)
    requires |bs| >= MESSAGE_HEADER_SIZE
    ensures ParseHeaderFields(bs).Parsed?
    ensures PrintMessageHeader(ParseHeaderFields(bs).value) + ParseHeaderFields(bs).rest == bs
  {
    hide Limit, UIntOf, PrintUInt, ParseArray;
    Limits();
    var tail := bs[2..];
    assert bs == [bs[0]] + ([bs[1]] + tail);
    PrintParsedUInt(2, tail);
    var group := ParseUInt(2, tail);
    ParseArrayIs(8, group.rest);
    assert Padded(8, group.rest) + After(8, group.rest) == group.rest;
    assert bs[1..][1..] == tail;
  }

  function EncodeMessage(from: NodeId, ttl: Byte, messageType: Byte, payload: Payload): Option<Bytes>
    requires payload.Fits()
  {
    var header := MessageHeader(messageType, ttl, 0, from);
    if |ASDP| + MESSAGE_HEADER_SIZE + payload.Size() < MAX_MESSAGE_SIZE then
      Some(ASDP + (PrintMessageHeader(header) + payload.Print()))
    else None
  }

  function AliveMessage(from: NodeId, ttl: Byte, payload: Payload): Option<Bytes>
    requires payload.Fits()
  {
    EncodeMessage(from, ttl, ALIVE, payload)
  }

  function ResponseMessage(from: NodeId, ttl: Byte, payload: Payload): Option<Bytes>
    requires payload.Fits()
  {
    EncodeMessage(from, ttl, RESPONSE, payload)
  }

  function ByeByeMessage(from: NodeId): Option<Bytes> { EncodeMessage(from, 0, BYE_BYE, Payload.Empty) }

  predicate IsDiscovery(bs: Bytes) { |bs| >= |ASDP| + MESSAGE_HEADER_SIZE && bs[..|ASDP|] == ASDP }

  /** The header and the bytes after it, or no header and all the bytes. */
  function ParseMessageHeader(bs: Bytes): (MessageHeader, Bytes) {
    if IsDiscovery(bs) then
      PrintParsedFields(bs[|ASDP|..]);
      var fields := ParseHeaderFields(bs[|ASDP|..]);
      (fields.value, fields.rest)
    else (NO_HEADER, bs)
  }

  lemma ParsePrintedMessage(h: MessageHeader, rest: Bytes)
    ensures ParseMessageHeader(ASDP + (PrintMessageHeader(h) + rest)) == (h, rest)
  {
    hide PrintMessageHeader, ParseHeaderFields;
    var bs := ASDP + (PrintMessageHeader(h) + rest);
    assert bs[..|ASDP|] == ASDP && bs[|ASDP|..] == PrintMessageHeader(h) + rest;
    ParsePrintedFields(h, rest);
  }

  /** The parser takes bytes away exactly if they are the protocol and the header it reports. */
  lemma HeaderExactly(bs: Bytes, h: MessageHeader, rest: Bytes)
    ensures ParseMessageHeader(bs) == (h, rest) && rest != bs <==> bs == ASDP + (PrintMessageHeader(h) + rest)
  {
    hide PrintMessageHeader, ParseHeaderFields;
    if bs == ASDP + (PrintMessageHeader(h) + rest) {
      ParsePrintedMessage(h, rest);
      assert |rest| < |bs|;
    } else if IsDiscovery(bs) {
      PrintParsedFields(bs[|ASDP|..]);
      assert bs == ASDP + bs[|ASDP|..];
    }
  }

  /** A message that is encoded is shorter than the maximum, and its header and payload parse back. */
  lemma EncodedMessage(from: NodeId, ttl: Byte, messageType: Byte, payload: Payload)
    requires payload.Fits() && EncodeMessage(from, ttl, messageType, payload).Some?
    ensures |EncodeMessage(from, ttl, messageType, payload).value| < MAX_MESSAGE_SIZE
    ensures ParseMessageHeader(EncodeMessage(from, ttl, messageType, payload).value)
         == (MessageHeader(messageType, ttl, 0, from), payload.Print())
    ensures ParseRaws(ParseMessageHeader(EncodeMessage(from, ttl, messageType, payload).value).1)
         == Some(payload.Written())
  {
    hide PrintMessageHeader, ParseMessageHeader, ParseRaws, Payload.Size, Payload.Print, Payload.Written;
    WrittenSize(payload);
    ParsePrintedMessage(MessageHeader(messageType, ttl, 0, from), payload.Print());
    ParsePrintedPayload(payload);
  }

  /** Where everything stands in the bytes of a discovery message. */
  lemma MessageOnTheWire(from: NodeId, ttl: Byte, messageType: Byte, payload: Payload)
    requires payload.Fits() && EncodeMessage(from, ttl, messageType, payload).Some?
    ensures var bs := EncodeMessage(from, ttl, messageType, payload).value;
            && |bs| >= 20 && bs[..8] == [0x5f, 0x61, 0x73, 0x64, 0x70, 0x5f, 0x76, 1]
            && bs[8] == messageType && bs[9] == ttl && bs[10..12] == [0, 0] && bs[12..20] == from
            && bs[20..] == payload.Print()
  {
    hide Payload.Print, Payload.Size, Payload.Fits, PrintUInt;
    Limits();
    NoGroup();
    HeaderSlices(messageType, ttl, from, payload.Print());
  }

  lemma NoGroup()
    ensures Limit(2) == 0x1_0000 && PrintUInt(2, 0) == [0, 0]
  {
    Limits();
    assert PrintUInt(1, 0) == [0];
  }

  lemma HeaderSlices(messageType: Byte, ttl: Byte, from: NodeId, rest: Bytes)
    ensures var bs := ASDP + ([messageType] + ([ttl] + ([0, 0] + from)) + rest);
            && bs[..8] == ASDP && bs[8] == messageType && bs[9] == ttl
            && bs[10..12] == [0, 0] && bs[12..20] == from && bs[20..] == rest
  {
    var bs := ASDP + ([messageType] + ([ttl] + ([0, 0] + from)) + rest);
    assert bs[10..12] == [bs[10], bs[11]];
  }

  /** Every peer state fits into a message, and is recovered from it. */
  lemma PeerStateMessage(s: PeerState<WireTimeline>, ttl: Byte, messageType: Byte)
    ensures ToPayload(s).Fits()
    ensures var message := EncodeMessage(s.nodeState.nodeId, ttl, messageType, ToPayload(s));
            && message.Some?
            && var (header, payload) := ParseMessageHeader(message.value);
               && header == MessageHeader(messageType, ttl, 0, s.nodeState.nodeId)
               && Read(header.ident, payload) == Some(Received(s))
  {
    hide ParseMessageHeader, Read, ToPayload, PrintMessageHeader, ParseRaws;
    ToPayloadIs(s);
    PeerStateRoundTrip(s);
    EncodedMessage(s.nodeState.nodeId, ttl, messageType, ToPayload(s));
  }

  /** What a message says to the one who hears it. */
  datatype News = Nothing | State(state: PeerState<Option<WireTimeline>>, ttl: Byte) | ByeBye(ident: NodeId)

  /** The news of a message, and whether the hearer responds with its own state.  Messages of
      its own, of other groups and of unknown types are ignored, and so are states that fail to
      parse, though not without a response. */
  function Hear(self: NodeId, bs: Bytes): (News, bool) {
    var (header, payload) := ParseMessageHeader(bs);
    if header.ident == self || header.groupId != 0 then (Nothing, false)
    else if header.messageType == ALIVE then (HearState(header, payload), true)
    else if header.messageType == RESPONSE then (HearState(header, payload), false)
    else if header.messageType == BYE_BYE then (ByeBye(header.ident), false)
    else (Nothing, false)
  }

  function HearState(header: MessageHeader, payload: Bytes): News {
    match Read(header.ident, payload)
    case None => Nothing
    case Some(state) => State(state, header.ttl)
  }

  /** A peer's state is heard by every other peer, whether announced or sent in response, and only
      an announcement calls for a response; a departure is heard as one. */
  lemma PeersAreHeard(self: NodeId, s: PeerState<WireTimeline>, ttl: Byte)
    requires s.nodeState.nodeId != self
    ensures ToPayload(s).Fits()
    ensures var alive := AliveMessage(s.nodeState.nodeId, ttl, ToPayload(s));
            alive.Some? && Hear(self, alive.value) == (State(Received(s), ttl), true)
    ensures var response := ResponseMessage(s.nodeState.nodeId, ttl, ToPayload(s));
            response.Some? && Hear(self, response.value) == (State(Received(s), ttl), false)
    ensures var bye := ByeByeMessage(s.nodeState.nodeId);
            bye.Some? && Hear(self, bye.value) == (ByeBye(s.nodeState.nodeId), false)
  {
    hide ParseMessageHeader, Read, ToPayload, PrintMessageHeader, ParseRaws;
    PeerStateMessage(s, ttl, ALIVE);
    PeerStateMessage(s, ttl, RESPONSE);
    EncodedMessage(s.nodeState.nodeId, 0, BYE_BYE, Payload.Empty);
  }

  /** No peer hears itself. */
  lemma OwnMessagesAreIgnored(self: NodeId, ttl: Byte, messageType: Byte, payload: Payload)
    requires payload.Fits() && EncodeMessage(self, ttl, messageType, payload).Some?
    ensures Hear(self, EncodeMessage(self, ttl, messageType, payload).value) == (Nothing, false)
  {
    hide ParseMessageHeader, ParseRaws;
    EncodedMessage(self, ttl, messageType, payload);
  }

  /** Nor does it hear what is not a discovery message, of another group, or of an unknown type. */
  lemma StrangeMessagesAreIgnored(self: NodeId, bs: Bytes, h: MessageHeader, payload: Bytes)
    requires !IsDiscovery(bs)
             || (bs == ASDP + (PrintMessageHeader(h) + payload)
                 && (h.groupId != 0 || h.messageType !in {ALIVE, RESPONSE, BYE_BYE}))
    ensures Hear(self, bs) == (Nothing, false)
  {
    if IsDiscovery(bs) {
      hide ParseMessageHeader, PrintMessageHeader;
      ParsePrintedMessage(h, payload);
    }
  }

  // ---------------------------------------------------------------- link

  const PING: Byte := 1
  const PONG: Byte := 2

  /** `_link_v` and the version. */
  const LINK: Bytes := [95, 108, 105, 110, 107, 95, 118, 1]

  function EncodeLinkMessage(messageType: Byte, payload: Payload): Option<Bytes>
    requires payload.Fits()
  {
    if |LINK| + 1 + payload.Size() < MAX_MESSAGE_SIZE then Some(LINK + ([messageType] + payload.Print()))
    else None
  }

  function ParseLinkHeader(bs: Bytes): (Byte, Bytes) {
    if |bs| >= |LINK| + 1 && bs[..|LINK|] == LINK then (bs[|LINK|], bs[|LINK| + 1..])
    else (0, bs)
  }

  lemma ParsePrintedLink(messageType: Byte, rest: Bytes)
    ensures ParseLinkHeader(LINK + ([messageType] + rest)) == (messageType, rest)
  {
    var bs := LINK + ([messageType] + rest);
    assert bs[..|LINK|] == LINK && bs[|LINK|] == messageType && bs[|LINK| + 1..] == rest;
  }

  /** And in those of a link message. */
  lemma LinkOnTheWire(messageType: Byte, payload: Payload)
    requires payload.Fits() && EncodeLinkMessage(messageType, payload).Some?
    ensures var bs := EncodeLinkMessage(messageType, payload).value;
            && |bs| >= 9 && bs[..8] == [0x5f, 0x6c, 0x69, 0x6e, 0x6b, 0x5f, 0x76, 1]
            && bs[8] == messageType && bs[9..] == payload.Print()
  {
    hide Payload.Print, Payload.Size, Payload.Fits;
    assert EncodeLinkMessage(messageType, payload).value[..8] == LINK;
  }

  const HOST_TIME: Key := 0x5f5f6874
  const GHOST_TIME: Key := 0x5f5f6774
  const PREV_GHOST_TIME: Key := 0x5f706774

  function TimeEntry(key: Key, time: Int64): Entry { Entry(key, PrintInt64(time)) }

  /** The first ping, and one that is sent on a timeout, has no ghost time. */
  function PingPayload(hostTime: Int64, prevGhostTime: Option<Int64>): Payload {
    match prevGhostTime
    case None => Single(TimeEntry(HOST_TIME, hostTime))
    case Some(ghostTime) => Cons(TimeEntry(HOST_TIME, hostTime), Single(TimeEntry(PREV_GHOST_TIME, ghostTime)))
  }

  function PongPayload(session: NodeId, ghostTime: Int64): Payload {
    Cons(Entry(SESS, session), Single(TimeEntry(GHOST_TIME, ghostTime)))
  }

  const MAX_PING_PAYLOAD := 32

  lemma PongFits(session: NodeId, ghostTime: Int64)
    ensures PongPayload(session, ghostTime).Fits() && PongPayload(session, ghostTime).Size() == 32
    ensures PongPayload(session, ghostTime).Written()
         == [Entry(SESS, session)] + ([TimeEntry(GHOST_TIME, ghostTime)] + [])
  {
    hide PrintInt64, Payload.Fits, Payload.Size, Payload.Written, Single;
    SingleIs(TimeEntry(GHOST_TIME, ghostTime));
    ConsIs(Entry(SESS, session), Single(TimeEntry(GHOST_TIME, ghostTime)));
  }

  lemma PingFits(hostTime: Int64, prevGhostTime: Option<Int64>)
    ensures PingPayload(hostTime, prevGhostTime).Fits()
        && PingPayload(hostTime, prevGhostTime).Size() <= MAX_PING_PAYLOAD
    ensures PingPayload(hostTime, prevGhostTime).Written()
         == [TimeEntry(HOST_TIME, hostTime)]
            + if prevGhostTime.None? then [] else [TimeEntry(PREV_GHOST_TIME, prevGhostTime.value)] + []
  {
    hide PrintInt64, Payload.Fits, Payload.Size, Payload.Written, Single;
    SingleIs(TimeEntry(HOST_TIME, hostTime));
    if prevGhostTime.Some? {
      SingleIs(TimeEntry(PREV_GHOST_TIME, prevGhostTime.value));
      ConsIs(TimeEntry(HOST_TIME, hostTime), Single(TimeEntry(PREV_GHOST_TIME, prevGhostTime.value)));
    }
  }

  /** The responder's answer to the bytes of a message: the pong payload, with the ping's
      payload after it as it came. */
  function Reply(session: NodeId, ghostTime: Int64, message: Bytes): Option<Bytes> {
    var (messageType, payload) := ParseLinkHeader(message);
    PongFits(session, ghostTime);
    if messageType == PING && |payload| <= MAX_PING_PAYLOAD then
      match EncodeLinkMessage(PONG, PongPayload(session, ghostTime))
      case None => None
      case Some(pong) => Some(pong + payload)
    else None
  }

  /** Whatever message it answers, the answer is a pong that fits, and no pong is answered. */
  lemma AnswersFit(session: NodeId, ghostTime: Int64, message: Bytes)
    ensures var reply := Reply(session, ghostTime, message);
            && (reply.Some? ==> |reply.value| <= 73 < MAX_MESSAGE_SIZE
                                && Reply(session, ghostTime, reply.value) == None)
  {
    hide PongPayload, Payload.Size, Payload.Print, Payload.Fits, Payload.Written;
    var pong := PongPayload(session, ghostTime);
    PongFits(session, ghostTime);
    WrittenSize(pong);
    var (messageType, payload) := ParseLinkHeader(message);
    if Reply(session, ghostTime, message).Some? {
      assert (LINK + ([PONG] + pong.Print())) + payload == LINK + ([PONG] + (pong.Print() + payload));
      ParsePrintedLink(PONG, pong.Print() + payload);
    }
  }

  /** Where the entries of a ping and of a pong stand. */
  lemma PingOnTheWire(hostTime: Int64, prevGhostTime: Int64)
    ensures var ping := PingPayload(hostTime, Some(prevGhostTime));
            && ping.Fits() && StandsAt(ping.Print(), 0, 0x5f5f6874, PrintInt64(hostTime))
            && StandsAt(ping.Print(), 16, 0x5f706774, PrintInt64(prevGhostTime))
  {
    TwoOnTheWire(TimeEntry(HOST_TIME, hostTime), TimeEntry(PREV_GHOST_TIME, prevGhostTime));
  }

  lemma PongOnTheWire(session: NodeId, ghostTime: Int64)
    ensures var pong := PongPayload(session, ghostTime);
            && pong.Fits() && StandsAt(pong.Print(), 0, 0x73657373, session)
            && StandsAt(pong.Print(), 16, 0x5f5f6774, PrintInt64(ghostTime))
  {
    TwoOnTheWire(Entry(SESS, session), TimeEntry(GHOST_TIME, ghostTime));
  }

  lemma TwoOnTheWire(e1: Entry, e2: Entry)
    requires |e1.value| == 8 == |e2.value|
    ensures var p := Payload.Cons(e1, Single(e2));
            p.Fits() && StandsAt(p.Print(), 0, e1.key, e1.value) && StandsAt(p.Print(), 16, e2.key, e2.value)
  {
    hide StandsAt, PrintRaw;
    var r1, r2 := PrintRaw(e1), PrintRaw(e2);
    SingleIs(e2);
    ConsIs(e1, Single(e2));
    assert Payload.Empty.Fits() && Payload.Empty.Print() == [];
    assert Single(e2).Print() == r2 + [];
    assert Payload.Cons(e1, Single(e2)).Print() == r1 + (r2 + []);
    assert r1 + (r2 + []) == [] + (r1 + (r2 + []));
    RawStandsAt([], e1, r2 + []);
    RawStandsAt(r1, e2, []);
  }

  /** What the measurement takes from a pong; a session id is the number its bytes spell. */
  function PongHandlers(pong: M.Pong, e: Entry): Option<M.Pong> {
    if e.key == SESS then
      match Exactly(ParseId(e.value)) case None => None case Some(ident) => Some(pong.(session := UIntOf(ident)))
    else if e.key == GHOST_TIME then
      match Exactly(ParseInt64(e.value)) case None => None case Some(time) => Some(pong.(ghostTime := time))
    else if e.key == PREV_GHOST_TIME then
      match Exactly(ParseInt64(e.value))
      case None => None
      case Some(time) => Some(pong.(ping := pong.ping.(prevGhostTime := time)))
    else if e.key == HOST_TIME then
      match Exactly(ParseInt64(e.value))
      case None => None
      case Some(time) => Some(pong.(ping := pong.ping.(hostTime := time)))
    else Some(pong)
  }

  const NO_PONG := M.Pong(0, 0, M.Ping(0, 0))

  function ReadPong(payload: Bytes): Option<M.Pong> { ParsePayload(PongHandlers, NO_PONG, payload) }

  /** What a ping says, for the measurement. */
  function PingOf(hostTime: Int64, prevGhostTime: Option<Int64>): M.Ping {
    M.Ping(hostTime, if prevGhostTime.None? then 0 else prevGhostTime.value)
  }

  lemma ReadTime(time: Int64)
    ensures Exactly(ParseInt64(PrintInt64(time))) == Some(time)
  {
    hide PrintInt64, ParseInt64;
    ParsePrintedInt64(time, []);
    assert PrintInt64(time) + [] == PrintInt64(time);
  }

  function IfThere(e: Option<Entry>): seq<Entry> { if e.None? then [] else [e.value] }

  lemma HandleIfThere<S>(handlers: Handlers<S>, s: S, e: Option<Entry>, es: seq<Entry>)
    ensures Handle(handlers, s, IfThere(e) + es)
         == if e.None? then Handle(handlers, s, es)
            else match handlers(s, e.value) case None => None case Some(s') => Handle(handlers, s', es)
  {
    if e.None? {
      assert IfThere(e) + es == es;
    } else {
      HandleCons(handlers, s, e.value, es);
    }
  }

  function TimeIfThere(key: Key, time: Option<Int64>): Option<Entry> {
    if time.None? then None else Some(TimeEntry(key, time.value))
  }

  function OrZero(time: Option<Int64>): int { if time.None? then 0 else time.value }

  /** Whichever of the four entries there are, each is read, and zero stands for a missing one. */
  lemma HandlePong(session: Option<NodeId>, ghostTime: Option<Int64>, hostTime: Option<Int64>,
                   prevGhostTime: Option<Int64>)
    ensures Handle(PongHandlers, NO_PONG,
                   IfThere(if session.None? then None else Some(Entry(SESS, session.value)))
                   + (IfThere(TimeIfThere(GHOST_TIME, ghostTime))
                      + (IfThere(TimeIfThere(HOST_TIME, hostTime))
                         + (IfThere(TimeIfThere(PREV_GHOST_TIME, prevGhostTime)) + []))))
         == Some(M.Pong(if session.None? then 0 else UIntOf(session.value), OrZero(ghostTime),
                        M.Ping(OrZero(hostTime), OrZero(prevGhostTime))))
  {
    hide PrintInt64, ParseInt64, ParseId, UIntOf, IfThere, Handle;
    var e1 := if session.None? then None else Some(Entry(SESS, session.value));
    var e2, e3 := TimeIfThere(GHOST_TIME, ghostTime), TimeIfThere(HOST_TIME, hostTime);
    var e4 := TimeIfThere(PREV_GHOST_TIME, prevGhostTime);
    var p1 := NO_PONG.(session := if session.None? then 0 else UIntOf(session.value));
    var p2 := p1.(ghostTime := OrZero(ghostTime));
    var p3 := p2.(ping := M.Ping(OrZero(hostTime), 0));
    var p4 := p3.(ping := M.Ping(OrZero(hostTime), OrZero(prevGhostTime)));
    if session.Some? { SessionIdIsPadded(session.value); }
    if ghostTime.Some? { ReadTime(ghostTime.value); }
    if hostTime.Some? { ReadTime(hostTime.value); }
    if prevGhostTime.Some? { ReadTime(prevGhostTime.value); }
    HandleIfThere(PongHandlers, NO_PONG, e1, IfThere(e2) + (IfThere(e3) + (IfThere(e4) + [])));
    HandleIfThere(PongHandlers, p1, e2, IfThere(e3) + (IfThere(e4) + []));
    HandleIfThere(PongHandlers, p2, e3, IfThere(e4) + []);
    HandleIfThere(PongHandlers, p3, e4, []);
    HandleNone(PongHandlers, p4);
  }

  lemma HandleNone<S>(handlers: Handlers<S>, s: S)
    ensures Handle(handlers, s, []) == Some(s)
  {
  }

  lemma JoinedWritten(e1: Entry, e2: Entry, e3: Entry, e4: Option<Entry>)
    ensures ([e1] + ([e2] + [])) + ([e3] + if e4.None? then [] else [e4.value] + [])
         == IfThere(Some(e1)) + (IfThere(Some(e2)) + (IfThere(Some(e3)) + (IfThere(e4) + [])))
  {
  }

  /** Every ping is answered, and the answer says what the responder's state and the ping said:
      from the bytes the measurement reads exactly the pong of the exchange. */
  lemma PingIsAnswered(session: NodeId, ghostTime: Int64, hostTime: Int64, prevGhostTime: Option<Int64>)
    ensures PingPayload(hostTime, prevGhostTime).Fits()
    ensures var ping := EncodeLinkMessage(PING, PingPayload(hostTime, prevGhostTime));
            && ping.Some?
            && var pong := Reply(session, ghostTime, ping.value);
               && pong.Some? && |pong.value| < MAX_MESSAGE_SIZE
               && var (messageType, payload) := ParseLinkHeader(pong.value);
                  && messageType == PONG
                  && ReadPong(payload) == Some(M.Pong(UIntOf(session), ghostTime, PingOf(hostTime, prevGhostTime)))
  {
    hide ParseLinkHeader, PingPayload, PongPayload, TimeEntry, ParseRaws, Handle, Payload.Print, Payload.Written,
      Payload.Size, Payload.Fits, UIntOf, IfThere;
    var ping, pong := PingPayload(hostTime, prevGhostTime), PongPayload(session, ghostTime);
    PingFits(hostTime, prevGhostTime);
    PongFits(session, ghostTime);
    WrittenSize(ping);
    WrittenSize(pong);
    ParsePrintedLink(PING, ping.Print());
    var payload := pong.Print() + ping.Print();
    assert LINK + ([PONG] + pong.Print()) + ping.Print() == LINK + ([PONG] + payload);
    ParsePrintedLink(PONG, payload);
    ParsePrintedPayload(ping);
    ParsePrintedPayload(pong);
    ParseBoth(pong.Print(), ping.Print());
    JoinedWritten(Entry(SESS, session), TimeEntry(GHOST_TIME, ghostTime), TimeEntry(HOST_TIME, hostTime),
                  TimeIfThere(PREV_GHOST_TIME, prevGhostTime));
    HandlePong(Some(session), Some(ghostTime), Some(hostTime), prevGhostTime);
  }
}
