/** What the forwarder does with a client's query, over UDP and on a TCP session. */
module Handlers {
  import opened Bytes
  import opened Names
  import opened Wire
  import opened Codec
  import opened Rewrite
  import Rules
  import Blocklist
  import opened Pool

  /** What the upstream answers to each request of a session, by its place in the session. */
  type Resolver = (nat, seq<byte>) -> Result<seq<byte>, IoError>

  /** Why a handler gives up without a reply. */
  datatype Failure = BadPacket(wire: WireError) | UpstreamFailed(io: IoError)

  // ----- the filter

  predicate IsBlocked(engine: Rules.Engine, index: Blocklist.Index, name: Name) {
    Blocklist.Looked(engine, index, Rules.Lower(name)).BlockedBy?
  }

  /** The query's first question is blocked. */
  predicate Blocks(engine: Rules.Engine, index: Blocklist.Index, m: Message) {
    m.questions != [] && IsBlocked(engine, index, m.questions[0].name)
  }

  /** An answer of the reply is an alias of a blocked name. A reply that does not parse hides nothing. */
  predicate Cloaks(engine: Rules.Engine, index: Blocklist.Index, resp: seq<byte>) {
    var r := MessageAt(resp);
    r.Ok? && exists rr <- r.value.answers ::
      rr.rtype == CNAME && rr.cnameTarget.Some? && IsBlocked(engine, index, rr.cnameTarget.value)
  }

  /** Whether the client gets the upstream's reply, once there is one. */
  predicate Relays(engine: Rules.Engine, index: Blocklist.Index, m: Message, resp: seq<byte>) {
    !Blocks(engine, index, m) && (m.questions != [] ==> !Cloaks(engine, index, resp))
  }

  method FindsCloaked(engine: Rules.Engine, bl: Blocklist.BlockList, resp: seq<byte>) returns (found: bool)
    ensures found == Cloaks(engine, bl.Value(), resp)
  {
    hide MessageAt, IsBlocked;
    var parsed := ParseMessage(resp);
    if parsed.Err? {
      return false;
    }
    var answers := parsed.value.answers;
    for i := 0 to |answers|
      invariant forall j :: 0 <= j < i ==>
        !(answers[j].rtype == CNAME && answers[j].cnameTarget.Some?
          && IsBlocked(engine, bl.Value(), answers[j].cnameTarget.value))
    {
      if answers[i].rtype != CNAME {
        continue;
      }
      if answers[i].cnameTarget.None? {
        continue;
      }
      var o := bl.Check(engine, answers[i].cnameTarget.value);
      IsBlockedIs(engine, bl.Value(), answers[i].cnameTarget.value);
      if o.BlockedBy? {
        assert answers[i] in answers;
        return true;
      }
    }
    return false;
  }

  lemma IsBlockedIs(engine: Rules.Engine, index: Blocklist.Index, name: Name)
    ensures IsBlocked(engine, index, name) == Blocklist.Looked(engine, index, Rules.Lower(name)).BlockedBy?
  {
    hide Blocklist.Looked, Rules.Lower;
  }

  // ----- UDP

  /** The payload size of the client's first OPT record if it is between 1 and 4096, else 512. */
  function ClientUdpSize(additionals: seq<Record>): nat {
    if additionals == [] then 512
    else if additionals[0].rtype == OPT then
      if 0 < additionals[0].rclass <= 4096 then additionals[0].rclass else 512
    else ClientUdpSize(additionals[1..])
  }

  method FindClientUdpSize(additionals: seq<Record>) returns (size: nat)
    ensures size == ClientUdpSize(additionals)
  {
    size := 512;
    for i := 0 to |additionals|
      invariant size == 512 && ClientUdpSize(additionals) == ClientUdpSize(additionals[i..])
    {
      assert additionals[i..][1..] == additionals[i + 1..];
      if additionals[i].rtype == OPT {
        var s := additionals[i].rclass;
        if s > 0 && s <= 4096 {
          size := s;
        }
        break;
      }
    }
  }

  /**
   The reply relayed over UDP: the upstream's own octets, or their truncated form when the client cannot take them.
   */
  function ForClient(m: Message, resp: seq<byte>): Result<seq<byte>, Failure> {
    if |resp| <= ClientUdpSize(m.additionals) then Ok(resp)
    else
      match MessageAt(resp)
      case Ok(r) => Ok(MessageBytes(Truncated(r)))
      case Err(e) => Err(BadPacket(e))
  }

  /** The upstream's last word: its UDP reply, or its TCP reply when the former is truncated. */
  function LastWord(udp: Result<seq<byte>, IoError>, tcp: Result<seq<byte>, IoError>): Result<seq<byte>, IoError> {
    if udp.Ok? && TcBitSet(udp.value) then tcp else udp
  }

  /** What the client of a UDP query receives. */
  function UdpAnswer(engine: Rules.Engine, index: Blocklist.Index, packet: seq<byte>,
                     udp: Result<seq<byte>, IoError>, tcp: Result<seq<byte>, IoError>): Result<seq<byte>, Failure>
  {
    match MessageAt(packet)
    case Err(e) => Err(BadPacket(e))
    case Ok(m) =>
      if Blocks(engine, index, m) then Ok(MessageBytes(NxdomainFor(m)))
      else
        match LastWord(udp, tcp)
        case Err(e) => Err(UpstreamFailed(e))
        case Ok(resp) =>
          if Relays(engine, index, m, resp) then ForClient(m, resp) else Ok(MessageBytes(NxdomainFor(m)))
  }

  /** What the upstream is asked, if anything: neither packets that do not parse nor refused queries reach it. */
  function Asked(engine: Rules.Engine, index: Blocklist.Index, packet: seq<byte>): Option<seq<byte>> {
    match MessageAt(packet)
    case Err(_) => None
    case Ok(m) => if Blocks(engine, index, m) then None else Some(MessageBytes(ForUpstream(m)))
  }

  method HandleUdpQuery(engine: Rules.Engine, bl: Blocklist.BlockList, packet: seq<byte>,
                        udp: Result<seq<byte>, IoError>, tcp: Result<seq<byte>, IoError>)
    returns (r: Result<seq<byte>, Failure>, ghost asked: Option<seq<byte>>)
    ensures r == UdpAnswer(engine, bl.Value(), packet, udp, tcp)
    ensures asked == Asked(engine, bl.Value(), packet)
  {
    hide MessageAt, MessageBytes, Cloaks, IsBlocked, TcBitSet;
    asked := None;
    var parsed := ParseMessage(packet);
    if parsed.Err? {
      return Err(BadPacket(parsed.error)), asked;
    }
    var msg := parsed.value;
    if msg.questions != [] {
      var outcome := bl.Check(engine, msg.questions[0].name);
      IsBlockedIs(engine, bl.Value(), msg.questions[0].name);
      if outcome.BlockedBy? {
        var nx := BuildNxdomain(msg);
        return Ok(nx), asked;
      }
    }
    var clientUdpSize := FindClientUdpSize(msg.additionals);
    var packetToSend := UpstreamQuery(msg);
    asked := Some(packetToSend);
    if udp.Err? {
      return Err(UpstreamFailed(udp.error)), asked;
    }
    var resp := udp.value;
    if TcBitSet(resp) {
      if tcp.Err? {
        return Err(UpstreamFailed(tcp.error)), asked;
      }
      resp := tcp.value;
    }
    if msg.questions != [] {
      var cloaked := FindsCloaked(engine, bl, resp);
      if cloaked {
        var nx := BuildNxdomain(msg);
        return Ok(nx), asked;
      }
    }
    if |resp| > clientUdpSize {
      var t := TruncateResponse(resp);
      if t.Err? {
        return Err(BadPacket(t.error)), asked;
      }
      resp := t.value;
    }
    return Ok(resp), asked;
  }

  // ----- a TCP session

  /** What one query of a TCP session is answered with. */
  function TcpAnswer(engine: Rules.Engine, index: Blocklist.Index, packet: seq<byte>, tcp: Result<seq<byte>, IoError>)
    : Result<seq<byte>, Failure>
  {
    match MessageAt(packet)
    case Err(e) => Err(BadPacket(e))
    case Ok(m) =>
      if Blocks(engine, index, m) then Ok(MessageBytes(NxdomainFor(m)))
      else
        match tcp
        case Err(e) => Err(UpstreamFailed(e))
        case Ok(resp) => Ok(if Relays(engine, index, m, resp) then resp else MessageBytes(NxdomainFor(m)))
  }

  /**
   With the same filter, query and final upstream reply, both transports refuse or both relay, also when the UDP
   client's reply is the TCP one fetched after a truncated UDP reply.
   */
  lemma SameVerdict(engine: Rules.Engine, index: Blocklist.Index, packet: seq<byte>,
                    udp: Result<seq<byte>, IoError>, tcp: Result<seq<byte>, IoError>, resp: seq<byte>)
    requires MessageAt(packet).Ok? && LastWord(udp, tcp) == Ok(resp)
    ensures var m := MessageAt(packet).value;
            var overUdp := UdpAnswer(engine, index, packet, udp, tcp);
            var overTcp := TcpAnswer(engine, index, packet, Ok(resp));
            && (Relays(engine, index, m, resp) ==> overTcp == Ok(resp) && overUdp == ForClient(m, resp))
            && (!Relays(engine, index, m, resp) ==> overTcp == Ok(MessageBytes(NxdomainFor(m))) && overUdp == overTcp)
  {
    hide MessageAt, MessageBytes, Cloaks, IsBlocked, TcBitSet, ForClient, LastWord;
  }

  /**
   Every reply to a UDP client bears the client's own id, as long as the upstream's replies bear the id they were
   asked with.
   */
  lemma ReplyBearsId(engine: Rules.Engine, index: Blocklist.Index, packet: seq<byte>,
                     udp: Result<seq<byte>, IoError>, tcp: Result<seq<byte>, IoError>)
    requires MessageAt(packet).Ok? && UdpAnswer(engine, index, packet, udp, tcp).Ok?
    requires var asked := MessageBytes(ForUpstream(MessageAt(packet).value));
             && (udp.Ok? ==> |udp.value| >= 2 && WireId(udp.value) == WireId(asked))
             && (tcp.Ok? ==> |tcp.value| >= 2 && WireId(tcp.value) == WireId(asked))
    ensures var reply := UdpAnswer(engine, index, packet, udp, tcp).value;
            |reply| >= 2 && U16At(reply, 0) == U16At(packet, 0)
  {
    hide MessageAt, MessageBytes, Cloaks, IsBlocked, TcBitSet, U16At, Blocks;
    var m := MessageAt(packet).value;
    ParsedId(packet);
    WireHeader(NxdomainFor(m));
    WireHeader(ForUpstream(m));
    var last := LastWord(udp, tcp);
    if last.Ok? && MessageAt(last.value).Ok? {
      ParsedId(last.value);
      WireHeader(Truncated(MessageAt(last.value).value));
    }
  }

  /** A relayed reply never overruns the client unannounced: it fits the size the client gave, or it has TC set. */
  lemma RelayedFitsOrIsMarked(m: Message, resp: seq<byte>)
    ensures ForClient(m, resp).Ok? ==>
              |ForClient(m, resp).value| <= ClientUdpSize(m.additionals) || TcBitSet(ForClient(m, resp).value)
  {
    hide MessageAt, MessageBytes;
    if MessageAt(resp).Ok? {
      var t := Truncated(MessageAt(resp).value);
      WireHeader(t);
      assert TcBit(t.header.flags);
    }
  }

  /**
   When a UDP client gets an answer at all: its query parses, and it is refused outright, or the upstream has a last
   word that is refused, or fits the client, or parses and so can be cut.
   */
  lemma UdpAnswered(engine: Rules.Engine, index: Blocklist.Index, packet: seq<byte>,
                    udp: Result<seq<byte>, IoError>, tcp: Result<seq<byte>, IoError>)
    ensures UdpAnswer(engine, index, packet, udp, tcp).Ok? <==>
            && MessageAt(packet).Ok?
            && var m := MessageAt(packet).value;
               || Blocks(engine, index, m)
               || (LastWord(udp, tcp).Ok?
                   && var resp := LastWord(udp, tcp).value;
                      || !Relays(engine, index, m, resp)
                      || |resp| <= ClientUdpSize(m.additionals)
                      || MessageAt(resp).Ok?)
  {
    hide MessageAt, MessageBytes, Cloaks, IsBlocked, LastWord, ClientUdpSize, Truncated;
  }

  /** A refusal is never cut: it fits the client exactly if the query's questions, printed in full, do. */
  lemma RefusalFits(engine: Rules.Engine, index: Blocklist.Index, packet: seq<byte>,
                    udp: Result<seq<byte>, IoError>, tcp: Result<seq<byte>, IoError>)
    requires MessageAt(packet).Ok?
    requires var m, last := MessageAt(packet).value, LastWord(udp, tcp);
             Blocks(engine, index, m) || (last.Ok? && !Relays(engine, index, m, last.value))
    ensures var m := MessageAt(packet).value;
            var reply := UdpAnswer(engine, index, packet, udp, tcp);
            && reply == Ok(MessageBytes(NxdomainFor(m)))
            && (|reply.value| <= ClientUdpSize(m.additionals) <==>
                12 + |QuestionsBytes(m.questions)| <= ClientUdpSize(m.additionals))
  {
    hide MessageAt, MessageBytes, Cloaks, IsBlocked, QuestionsBytes, ClientUdpSize, LastWord;
    NxdomainBytes(MessageAt(packet).value);
  }

  // ----- framing (section 4.2.2 of RFC 1035)

  function Frame(msg: seq<byte>): (f: seq<byte>)
    ensures |f| == 2 + |msg|
  {
    U16Bytes(|msg| % 0x1_0000) + msg
  }

  function Frames(msgs: seq<seq<byte>>): seq<byte> {
    if msgs == [] then [] else Frame(msgs[0]) + Frames(msgs[1..])
  }

  /** The messages a reader takes off a stream, None when the stream ends inside one. */
  function Unframed(stream: seq<byte>): Option<seq<seq<byte>>>
    decreases |stream|
  {
    if stream == [] then Some([])
    else if |stream| < 2 || 2 + U16At(stream, 0) as int > |stream| then None
    else
      var len := U16At(stream, 0) as int;
      match Unframed(stream[2 + len..])
      case None => None
      case Some(rest) => Some([stream[2..2 + len]] + rest)
  }

  lemma FrameHead(msg: seq<byte>, rest: seq<byte>)
    requires |msg| < 0x1_0000
    ensures var stream := Frame(msg) + rest;
            U16At(stream, 0) == |msg| && stream[2..2 + |msg|] == msg && stream[2 + |msg|..] == rest
  {
    var stream := Frame(msg) + rest;
    assert At(stream, 0, U16Bytes(|msg| % 0x1_0000));
    AtU16(stream, 0, |msg|);
  }

  lemma NothingFramed()
    ensures Unframed([]) == Some([])
  {
  }

  lemma UnframedStep(stream: seq<byte>)
    requires |stream| >= 2 && 2 + U16At(stream, 0) as int <= |stream|
    requires Unframed(stream[2 + U16At(stream, 0) as int..]).Some?
    ensures var len := U16At(stream, 0) as int;
            Unframed(stream) == Some([stream[2..2 + len]] + Unframed(stream[2 + len..]).value)
  {
    hide U16At;
  }

  lemma {:induction false} FramesReadBack(msgs: seq<seq<byte>>)
    requires forall m <- msgs :: |m| < 0x1_0000
    ensures Unframed(Frames(msgs)) == Some(msgs)
  {
    hide Frame, U16At, Unframed;
    if msgs == [] {
      NothingFramed();
    } else {
      var rest := Frames(msgs[1..]);
      FrameHead(msgs[0], rest);
      FramesReadBack(msgs[1..]);
      UnframedStep(Frame(msgs[0]) + rest);
      assert msgs == [msgs[0]] + msgs[1..];
    }
  }

  lemma FirstIsShort(stream: seq<byte>)
    requires stream != []
    ensures Unframed(stream).Some? ==> Unframed(stream).value != [] && |Unframed(stream).value[0]| < 0x1_0000
  {
    hide U16At;
  }

  /** A frame is the length, most significant octet first, and the message. */
  lemma FrameStarts(msg: seq<byte>)
    ensures var f := Frame(msg);
            && f[2..] == msg
            && (|msg| < 0x1_0000 ==> f[0] as int * 0x100 + f[1] as int == |msg|)
  {
  }

  /** Framing carries a message exactly when its length fits the two-octet prefix. */
  lemma FramingIsFaithful(msg: seq<byte>)
    ensures Unframed(Frame(msg)) == Some([msg]) <==> |msg| < 0x1_0000
  {
    hide Frame, U16At;
    assert Frame(msg) + [] == Frame(msg);
    if |msg| < 0x1_0000 {
      FramesReadBack([msg]);
      assert Frames([msg]) == Frame(msg) + Frames([msg][1..]);
    } else {
      FirstIsShort(Frame(msg));
    }
  }

  // ----- the session loop

  /** How a session ends: the client closed or fell silent between queries, or something failed. */
  datatype SessionEnd = Closed | Aborted(f: Failure) | CutShort

  /** Octets written to the client, and the end, from the `n`th query on. */
  function Session(engine: Rules.Engine, index: Blocklist.Index, upstream: Resolver,
                   input: seq<byte>, n: nat): (seq<byte>, SessionEnd)
    decreases |input|
  {
    if |input| < 2 then ([], Closed)
    else
      var len := U16At(input, 0) as int;
      if 2 + len > |input| then ([], CutShort)
      else
        match Answered(engine, index, upstream, n, input[2..2 + len])
        case Err(f) => ([], Aborted(f))
        case Ok(reply) =>
          var (out, end) := Session(engine, index, upstream, input[2 + len..], n + 1);
          (Frame(reply) + out, end)
  }

  /** The answer to the session's `n`th query; the upstream is asked the rewritten query. */
  function Answered(engine: Rules.Engine, index: Blocklist.Index, upstream: Resolver,
                    n: nat, packet: seq<byte>): Result<seq<byte>, Failure>
  {
    var m := MessageAt(packet);
    TcpAnswer(engine, index, packet,
              if m.Ok? then upstream(n, MessageBytes(ForUpstream(m.value))) else Err(ReceiveFailed))
  }

  method AnswerTcpQuery(engine: Rules.Engine, bl: Blocklist.BlockList,
                        upstream: Resolver, n: nat, packet: seq<byte>)
    returns (r: Result<seq<byte>, Failure>, ghost asked: Option<seq<byte>>)
    ensures r == Answered(engine, bl.Value(), upstream, n, packet)
    ensures asked == Asked(engine, bl.Value(), packet)
  {
    hide MessageAt, MessageBytes, Cloaks, IsBlocked;
    asked := None;
    var parsed := ParseMessage(packet);
    if parsed.Err? {
      return Err(BadPacket(parsed.error)), asked;
    }
    var msg := parsed.value;
    if msg.questions != [] {
      var outcome := bl.Check(engine, msg.questions[0].name);
      IsBlockedIs(engine, bl.Value(), msg.questions[0].name);
      if outcome.BlockedBy? {
        var nx := BuildNxdomain(msg);
        return Ok(nx), asked;
      }
    }
    var packetToSend := UpstreamQuery(msg);
    asked := Some(packetToSend);
    var answer := upstream(n, packetToSend);
    if answer.Err? {
      return Err(UpstreamFailed(answer.error)), asked;
    }
    var resp := answer.value;
    if msg.questions != [] {
      var cloaked := FindsCloaked(engine, bl, resp);
      if cloaked {
        var nx := BuildNxdomain(msg);
        return Ok(nx), asked;
      }
    }
    return Ok(resp), asked;
  }

  /** What is already written, followed by the rest of a session. */
  ghost function Written(out: seq<byte>, session: (seq<byte>, SessionEnd)): (seq<byte>, SessionEnd) {
    (out + session.0, session.1)
  }

  lemma WrittenTwice(out: seq<byte>, more: seq<byte>, session: (seq<byte>, SessionEnd))
    ensures Written(out, Written(more, session)) == Written(out + more, session)
    ensures Written([], session) == session
  {
    assert out + (more + session.0) == out + more + session.0;
    assert [] + session.0 == session.0;
  }

  lemma WrittenAll(out: seq<byte>, end: SessionEnd)
    ensures Written(out, ([], end)) == (out, end)
  {
    assert out + [] == out;
  }

  /** One turn of the session's loop. */
  lemma SessionStep(engine: Rules.Engine, index: Blocklist.Index, upstream: Resolver, input: seq<byte>, n: nat)
    ensures var session := Session(engine, index, upstream, input, n);
            if |input| < 2 then session == ([], Closed)
            else if |input| < 2 + U16At(input, 0) as int then session == ([], CutShort)
            else
              var len := U16At(input, 0) as int;
              match Answered(engine, index, upstream, n, input[2..2 + len])
              case Err(f) => session == ([], Aborted(f))
              case Ok(reply) =>
                session == Written(Frame(reply), Session(engine, index, upstream, input[2 + len..], n + 1))
  {
    hide Answered, Frame, U16At;
  }

  method HandleTcpSession(engine: Rules.Engine, bl: Blocklist.BlockList, upstream: Resolver, input: seq<byte>)
    returns (out: seq<byte>, end: SessionEnd)
    ensures (out, end) == Session(engine, bl.Value(), upstream, input, 0)
  {
    hide Answered, Asked, Frame, U16At, Session, Written;
    out := [];
    var rest, n := input, 0;
    WrittenTwice([], [], Session(engine, bl.Value(), upstream, input, 0));
    while true
      invariant Written(out, Session(engine, bl.Value(), upstream, rest, n))
             == Session(engine, bl.Value(), upstream, input, 0)
      decreases |rest|
    {
      SessionStep(engine, bl.Value(), upstream, rest, n);
      if |rest| < 2 {
        WrittenAll(out, Closed);
        return out, Closed;
      }
      var len := U16At(rest, 0) as int;
      if 2 + len > |rest| {
        WrittenAll(out, CutShort);
        return out, CutShort;
      }
      var reply, asked := AnswerTcpQuery(engine, bl, upstream, n, rest[2..2 + len]);
      if reply.Err? {
        WrittenAll(out, Aborted(reply.error));
        return out, Aborted(reply.error);
      }
      WrittenTwice(out, Frame(reply.value), Session(engine, bl.Value(), upstream, rest[2 + len..], n + 1));
      out := out + Frame(reply.value);
      rest, n := rest[2 + len..], n + 1;
    }
  }

  /** The replies of a session, in the order of its queries. */
  ghost predicate Replies(engine: Rules.Engine, index: Blocklist.Index, upstream: Resolver,
                          packets: seq<seq<byte>>, n: nat, replies: seq<seq<byte>>)
  {
    |replies| == |packets| && forall i :: 0 <= i < |packets| ==>
      Answered(engine, index, upstream, n + i, packets[i]) == Ok(replies[i])
  }

  /** Answered queries at the head of a stream get their replies, in order, whatever follows them. */
  lemma {:induction false} SessionPrefix(engine: Rules.Engine, index: Blocklist.Index,
                                         upstream: Resolver,
                                         packets: seq<seq<byte>>, rest: seq<byte>, n: nat, replies: seq<seq<byte>>)
    requires forall p <- packets :: |p| < 0x1_0000
    requires Replies(engine, index, upstream, packets, n, replies)
    ensures var (out, end) := Session(engine, index, upstream, rest, n + |packets|);
            Session(engine, index, upstream, Frames(packets) + rest, n) == (Frames(replies) + out, end)
    decreases |packets|
  {
    hide Answered, Frame, U16At, Session;
    if packets == [] {
      assert Frames(packets) + rest == rest;
      var out := Session(engine, index, upstream, rest, n).0;
      assert Frames(replies) + out == out;
    } else {
      assert Answered(engine, index, upstream, n + 0, packets[0]) == Ok(replies[0]);
      forall i | 0 <= i < |packets[1..]|
        ensures Answered(engine, index, upstream, n + 1 + i, packets[1..][i]) == Ok(replies[1..][i])
      {
        assert Answered(engine, index, upstream, n + (i + 1), packets[i + 1]) == Ok(replies[i + 1]);
      }
      var later := Frames(packets[1..]) + rest;
      assert Frames(packets) + rest == Frame(packets[0]) + later;
      SessionPrefix(engine, index, upstream, packets[1..], rest, n + 1, replies[1..]);
      SessionCons(engine, index, upstream, packets[0], later, n, replies[0]);
      var out := Session(engine, index, upstream, rest, n + |packets|).0;
      assert Frame(replies[0]) + (Frames(replies[1..]) + out) == Frames(replies) + out;
    }
  }

  lemma SessionCons(engine: Rules.Engine, index: Blocklist.Index, upstream: Resolver,
                    packet: seq<byte>, later: seq<byte>, n: nat, reply: seq<byte>)
    requires |packet| < 0x1_0000 && Answered(engine, index, upstream, n, packet) == Ok(reply)
    ensures var (out, end) := Session(engine, index, upstream, later, n + 1);
            Session(engine, index, upstream, Frame(packet) + later, n) == (Frame(reply) + out, end)
  {
    hide Answered, Frame, U16At;
    FrameHead(packet, later);
  }

  /** What stops a session at the octets left: nothing more, a cut message, or a query that cannot be answered. */
  ghost predicate Stops(engine: Rules.Engine, index: Blocklist.Index, upstream: Resolver,
                        rest: seq<byte>, n: nat, end: SessionEnd)
  {
    match end
    case Closed => |rest| < 2
    case CutShort => |rest| >= 2 && |rest| < 2 + U16At(rest, 0) as int
    case Aborted(f) =>
      |rest| >= 2 && |rest| >= 2 + U16At(rest, 0) as int
      && Answered(engine, index, upstream, n, rest[2..2 + U16At(rest, 0) as int]) == Err(f)
  }

  lemma FrameTaken(stream: seq<byte>)
    requires |stream| >= 2 && 2 + U16At(stream, 0) as int <= |stream|
    ensures var len := U16At(stream, 0) as int;
            Frame(stream[2..2 + len]) + stream[2 + len..] == stream
  {
    var len := U16At(stream, 0) as int;
    assert stream[..2] == U16Bytes(len);
  }

  /**
   Every session, on any octets whatever: the stream starts with some framed queries, the output is exactly one framed
   reply to each of them, in order, and the session ends on the octets behind them for the reason it gives.
   */
  lemma {:induction false} EverySession(engine: Rules.Engine, index: Blocklist.Index,
                                        upstream: Resolver, input: seq<byte>, n: nat)
    returns (packets: seq<seq<byte>>, rest: seq<byte>, replies: seq<seq<byte>>)
    ensures input == Frames(packets) + rest && forall p <- packets :: |p| < 0x1_0000
    ensures Replies(engine, index, upstream, packets, n, replies)
    ensures var (out, end) := Session(engine, index, upstream, input, n);
            out == Frames(replies) && Stops(engine, index, upstream, rest, n + |packets|, end)
    decreases |input|
  {
    hide Answered, Frame, U16At;
    packets, rest, replies := [], input, [];
    if |input| >= 2 && 2 + U16At(input, 0) as int <= |input| {
      var len := U16At(input, 0) as int;
      var packet := input[2..2 + len];
      var answer := Answered(engine, index, upstream, n, packet);
      if answer.Ok? {
        FrameTaken(input);
        var ps, rs;
        ps, rest, rs := EverySession(engine, index, upstream, input[2 + len..], n + 1);
        packets, replies := [packet] + ps, [answer.value] + rs;
        assert packets[1..] == ps && replies[1..] == rs;
        assert Frame(packet) + (Frames(ps) + rest) == Frames(packets) + rest;
        forall i | 0 <= i < |packets|
          ensures Answered(engine, index, upstream, n + i, packets[i]) == Ok(replies[i])
        {
          if i > 0 {
            assert Answered(engine, index, upstream, n + 1 + (i - 1), ps[i - 1]) == Ok(rs[i - 1]);
          }
        }
      }
    }
  }

  /** The query parses, and the upstream answers what it is asked unless the query is refused outright. */
  predicate Answerable(engine: Rules.Engine, index: Blocklist.Index, upstream: Resolver,
                       n: nat, packet: seq<byte>)
  {
    var m := MessageAt(packet);
    m.Ok? && (Blocks(engine, index, m.value) || upstream(n, MessageBytes(ForUpstream(m.value))).Ok?)
  }

  lemma AnswerableIsAnswered(engine: Rules.Engine, index: Blocklist.Index,
                             upstream: Resolver, n: nat, packet: seq<byte>)
    ensures Answerable(engine, index, upstream, n, packet) <==> Answered(engine, index, upstream, n, packet).Ok?
  {
    hide MessageAt, MessageBytes, Relays, Blocks, ForUpstream, NxdomainFor;
  }

  /**
   Any number of framed queries that parse, with an upstream that answers those it is asked, get one framed reply
   each, in order, and nothing else.
   */
  lemma OneReplyPerQuery(engine: Rules.Engine, index: Blocklist.Index,
                         upstream: Resolver, packets: seq<seq<byte>>, n: nat)
    returns (replies: seq<seq<byte>>)
    requires forall p <- packets :: |p| < 0x1_0000
    requires forall i :: 0 <= i < |packets| ==> Answerable(engine, index, upstream, n + i, packets[i])
    ensures Replies(engine, index, upstream, packets, n, replies)
    ensures Session(engine, index, upstream, Frames(packets), n) == (Frames(replies), Closed)
    ensures (forall r <- replies :: |r| < 0x1_0000) ==>
              Unframed(Session(engine, index, upstream, Frames(packets), n).0) == Some(replies)
  {
    hide Answered, Frame, U16At, Answerable, Frames, Unframed;
    forall i | 0 <= i < |packets|
      ensures Answered(engine, index, upstream, n + i, packets[i]).Ok?
    {
      assert Answerable(engine, index, upstream, n + i, packets[i]);
      AnswerableIsAnswered(engine, index, upstream, n + i, packets[i]);
    }
    replies := seq(|packets|,
                   i requires 0 <= i < |packets| && Answered(engine, index, upstream, n + i, packets[i]).Ok? =>
                     Answered(engine, index, upstream, n + i, packets[i]).value);
    SessionPrefix(engine, index, upstream, packets, [], n, replies);
    assert Frames(packets) + [] == Frames(packets) && Frames(replies) + [] == Frames(replies);
    if forall r <- replies :: |r| < 0x1_0000 {
      FramesReadBack(replies);
    }
  }

  /** Relayed replies always fit their frame; a refusal does exactly when the query's questions, printed in full, do. */
  lemma AnswerFitsFrame(engine: Rules.Engine, index: Blocklist.Index, packet: seq<byte>, resp: seq<byte>)
    requires MessageAt(packet).Ok? && |resp| < 0x1_0000
    ensures var m := MessageAt(packet).value;
            |TcpAnswer(engine, index, packet, Ok(resp)).value| < 0x1_0000 <==>
            Relays(engine, index, m, resp) || 12 + |QuestionsBytes(m.questions)| < 0x1_0000
  {
    hide MessageAt, MessageBytes, Cloaks, IsBlocked, QuestionsBytes;
    var m := MessageAt(packet).value;
    if !Relays(engine, index, m, resp) {
      NxdomainBytes(m);
    }
  }
}
