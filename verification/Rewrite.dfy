/** The messages the forwarder makes out of the ones it parsed: upstream query, NXDOMAIN reply, truncated reply. */
module Rewrite {
  import opened Bytes
  import opened Names
  import opened Wire
  import opened Codec

  const EDNS_BUFFER_SIZE: u16 := 1232
  const TC: u16 := 0x0200
  /** QR, RD, RA and response code 3. */
  const NXDOMAIN_FLAGS: u16 := 0x8183

  predicate TcBit(flags: u16) {
    flags / TC % 2 == 1
  }

  function WithTc(flags: u16): u16 {
    if TcBit(flags) then flags else flags + TC
  }

  predicate TcBitSet(msg: seq<byte>) {
    |msg| >= 4 && TcBit(U16At(msg, 2))
  }

  // ----- what is computed

  function ForUpstream(m: Message): Message {
    Advertised(m.(ednsDo := true), EDNS_BUFFER_SIZE)
  }

  function NxdomainFor(m: Message): Message {
    Message(m.header.(flags := NXDOMAIN_FLAGS, qdcount := 1, ancount := 0, nscount := 0),
            m.questions, [], [], [], m.ednsDo)
  }

  function KeepOpt(rs: seq<Record>): (kept: seq<Record>)
    ensures |kept| <= |rs|
  {
    if rs == [] then []
    else (if rs[0].rtype == OPT then [rs[0]] else []) + KeepOpt(rs[1..])
  }

  function Truncated(m: Message): Message {
    m.(answers := [], authorities := [], additionals := KeepOpt(m.additionals),
       header := m.header.(flags := WithTc(m.header.flags), ancount := 0, nscount := 0))
  }

  // ----- as the program does it

  method UpstreamQuery(msg: Message) returns (packet: seq<byte>)
    ensures packet == MessageBytes(ForUpstream(msg))
  {
    var toSend := new DnsMessage(msg);
    toSend.ednsDo := true;
    toSend.AddOptRecord(EDNS_BUFFER_SIZE);
    packet := toSend.Serialize();
  }

  method BuildNxdomain(msg: Message) returns (packet: seq<byte>)
    ensures packet == MessageBytes(NxdomainFor(msg))
  {
    var response := new DnsMessage(msg);
    response.header := response.header.(flags := NXDOMAIN_FLAGS);
    response.header := response.header.(qdcount := 1);
    response.header := response.header.(ancount := 0);
    response.header := response.header.(nscount := 0);
    response.answers := [];
    response.authorities := [];
    response.additionals := [];
    packet := response.Serialize();
  }

  method Retain(rs: seq<Record>) returns (kept: seq<Record>)
    ensures kept == KeepOpt(rs)
  {
    kept := [];
    for i := 0 to |rs|
      invariant kept + KeepOpt(rs[i..]) == KeepOpt(rs)
    {
      assert rs[i..][1..] == rs[i + 1..];
      if rs[i].rtype == OPT {
        assert kept + ([rs[i]] + KeepOpt(rs[i + 1..])) == kept + [rs[i]] + KeepOpt(rs[i + 1..]);
        kept := kept + [rs[i]];
      }
    }
  }

  method TruncateResponse(resp: seq<byte>) returns (r: Result<seq<byte>, WireError>)
    ensures var m := MessageAt(resp);
            r == if m.Ok? then Ok(MessageBytes(Truncated(m.value))) else Err(m.error)
  {
    hide MessageAt;
    var parsed :- ParseMessage(resp);
    var msg := new DnsMessage(parsed);
    msg.answers := [];
    msg.authorities := [];
    var kept := Retain(msg.additionals);
    msg.additionals := kept;
    msg.header := msg.header.(flags := WithTc(msg.header.flags));
    msg.header := msg.header.(ancount := 0);
    msg.header := msg.header.(nscount := 0);
    var packet := msg.Serialize();
    return Ok(packet);
  }

  // ----- OPT insertion

  /** `out` is `rs` with record `k` (or an appended one) made an OPT that advertises `size` and asks for DO. */
  ghost predicate OptTouched(rs: seq<Record>, out: seq<Record>, size: u16, k: nat) {
    && k <= |rs| && k < |out| && |out| == (if k == |rs| then |rs| + 1 else |rs|)
    && (forall i :: 0 <= i < k ==> rs[i].rtype != OPT)
    && (forall i :: 0 <= i < |rs| && i != k ==> out[i] == rs[i])
    && out[k].rtype == OPT && out[k].rclass == size && DoBit(out[k].ttl)
    && if k == |rs| then out[k] == Record([], 41, size, 0x8000_0000, [], None)
       else && rs[k].rtype == OPT && out[k].ttl % DO_MASK == rs[k].ttl % DO_MASK
            && out[k].(rclass := rs[k].rclass, ttl := rs[k].ttl) == rs[k]
  }

  lemma OptTouchedCons(rs: seq<Record>, tail: seq<Record>, size: u16, k: nat)
    requires rs != [] && rs[0].rtype != OPT && OptTouched(rs[1..], tail, size, k)
    ensures OptTouched(rs, [rs[0]] + tail, size, k + 1)
  {
    var out := [rs[0]] + tail;
    forall i | 0 <= i < k + 1
      ensures rs[i].rtype != OPT
    {
      if i > 0 {
        assert rs[i] == rs[1..][i - 1];
      }
    }
    forall i | 0 <= i < |rs| && i != k + 1
      ensures out[i] == rs[i]
    {
      if i > 0 {
        assert rs[i] == rs[1..][i - 1];
      }
    }
    if k + 1 < |rs| {
      assert rs[k + 1] == rs[1..][k];
    }
  }

  /** Exactly one record is touched: the first OPT, or an OPT of its own at the end. */
  lemma {:induction false} OptAdvertisedShape(rs: seq<Record>, size: u16) returns (k: nat)
    ensures OptTouched(rs, OptAdvertised(rs, size), size, k)
    ensures k == |rs| <==> !HasOpt(rs)
  {
    hide HasOpt;
    if rs == [] {
      k := 0;
      NoOpt();
    } else if rs[0].rtype == OPT {
      k := 0;
      HasOptCons(rs);
    } else {
      var j := OptAdvertisedShape(rs[1..], size);
      k := j + 1;
      OptTouchedCons(rs, OptAdvertised(rs[1..], size), size, j);
      HasOptCons(rs);
    }
  }

  lemma NoOpt()
    ensures !HasOpt([])
  {
  }

  lemma HasOptCons(rs: seq<Record>)
    requires rs != []
    ensures HasOpt(rs) <==> rs[0].rtype == OPT || HasOpt(rs[1..])
  {
    assert rs == [rs[0]] + rs[1..];
    assert rs[0] in rs;
  }

  lemma {:induction false} OptAdvertisedTwice(rs: seq<Record>, size: u16)
    ensures OptAdvertised(OptAdvertised(rs, size), size) == OptAdvertised(rs, size)
  {
    if rs != [] && rs[0].rtype != OPT {
      OptAdvertisedTwice(rs[1..], size);
    }
  }

  lemma {:induction false} OptAdvertisedSurvives(rs: seq<Record>, got: seq<Record>, size: u16)
    requires AllSurvive(rs, got) && OptAdvertised(rs, size) == rs
    ensures OptAdvertised(got, size) == got
  {
    hide Canon;
    if rs == [] {
    } else {
      assert Survives(rs[0], got[0]);
      assert got == [got[0]] + got[1..];
      if rs[0].rtype != OPT {
        assert AllSurvive(rs[1..], got[1..]) by {
          forall i | 0 <= i < |rs[1..]|
            ensures Survives(rs[1..][i], got[1..][i])
          {
            assert Survives(rs[i + 1], got[i + 1]);
          }
        }
        assert OptAdvertised(rs, size)[1..] == OptAdvertised(rs[1..], size);
        OptAdvertisedSurvives(rs[1..], got[1..], size);
      }
    }
  }

  lemma OptAdvertisedPrintable(rs: seq<Record>, size: u16)
    requires forall r <- rs :: PrintableRecord(r)
    ensures forall r <- OptAdvertised(rs, size) :: PrintableRecord(r)
    ensures SeesDo(OptAdvertised(rs, size))
  {
    hide Printable;
    RootPrintable();
    var out := OptAdvertised(rs, size);
    var k := OptAdvertisedShape(rs, size);
    forall i | 0 <= i < |out|
      ensures PrintableRecord(out[i])
    {
      if i < |rs| {
        assert PrintableRecord(rs[i]);
      }
    }
    assert out[k] in out;
  }

  lemma RootPrintable()
    ensures Printable([]) && NameBytes([]) == [0] && Canon([]) == []
  {
    assert NonEmpty([[]]) == NonEmpty([[]][1..]);
    assert WireLabels([[]]) == [] + WireLabels([[]][1..]);
  }

  lemma ForUpstreamPrintable(p: seq<byte>, m: Message)
    requires |p| < 0x1_0000 && MessageAt(p) == Ok(m)
    ensures PrintableMessage(ForUpstream(m))
    ensures m.header.arcount < 0xFFFF
    ensures ForUpstream(m).header == m.header.(arcount := |ForUpstream(m).additionals|)
  {
    hide MessageAt, PrintableRecord, PrintableQuestion;
    ParsedPrintable(p);
    ParsedSize(p);
    OptAdvertisedPrintable(m.additionals, EDNS_BUFFER_SIZE);
    var k := OptAdvertisedShape(m.additionals, EDNS_BUFFER_SIZE);
  }

  /**
   Forwarding keeps the query's text: the upstream reads the client's own message, with canonical names, except
   that the first OPT record (or one appended) advertises 1232 octets and asks for DO. The header's additional
   count never overflows on the way.
   */
  lemma ForwardingKeepsMeaning(p: seq<byte>, m: Message) returns (got: Message)
    requires |p| < 0x1_0000 && MessageAt(p) == Ok(m)
    ensures MessageAt(MessageBytes(ForUpstream(m))) == Ok(got)
    ensures got.header.(arcount := 0) == m.header.(arcount := 0) && got.header.arcount == |got.additionals|
    ensures got.questions == CanonQuestions(m.questions)
    ensures AllSurvive(m.answers, got.answers) && AllSurvive(m.authorities, got.authorities)
    ensures AllSurvive(OptAdvertised(m.additionals, 1232), got.additionals)
    ensures got.ednsDo
  {
    hide MessageAt, MessageBytes, PrintableMessage, CanonQuestions, OptAdvertised, SeesDo, ForUpstream, AllSurvive;
    ForUpstreamPrintable(p, m);
    ForUpstreamParts(m);
    ForwardingAsksDo(p, m);
    got := MessageReadBack(ForUpstream(m), []);
    assert MessageBytes(ForUpstream(m)) + [] == MessageBytes(ForUpstream(m));
    AllSurviveLength(ForUpstream(m), got.answers, got.authorities, got.additionals);
  }

  lemma ForwardingAsksDo(p: seq<byte>, m: Message)
    requires MessageAt(p) == Ok(m)
    ensures SeesDo(OptAdvertised(m.additionals, EDNS_BUFFER_SIZE))
  {
    hide MessageAt, PrintableMessage, PrintableRecord, SeesDo;
    ParsedPrintable(p);
    PrintableAdditionals(m);
    OptAdvertisedPrintable(m.additionals, EDNS_BUFFER_SIZE);
  }

  lemma ForUpstreamParts(m: Message)
    ensures var sent := ForUpstream(m);
            && sent.questions == m.questions && sent.answers == m.answers && sent.authorities == m.authorities
            && sent.additionals == OptAdvertised(m.additionals, EDNS_BUFFER_SIZE)
  {
    hide OptAdvertised, HasOpt;
  }

  lemma PrintableAdditionals(m: Message)
    ensures PrintableMessage(m) ==> forall r <- m.additionals :: PrintableRecord(r)
  {
    hide PrintableRecord, PrintableQuestion;
  }

  lemma {:induction false} SurvivorsPrintAlike(rs: seq<Record>, got: seq<Record>)
    requires AllSurvive(rs, got)
    ensures RecordsBytes(got) == RecordsBytes(rs)
  {
    hide Canon, NameBytes;
    if rs == [] {
    } else {
      assert Survives(rs[0], got[0]);
      CanonSameBytes(rs[0].name);
      assert RecordBytes(got[0]) == RecordBytes(rs[0]);
      assert AllSurvive(rs[1..], got[1..]) by {
        forall i | 0 <= i < |rs[1..]|
          ensures Survives(rs[1..][i], got[1..][i])
        {
          assert Survives(rs[i + 1], got[i + 1]);
        }
      }
      SurvivorsPrintAlike(rs[1..], got[1..]);
    }
  }

  lemma {:induction false} CanonQuestionsPrintAlike(qs: seq<Question>)
    ensures QuestionsBytes(CanonQuestions(qs)) == QuestionsBytes(qs)
  {
    hide Canon, NameBytes;
    if qs == [] {
    } else {
      CanonSameBytes(qs[0].name);
      CanonQuestionsPrintAlike(qs[1..]);
      assert CanonQuestions(qs)[1..] == CanonQuestions(qs[1..]);
    }
  }

  /** A forwarded query forwarded again is, octet for octet, the same query. */
  lemma ForwardingTwiceIsOnce(p: seq<byte>, m: Message) returns (again: Message)
    requires |p| < 0x1_0000 && MessageAt(p) == Ok(m)
    ensures MessageAt(MessageBytes(ForUpstream(m))) == Ok(again)
    ensures MessageBytes(ForUpstream(again)) == MessageBytes(ForUpstream(m))
  {
    hide MessageAt, PrintableMessage, CanonQuestions, OptAdvertised, SeesDo, AllSurvive,
      QuestionsBytes, RecordsBytes, HeaderBytes, HasOpt;
    again := ForwardingKeepsMeaning(p, m);
    var sent := OptAdvertised(m.additionals, EDNS_BUFFER_SIZE);
    OptAdvertisedTwice(m.additionals, EDNS_BUFFER_SIZE);
    OptAdvertisedSurvives(sent, again.additionals, EDNS_BUFFER_SIZE);
    SurvivorsPrintAlike(m.answers, again.answers);
    SurvivorsPrintAlike(m.authorities, again.authorities);
    SurvivorsPrintAlike(sent, again.additionals);
    CanonQuestionsPrintAlike(m.questions);
    ForUpstreamPrintable(p, m);
    ForUpstreamHeader(m, sent, again);
  }

  lemma ForUpstreamHeader(m: Message, sent: seq<Record>, again: Message)
    requires ForUpstream(m).header == m.header.(arcount := |sent| % 0x1_0000)
    requires AllSurvive(sent, again.additionals) && |sent| < 0x1_0000
    requires again.header.(arcount := 0) == m.header.(arcount := 0)
    requires OptAdvertised(again.additionals, EDNS_BUFFER_SIZE) == again.additionals
    ensures var m1, m2 := ForUpstream(m), ForUpstream(again);
            m2.header.(arcount := |m2.additionals| % 0x1_0000) == m1.header.(arcount := |sent| % 0x1_0000)
  {
  }

  lemma {:induction false} OptAdvertisedBytes(rs: seq<Record>, size: u16)
    ensures |RecordsBytes(OptAdvertised(rs, size))| <= |RecordsBytes(rs)| + 11
  {
    hide RecordBytes;
    if rs == [] {
      OptRecordBytes(size);
    } else if rs[0].rtype == OPT {
      RecordLength(rs[0], rs[0].(rclass := size, ttl := WithDo(rs[0].ttl)));
    } else {
      OptAdvertisedBytes(rs[1..], size);
      assert OptAdvertised(rs, size)[1..] == OptAdvertised(rs[1..], size);
    }
  }

  lemma OptRecordBytes(size: u16)
    ensures |RecordsBytes([OptRecord(size)])| == 11
  {
    RootPrintable();
    assert RecordsBytes([OptRecord(size)]) == RecordBytes(OptRecord(size)) + RecordsBytes([OptRecord(size)][1..]);
  }

  lemma RecordLength(a: Record, b: Record)
    requires a.name == b.name && a.rdata == b.rdata
    ensures |RecordBytes(a)| == |RecordBytes(b)|
  {
  }

  /** Forwarding a query that came without compression lengthens it by at most one empty OPT record. */
  lemma ForwardingGrowth(m: Message, suffix: seq<byte>) returns (got: Message)
    requires PrintableMessage(m)
    ensures MessageAt(MessageBytes(m) + suffix) == Ok(got)
    ensures |MessageBytes(ForUpstream(got))| <= |MessageBytes(m) + suffix| + 11
  {
    hide MessageAt, PrintableMessage, CanonQuestions, SeesDo, AllSurvive, QuestionsBytes, RecordsBytes, HeaderBytes,
      OptAdvertised, HasOpt;
    got := MessageReadBack(m, suffix);
    OptAdvertisedBytes(got.additionals, EDNS_BUFFER_SIZE);
    SurvivorsPrintAlike(m.answers, got.answers);
    SurvivorsPrintAlike(m.authorities, got.authorities);
    SurvivorsPrintAlike(m.additionals, got.additionals);
    CanonQuestionsPrintAlike(m.questions);
  }

  // ----- where a message keeps its id and flags

  lemma WireHeader(m: Message)
    ensures |MessageBytes(m)| >= 12
    ensures U16At(MessageBytes(m), 0) == m.header.id && U16At(MessageBytes(m), 2) == m.header.flags
  {
    hide QuestionsBytes, RecordsBytes, U16At, HeaderBytes;
    var h := m.header.(arcount := |m.additionals| % 0x1_0000);
    var rest := QuestionsBytes(m.questions) + RecordsBytes(m.answers) + RecordsBytes(m.authorities)
      + RecordsBytes(m.additionals);
    assert MessageBytes(m) == HeaderBytes(h) + rest;
    assert At(MessageBytes(m), 0, HeaderBytes(h));
    HeaderReadBack(MessageBytes(m), 0, h);
  }

  lemma ParsedId(p: seq<byte>)
    requires MessageAt(p).Ok?
    ensures |p| >= 12 && U16At(p, 0) == MessageAt(p).value.header.id && U16At(p, 2) == MessageAt(p).value.header.flags
  {
    hide QuestionsAt, RecordsAt, SeesDo;
  }

  // ----- NXDOMAIN

  /**
   A refusal re-parses as just the client's first question, with its id and the NXDOMAIN flags, even when the query
   carried more questions: those are still printed but no longer announced.
   */
  lemma NxdomainReadsBack(p: seq<byte>, m: Message)
    requires MessageAt(p) == Ok(m) && m.questions != []
    ensures MessageAt(MessageBytes(NxdomainFor(m))) ==
            Ok(Message(Header(m.header.id, 0x8183, 1, 0, 0, 0), [CanonQuestion(m.questions[0])], [], [], [], false))
  {
    hide MessageAt, MessageBytes, PrintableQuestion, CanonQuestion, PrintableRecord, SeesDo, AllSurvive, CanonQuestions,
      NxdomainFor;
    ParsedPrintable(p);
    assert PrintableQuestion(m.questions[0]);
    var one := FirstQuestionOnly(m);
    var tail := QuestionsBytes(m.questions[1..]);
    NxdomainBytes(m);
    var got := MessageReadBack(one, tail);
    QuestionsUnfold(one.questions);
    QuestionsUnfold([]);
    assert one.questions[1..] == [];
    NothingSeesDo();
    AllSurviveLength(one, got.answers, got.authorities, got.additionals);
    assert got.header == one.header;
    assert got.questions == [CanonQuestion(m.questions[0])];
    assert got.answers == [] && got.authorities == [] && got.additionals == [];
    assert !got.ednsDo;
  }

  function FirstQuestionOnly(m: Message): Message
    requires m.questions != []
  {
    Message(Header(m.header.id, NXDOMAIN_FLAGS, 1, 0, 0, 0), [m.questions[0]], [], [], [], m.ednsDo)
  }

  lemma QuestionsOnly(m: Message)
    requires m.answers == m.authorities == m.additionals == []
    ensures MessageBytes(m) == HeaderBytes(m.header.(arcount := 0)) + QuestionsBytes(m.questions)
  {
    hide HeaderBytes, QuestionsBytes;
  }

  /** The refusal is the one-question reply followed by whatever other questions the query had. */
  lemma NxdomainBytes(m: Message)
    requires m.questions != []
    ensures MessageBytes(NxdomainFor(m)) == MessageBytes(FirstQuestionOnly(m)) + QuestionsBytes(m.questions[1..])
    ensures |MessageBytes(NxdomainFor(m))| == 12 + |QuestionsBytes(m.questions)|
  {
    hide QuestionBytes, HeaderBytes, MessageBytes, QuestionsBytes;
    QuestionsUnfold(m.questions);
    QuestionsUnfold([m.questions[0]]);
    QuestionsUnfold([]);
    assert [m.questions[0]][1..] == [];
    QuestionsOnly(NxdomainFor(m));
    QuestionsOnly(FirstQuestionOnly(m));
  }

  lemma NothingSeesDo()
    ensures !SeesDo([])
  {
  }

  // ----- truncation

  /** Cutting sets the TC bit and keeps the other fifteen. */
  lemma OnlyTcIsSet(flags: u16)
    ensures WithTc(flags) / 0x0200 % 2 == 1
    ensures WithTc(flags) % 0x0200 == flags % 0x0200 && WithTc(flags) / 0x0400 == flags / 0x0400
  {
  }

  /** What is kept is what a filter keeps: piece by piece, each record of type 41 and no other. */
  lemma {:induction false} KeepOptFilters(a: seq<Record>, b: seq<Record>, r: Record)
    ensures KeepOpt([]) == [] && KeepOpt([r]) == if r.rtype == 41 then [r] else []
    ensures KeepOpt(a + b) == KeepOpt(a) + KeepOpt(b)
  {
    assert KeepOpt([r]) == (if r.rtype == 41 then [r] else []) + KeepOpt([r][1..]);
    if a == [] {
      assert a + b == b;
    } else {
      assert (a + b)[1..] == a[1..] + b;
      KeepOptFilters(a[1..], b, r);
    }
  }

  lemma {:induction false} KeepOptMembers(rs: seq<Record>)
    ensures forall r :: r in KeepOpt(rs) <==> r in rs && r.rtype == OPT
  {
    if rs == [] {
    } else {
      KeepOptMembers(rs[1..]);
      assert rs == [rs[0]] + rs[1..];
    }
  }

  lemma KeepOptSeesDo(rs: seq<Record>)
    ensures SeesDo(KeepOpt(rs)) == SeesDo(rs)
  {
    KeepOptMembers(rs);
  }

  lemma {:induction false} KeepOptShorter(rs: seq<Record>)
    ensures |RecordsBytes(KeepOpt(rs))| <= |RecordsBytes(rs)|
  {
    hide RecordBytes;
    if rs == [] {
    } else {
      KeepOptShorter(rs[1..]);
      var kept := KeepOpt(rs[1..]);
      if rs[0].rtype == OPT {
        assert ([rs[0]] + kept)[1..] == kept;
      } else {
        assert KeepOpt(rs) == kept;
      }
    }
  }

  /** The same records in the same order, under canonical names. */
  ghost predicate CanonRecords(rs: seq<Record>, got: seq<Record>) {
    |got| == |rs| && forall i :: 0 <= i < |rs| ==> got[i] == rs[i].(name := Canon(rs[i].name))
  }

  lemma OptSurvivesWhole(rs: seq<Record>, got: seq<Record>)
    requires AllSurvive(rs, got) && forall r <- rs :: r.rtype == OPT && r.cnameTarget == None
    ensures CanonRecords(rs, got)
  {
    hide Canon;
    forall i | 0 <= i < |rs|
      ensures got[i] == rs[i].(name := Canon(rs[i].name))
    {
      assert Survives(rs[i], got[i]) && rs[i] in rs;
    }
  }

  lemma TruncatedPrintable(resp: seq<byte>, m: Message)
    requires MessageAt(resp) == Ok(m)
    ensures PrintableMessage(Truncated(m))
    ensures forall r <- KeepOpt(m.additionals) :: r.rtype == OPT && r.cnameTarget == None
    ensures |KeepOpt(m.additionals)| < 0x1_0000
  {
    hide MessageAt, PrintableRecord, PrintableQuestion, SeesDo, RecordsBytes;
    ParsedPrintable(resp);
    ParsedSize(resp);
    KeepOptMembers(m.additionals);
  }

  /**
   A truncated reply re-parses as the original id, flags with TC set and questions, no answers or authorities, and
   exactly the OPT records, in order and complete.
   */
  lemma TruncationReadsBack(resp: seq<byte>, m: Message) returns (got: Message)
    requires MessageAt(resp) == Ok(m)
    ensures MessageAt(MessageBytes(Truncated(m))) == Ok(got) && |KeepOpt(m.additionals)| < 0x1_0000
    ensures got.header == Header(m.header.id, WithTc(m.header.flags), m.header.qdcount, 0, 0, |KeepOpt(m.additionals)|)
    ensures got.questions == CanonQuestions(m.questions) && got.answers == [] && got.authorities == []
    ensures CanonRecords(KeepOpt(m.additionals), got.additionals)
    ensures got.ednsDo == m.ednsDo
  {
    hide CanonRecords, MessageAt, MessageBytes, PrintableMessage, CanonQuestions, SeesDo, Canon, AllSurvive, KeepOpt,
      WithTc, Survives, SelfContained, RecordsBytes, QuestionsBytes, PrintableRecord, PrintableQuestion;
    TruncatedPrintable(resp, m);
    ParsedDo(resp);
    KeepOptSeesDo(m.additionals);
    got := MessageReadBack(Truncated(m), []);
    assert MessageBytes(Truncated(m)) + [] == MessageBytes(Truncated(m));
    AllSurviveLength(Truncated(m), got.answers, got.authorities, got.additionals);
    OptSurvivesWhole(KeepOpt(m.additionals), got.additionals);
  }

  /** The client sees the TC bit and the id of the reply that was cut. */
  lemma TruncationIsMarked(resp: seq<byte>, m: Message)
    requires MessageAt(resp) == Ok(m)
    ensures TcBitSet(MessageBytes(Truncated(m))) && U16At(MessageBytes(Truncated(m)), 0) == U16At(resp, 0)
  {
    hide MessageAt, MessageBytes, U16At;
    ParsedId(resp);
    WireHeader(Truncated(m));
  }

  lemma ParsedDo(p: seq<byte>)
    requires MessageAt(p).Ok?
    ensures MessageAt(p).value.ednsDo == SeesDo(MessageAt(p).value.additionals)
  {
    hide QuestionsAt, RecordsAt, SeesDo;
  }

  lemma {:induction false} KeepOptSurvives(rs: seq<Record>, got: seq<Record>)
    requires AllSurvive(rs, got)
    ensures AllSurvive(KeepOpt(rs), KeepOpt(got))
  {
    hide Canon, SelfContained;
    if rs == [] {
    } else {
      assert Survives(rs[0], got[0]);
      assert AllSurvive(rs[1..], got[1..]) by {
        forall i | 0 <= i < |rs[1..]|
          ensures Survives(rs[1..][i], got[1..][i])
        {
          assert Survives(rs[i + 1], got[i + 1]);
        }
      }
      KeepOptSurvives(rs[1..], got[1..]);
      if rs[0].rtype == OPT {
        AllSurviveCons([rs[0]] + KeepOpt(rs[1..]), got[0], KeepOpt(got[1..]));
      }
    }
  }

  /** Truncating a reply that was printed without compression never makes it longer. */
  lemma TruncationShrinks(m: Message, suffix: seq<byte>) returns (got: Message)
    requires PrintableMessage(m)
    ensures MessageAt(MessageBytes(m) + suffix) == Ok(got)
    ensures |MessageBytes(Truncated(got))| <= |MessageBytes(m) + suffix|
  {
    hide MessageAt, PrintableMessage, CanonQuestions, SeesDo, AllSurvive, QuestionsBytes, RecordsBytes, HeaderBytes;
    got := MessageReadBack(m, suffix);
    KeepOptShorter(m.additionals);
    KeepOptSurvives(m.additionals, got.additionals);
    SurvivorsPrintAlike(KeepOpt(m.additionals), KeepOpt(got.additionals));
    CanonQuestionsPrintAlike(m.questions);
    EmptySections();
  }

  /**
   One question of at most 255 octets and one root OPT record with at most 230 octets of options fit the default UDP
   limit.
   */
  lemma TruncationFitsDefault(m: Message, opt: Record)
    requires |m.questions| == 1 && |NameBytes(m.questions[0].name)| <= 255
    requires KeepOpt(m.additionals) == [opt] && opt.name == [] && |opt.rdata| <= 230
    ensures |MessageBytes(Truncated(m))| <= 512
  {
    hide KeepOpt, HeaderBytes;
    EmptySections();
    RootPrintable();
    assert QuestionsBytes(m.questions) == QuestionBytes(m.questions[0]) + QuestionsBytes(m.questions[1..]);
    assert RecordsBytes([opt]) == RecordBytes(opt) + RecordsBytes([opt][1..]);
  }
}
