/** DNS messages and their wire format (section 4.1 of RFC 1035): what parsing and printing compute. */
module Wire {
  import opened Bytes
  import opened Names

  const CNAME: u16 := 5
  const OPT: u16 := 41
  /** The bit of an OPT record's TTL field that the program calls DO. */
  const DO_MASK: u32 := 0x8000_0000

  datatype Header = Header(id: u16, flags: u16, qdcount: u16, ancount: u16, nscount: u16, arcount: u16)

  datatype Question = Question(name: Name, qtype: u16, qclass: u16)

  datatype Record = Record(name: Name, rtype: u16, rclass: u16, ttl: u32, rdata: seq<byte>, cnameTarget: Option<Name>)

  datatype Message = Message(header: Header, questions: seq<Question>, answers: seq<Record>,
                             authorities: seq<Record>, additionals: seq<Record>, ednsDo: bool)

  predicate DoBit(ttl: u32) {
    ttl >= DO_MASK
  }

  predicate SeesDo(additionals: seq<Record>) {
    exists r <- additionals :: r.rtype == OPT && DoBit(r.ttl)
  }

  // ----- parsing

  function HeaderAt(data: seq<byte>, pos: nat): (r: Result<Header, WireError>)
    ensures r.Ok? <==> pos + 12 <= |data|
  {
    if pos + 12 > |data| then Err(ShortRead)
    else Ok(Header(U16At(data, pos), U16At(data, pos + 2), U16At(data, pos + 4),
                   U16At(data, pos + 6), U16At(data, pos + 8), U16At(data, pos + 10)))
  }

  function QuestionAt(data: seq<byte>, pos: nat): (r: Result<Parsed<Question>, WireError>)
    ensures r.Ok? ==> pos + 5 <= r.value.end <= |data|
  {
    var name :- NameAt(data, pos);
    if name.end + 4 > |data| then Err(ShortRead)
    else Ok(Parsed(Question(name.value, U16At(data, name.end), U16At(data, name.end + 2)), name.end + 4))
  }

  /** The alias a CNAME record's rdata names, read from the whole packet so that its pointers resolve. */
  function TargetAt(data: seq<byte>, rtype: u16, pos: nat): Option<Name> {
    if rtype != CNAME then None
    else
      match NameAt(data, pos)
      case Ok(p) => Some(p.value)
      case Err(_) => None
  }

  function RecordAt(data: seq<byte>, pos: nat): (r: Result<Parsed<Record>, WireError>)
    ensures r.Ok? ==> pos + 11 <= r.value.end <= |data|
  {
    var name :- NameAt(data, pos);
    var meta := name.end;
    if meta + 10 > |data| then Err(ShortRead)
    else
      var rtype, rdlength := U16At(data, meta), U16At(data, meta + 8);
      var end := meta + 10 + rdlength;
      if end > |data| then Err(ShortRead)
      else Ok(Parsed(Record(name.value, rtype, U16At(data, meta + 2), U32At(data, meta + 4),
                            data[meta + 10..end], TargetAt(data, rtype, meta + 10)), end))
  }

  function QuestionsAt(data: seq<byte>, pos: nat, n: nat): (r: Result<Parsed<seq<Question>>, WireError>)
    ensures r.Ok? ==> |r.value.value| == n && pos + 5 * n <= r.value.end && (n > 0 ==> r.value.end <= |data|)
    decreases n
  {
    if n == 0 then Ok(Parsed([], pos))
    else
      var first :- QuestionAt(data, pos);
      var rest :- QuestionsAt(data, first.end, n - 1);
      Ok(Parsed([first.value] + rest.value, rest.end))
  }

  function RecordsAt(data: seq<byte>, pos: nat, n: nat): (r: Result<Parsed<seq<Record>>, WireError>)
    ensures r.Ok? ==> |r.value.value| == n && pos + 11 * n <= r.value.end && (n > 0 ==> r.value.end <= |data|)
    decreases n
  {
    if n == 0 then Ok(Parsed([], pos))
    else
      var first :- RecordAt(data, pos);
      var rest :- RecordsAt(data, first.end, n - 1);
      Ok(Parsed([first.value] + rest.value, rest.end))
  }

  function MessageAt(data: seq<byte>): (r: Result<Message, WireError>)
  {
    var header :- HeaderAt(data, 0);
    var questions :- QuestionsAt(data, 12, header.qdcount);
    var answers :- RecordsAt(data, questions.end, header.ancount);
    var authorities :- RecordsAt(data, answers.end, header.nscount);
    var additionals :- RecordsAt(data, authorities.end, header.arcount);
    Ok(Message(header, questions.value, answers.value, authorities.value, additionals.value,
               SeesDo(additionals.value)))
  }

  /** Every parsed element has its minimum size in the packet, and the sections are as long as the header says. */
  lemma ParsedSize(data: seq<byte>)
    requires MessageAt(data).Ok?
    ensures var m := MessageAt(data).value;
            && 12 + 5 * |m.questions| + 11 * (|m.answers| + |m.authorities| + |m.additionals|) <= |data|
            && CountsAgree(m)
  {
    hide QuestionsAt, RecordsAt, SeesDo;
  }

  predicate CountsAgree(m: Message) {
    && m.header.qdcount == |m.questions|
    && m.header.ancount == |m.answers|
    && m.header.nscount == |m.authorities|
    && m.header.arcount == |m.additionals|
  }

  // ----- printing

  function HeaderBytes(h: Header): (b: seq<byte>)
    ensures |b| == 12
  {
    U16Bytes(h.id) + U16Bytes(h.flags) + U16Bytes(h.qdcount)
    + U16Bytes(h.ancount) + U16Bytes(h.nscount) + U16Bytes(h.arcount)
  }

  function QuestionBytes(q: Question): (b: seq<byte>)
    ensures |b| == |NameBytes(q.name)| + 4
  {
    NameBytes(q.name) + U16Bytes(q.qtype) + U16Bytes(q.qclass)
  }

  function RecordBytes(r: Record): (b: seq<byte>)
    ensures |b| == |NameBytes(r.name)| + 10 + |r.rdata|
  {
    NameBytes(r.name) + U16Bytes(r.rtype) + U16Bytes(r.rclass) + U32Bytes(r.ttl)
    + U16Bytes(|r.rdata| % 0x1_0000) + r.rdata
  }

  function QuestionsBytes(qs: seq<Question>): seq<byte> {
    if qs == [] then [] else QuestionBytes(qs[0]) + QuestionsBytes(qs[1..])
  }

  function RecordsBytes(rs: seq<Record>): seq<byte> {
    if rs == [] then [] else RecordBytes(rs[0]) + RecordsBytes(rs[1..])
  }

  /** Printing recomputes only the additional count; the other counts are printed as the header has them. */
  function MessageBytes(m: Message): seq<byte> {
    HeaderBytes(m.header.(arcount := |m.additionals| % 0x1_0000)) + QuestionsBytes(m.questions)
    + RecordsBytes(m.answers) + RecordsBytes(m.authorities) + RecordsBytes(m.additionals)
  }

  lemma {:induction false} QuestionsBytesConcat(a: seq<Question>, b: seq<Question>)
    ensures QuestionsBytes(a + b) == QuestionsBytes(a) + QuestionsBytes(b)
  {
    hide QuestionBytes;
    if a == [] {
      assert a + b == b;
    } else {
      assert (a + b)[1..] == a[1..] + b;
      QuestionsBytesConcat(a[1..], b);
    }
  }

  lemma {:induction false} RecordsBytesConcat(a: seq<Record>, b: seq<Record>)
    ensures RecordsBytes(a + b) == RecordsBytes(a) + RecordsBytes(b)
  {
    hide RecordBytes;
    if a == [] {
      assert a + b == b;
    } else {
      assert (a + b)[1..] == a[1..] + b;
      RecordsBytesConcat(a[1..], b);
    }
  }

  lemma EmptySections()
    ensures QuestionsBytes([]) == [] && RecordsBytes([]) == []
  {
  }

  lemma QuestionsBytesSnoc(qs: seq<Question>, i: nat)
    requires i < |qs|
    ensures QuestionsBytes(qs[..i + 1]) == QuestionsBytes(qs[..i]) + QuestionBytes(qs[i])
  {
    hide QuestionBytes;
    assert qs[..i + 1] == qs[..i] + [qs[i]];
    QuestionsBytesConcat(qs[..i], [qs[i]]);
    assert QuestionsBytes([qs[i]]) == QuestionBytes(qs[i]) + QuestionsBytes([qs[i]][1..]);
  }

  lemma RecordsBytesSnoc(rs: seq<Record>, i: nat)
    requires i < |rs|
    ensures RecordsBytes(rs[..i + 1]) == RecordsBytes(rs[..i]) + RecordBytes(rs[i])
  {
    hide RecordBytes;
    assert rs[..i + 1] == rs[..i] + [rs[i]];
    RecordsBytesConcat(rs[..i], [rs[i]]);
    assert RecordsBytes([rs[i]]) == RecordBytes(rs[i]) + RecordsBytes([rs[i]][1..]);
  }

  // ----- what a printed element reads back as

  ghost predicate PrintableQuestion(q: Question) {
    Printable(q.name)
  }

  ghost predicate PrintableRecord(r: Record) {
    Printable(r.name) && |r.rdata| < 0x1_0000
  }

  function CanonQuestion(q: Question): Question {
    q.(name := Canon(q.name))
  }

  /** The alias is determined by the rdata alone: there is none to read, or it is pointer-free and was read. */
  ghost predicate SelfContained(r: Record) {
    if r.rtype != CNAME then r.cnameTarget == None
    else Plain(r.rdata, 0) && r.cnameTarget == TargetAt(r.rdata, CNAME, 0)
  }

  /** `got` is `r` after a trip over the wire: canonical name, everything else kept, the alias read afresh. */
  ghost predicate Survives(r: Record, got: Record) {
    && got.(cnameTarget := None) == r.(name := Canon(r.name), cnameTarget := None)
    && (r.rtype != CNAME ==> got.cnameTarget == None)
    && (SelfContained(r) ==> got.cnameTarget == r.cnameTarget)
  }

  ghost predicate AllSurvive(rs: seq<Record>, got: seq<Record>) {
    |rs| == |got| && forall i :: 0 <= i < |rs| ==> Survives(rs[i], got[i])
  }

  lemma HeaderReadBack(data: seq<byte>, pos: nat, h: Header)
    requires At(data, pos, HeaderBytes(h))
    ensures HeaderAt(data, pos) == Ok(h)
  {
    var a, b, c, d, e :=
      U16Bytes(h.id), U16Bytes(h.flags), U16Bytes(h.qdcount), U16Bytes(h.ancount), U16Bytes(h.nscount);
    AtConcat(data, pos, a + b + c + d + e, U16Bytes(h.arcount));
    AtConcat(data, pos, a + b + c + d, e);
    AtConcat(data, pos, a + b + c, d);
    AtConcat(data, pos, a + b, c);
    AtConcat(data, pos, a, b);
    AtU16(data, pos, h.id);
    AtU16(data, pos + 2, h.flags);
    AtU16(data, pos + 4, h.qdcount);
    AtU16(data, pos + 6, h.ancount);
    AtU16(data, pos + 8, h.nscount);
    AtU16(data, pos + 10, h.arcount);
  }

  lemma QuestionReadBack(data: seq<byte>, pos: nat, q: Question)
    requires PrintableQuestion(q) && At(data, pos, QuestionBytes(q))
    ensures QuestionAt(data, pos) == Ok(Parsed(CanonQuestion(q), pos + |QuestionBytes(q)|))
  {
    hide NameAt, NameBytes, Canon, Printable;
    var name := NameBytes(q.name);
    AtConcat(data, pos, name + U16Bytes(q.qtype), U16Bytes(q.qclass));
    AtConcat(data, pos, name, U16Bytes(q.qtype));
    ReadPrinted(data, pos, q.name);
    AtU16(data, pos + |name|, q.qtype);
    AtU16(data, pos + |name| + 2, q.qclass);
  }

  lemma TargetReadBack(data: seq<byte>, pos: nat, r: Record)
    requires At(data, pos, r.rdata) && SelfContained(r)
    ensures TargetAt(data, r.rtype, pos) == r.cnameTarget
  {
    hide LabelsFrom;
    if r.rtype == CNAME {
      PlainIsLocal(data, pos, r.rdata, 0, 0);
    }
  }

  /** The fixed part of a record between its name and its rdata. */
  function MetaBytes(r: Record): (b: seq<byte>)
    ensures |b| == 10
  {
    U16Bytes(r.rtype) + U16Bytes(r.rclass) + U32Bytes(r.ttl) + U16Bytes(|r.rdata| % 0x1_0000)
  }

  lemma MetaReadBack(data: seq<byte>, pos: nat, r: Record)
    requires |r.rdata| < 0x1_0000 && At(data, pos, MetaBytes(r))
    ensures U16At(data, pos) == r.rtype && U16At(data, pos + 2) == r.rclass
    ensures U32At(data, pos + 4) == r.ttl && U16At(data, pos + 8) == |r.rdata|
  {
    hide U16At, U32At, U16Bytes, U32Bytes;
    var rtype, rclass, ttl, len :=
      U16Bytes(r.rtype), U16Bytes(r.rclass), U32Bytes(r.ttl), U16Bytes(|r.rdata| % 0x1_0000);
    AtConcat(data, pos, rtype + rclass + ttl, len);
    AtConcat(data, pos, rtype + rclass, ttl);
    AtConcat(data, pos, rtype, rclass);
    AtU16(data, pos, r.rtype);
    AtU16(data, pos + 2, r.rclass);
    AtU32(data, pos + 4, r.ttl);
    AtU16(data, pos + 8, |r.rdata|);
  }

  lemma RecordReadBack(data: seq<byte>, pos: nat, r: Record) returns (got: Record)
    requires PrintableRecord(r) && At(data, pos, RecordBytes(r))
    ensures RecordAt(data, pos) == Ok(Parsed(got, pos + |RecordBytes(r)|))
    ensures Survives(r, got)
  {
    hide NameAt, NameBytes, Canon, Printable, TargetAt, SelfContained, MetaBytes, U16At, U32At;
    var name := NameBytes(r.name);
    assert RecordBytes(r) == name + (MetaBytes(r) + r.rdata) by {
      RecordLayout(r);
    }
    AtConcat(data, pos, name, MetaBytes(r) + r.rdata);
    AtConcat(data, pos + |name|, MetaBytes(r), r.rdata);
    ReadPrinted(data, pos, r.name);
    var meta := pos + |name|;
    MetaReadBack(data, meta, r);
    got := Record(Canon(r.name), r.rtype, r.rclass, r.ttl, r.rdata, TargetAt(data, r.rtype, meta + 10));
    if SelfContained(r) {
      TargetReadBack(data, meta + 10, r);
    }
    TargetOnlyForCname(data, r.rtype, meta + 10);
  }

  lemma RecordLayout(r: Record)
    ensures RecordBytes(r) == NameBytes(r.name) + (MetaBytes(r) + r.rdata)
  {
    hide NameBytes, U16Bytes, U32Bytes;
  }

  lemma TargetOnlyForCname(data: seq<byte>, rtype: u16, pos: nat)
    ensures rtype != CNAME ==> TargetAt(data, rtype, pos) == None
  {
  }

  function CanonQuestions(qs: seq<Question>): (r: seq<Question>)
    ensures |r| == |qs|
  {
    if qs == [] then [] else [CanonQuestion(qs[0])] + CanonQuestions(qs[1..])
  }

  lemma QuestionsCons(data: seq<byte>, pos: nat, n: nat, first: Parsed<Question>, rest: Parsed<seq<Question>>)
    requires n > 0 && QuestionAt(data, pos) == Ok(first) && QuestionsAt(data, first.end, n - 1) == Ok(rest)
    ensures QuestionsAt(data, pos, n) == Ok(Parsed([first.value] + rest.value, rest.end))
  {
  }

  lemma RecordsCons(data: seq<byte>, pos: nat, n: nat, first: Parsed<Record>, rest: Parsed<seq<Record>>)
    requires n > 0 && RecordAt(data, pos) == Ok(first) && RecordsAt(data, first.end, n - 1) == Ok(rest)
    ensures RecordsAt(data, pos, n) == Ok(Parsed([first.value] + rest.value, rest.end))
  {
  }

  ghost predicate QuestionsRead(data: seq<byte>, pos: nat, qs: seq<Question>) {
    QuestionsAt(data, pos, |qs|) == Ok(Parsed(CanonQuestions(qs), pos + |QuestionsBytes(qs)|))
  }

  lemma {:induction false} QuestionsReadBack(data: seq<byte>, pos: nat, qs: seq<Question>)
    requires forall q <- qs :: PrintableQuestion(q)
    requires pos <= |data| && At(data, pos, QuestionsBytes(qs))
    ensures QuestionsRead(data, pos, qs)
    decreases |qs|
  {
    hide At, QuestionAt, QuestionBytes, QuestionsBytes, CanonQuestion, PrintableQuestion, QuestionsRead;
    if qs == [] {
      NoQuestionsRead(data, pos, qs);
    } else {
      QuestionsUnfold(qs);
      AtConcat(data, pos, QuestionBytes(qs[0]), QuestionsBytes(qs[1..]));
      QuestionReadBack(data, pos, qs[0]);
      QuestionsReadBack(data, pos + |QuestionBytes(qs[0])|, qs[1..]);
      QuestionsReadCons(data, pos, qs);
    }
  }

  lemma NoQuestionsRead(data: seq<byte>, pos: nat, qs: seq<Question>)
    requires qs == []
    ensures QuestionsRead(data, pos, qs)
  {
  }

  lemma QuestionsReadCons(data: seq<byte>, pos: nat, qs: seq<Question>)
    requires qs != []
    requires QuestionAt(data, pos) == Ok(Parsed(CanonQuestion(qs[0]), pos + |QuestionBytes(qs[0])|))
    requires QuestionsRead(data, pos + |QuestionBytes(qs[0])|, qs[1..])
    ensures QuestionsRead(data, pos, qs)
  {
    hide QuestionAt, QuestionBytes, CanonQuestion, QuestionsAt, QuestionsBytes, CanonQuestions;
    var mid, rest := pos + |QuestionBytes(qs[0])|, qs[1..];
    QuestionsUnfold(qs);
    QuestionsCons(data, pos, |qs|, Parsed(CanonQuestion(qs[0]), mid),
                  Parsed(CanonQuestions(rest), mid + |QuestionsBytes(rest)|));
  }

  lemma QuestionsUnfold(qs: seq<Question>)
    ensures qs == [] ==> QuestionsBytes(qs) == [] && CanonQuestions(qs) == []
    ensures qs != [] ==>
              && QuestionsBytes(qs) == QuestionBytes(qs[0]) + QuestionsBytes(qs[1..])
              && CanonQuestions(qs) == [CanonQuestion(qs[0])] + CanonQuestions(qs[1..])
  {
  }

  lemma NoneAt(data: seq<byte>, pos: nat)
    ensures QuestionsAt(data, pos, 0) == Ok(Parsed([], pos)) && RecordsAt(data, pos, 0) == Ok(Parsed([], pos))
  {
  }

  lemma {:induction false} RecordsReadBack(data: seq<byte>, pos: nat, rs: seq<Record>) returns (got: seq<Record>)
    requires forall r <- rs :: PrintableRecord(r)
    requires pos <= |data| && At(data, pos, RecordsBytes(rs))
    ensures RecordsAt(data, pos, |rs|) == Ok(Parsed(got, pos + |RecordsBytes(rs)|))
    ensures AllSurvive(rs, got)
    decreases |rs|
  {
    hide At, RecordAt, RecordBytes, Survives, PrintableRecord, RecordsAt, AllSurvive;
    if rs == [] {
      got := [];
      NoneAt(data, pos);
      assert AllSurvive(rs, got) by { NoneSurvive(rs, got); }
    } else {
      var mid := pos + |RecordBytes(rs[0])|;
      AtConcat(data, pos, RecordBytes(rs[0]), RecordsBytes(rs[1..]));
      var first := RecordReadBack(data, pos, rs[0]);
      var rest := RecordsReadBack(data, mid, rs[1..]);
      got := [first] + rest;
      RecordsCons(data, pos, |rs|, Parsed(first, mid), Parsed(rest, mid + |RecordsBytes(rs[1..])|));
      AllSurviveCons(rs, first, rest);
    }
  }

  lemma NoneSurvive(rs: seq<Record>, got: seq<Record>)
    requires rs == got == []
    ensures AllSurvive(rs, got)
  {
  }

  lemma AllSurviveCons(rs: seq<Record>, first: Record, rest: seq<Record>)
    requires rs != [] && Survives(rs[0], first) && AllSurvive(rs[1..], rest)
    ensures AllSurvive(rs, [first] + rest)
  {
    hide Survives;
    var got := [first] + rest;
    forall i | 0 <= i < |rs|
      ensures Survives(rs[i], got[i])
    {
      if i > 0 {
        assert Survives(rs[1..][i - 1], rest[i - 1]);
      }
    }
  }

  /** The elements can all be printed and the header announces exactly what follows it. */
  ghost predicate PrintableMessage(m: Message) {
    && m.header.qdcount == |m.questions| && m.header.ancount == |m.answers|
    && m.header.nscount == |m.authorities| && |m.additionals| < 0x1_0000
    && (forall q <- m.questions :: PrintableQuestion(q))
    && (forall r <- m.answers :: PrintableRecord(r))
    && (forall r <- m.authorities :: PrintableRecord(r))
    && (forall r <- m.additionals :: PrintableRecord(r))
  }

  /** `got` is `m` after a trip over the wire. */
  ghost predicate MessageSurvives(m: Message, got: Message) {
    && got.header == m.header.(arcount := |m.additionals| % 0x1_0000)
    && got.questions == CanonQuestions(m.questions)
    && AllSurvive(m.answers, got.answers)
    && AllSurvive(m.authorities, got.authorities)
    && AllSurvive(m.additionals, got.additionals)
    && got.ednsDo == SeesDo(m.additionals)
  }

  lemma SeesDoSurvives(rs: seq<Record>, got: seq<Record>)
    requires AllSurvive(rs, got)
    ensures SeesDo(rs) == SeesDo(got)
  {
    hide Canon;
    if SeesDo(rs) {
      var i :| 0 <= i < |rs| && rs[i].rtype == OPT && DoBit(rs[i].ttl);
      assert Survives(rs[i], got[i]);
      assert got[i] in got;
    }
    if SeesDo(got) {
      var i :| 0 <= i < |got| && got[i].rtype == OPT && DoBit(got[i].ttl);
      assert Survives(rs[i], got[i]);
      assert rs[i] in rs;
    }
  }

  /**
   Whatever printable message is printed, with anything after it, is read back: names canonical, the rest as it was.
   */
  lemma MessageReadBack(m: Message, suffix: seq<byte>) returns (got: Message)
    requires PrintableMessage(m)
    ensures MessageAt(MessageBytes(m) + suffix) == Ok(got)
    ensures MessageSurvives(m, got)
  {
    hide HeaderAt, HeaderBytes, QuestionsAt, RecordsAt, QuestionsBytes, RecordsBytes, SeesDo,
      PrintableQuestion, PrintableRecord, CanonQuestions, AllSurvive;
    var data := MessageBytes(m) + suffix;
    var h := m.header.(arcount := |m.additionals| % 0x1_0000);
    var hb, qb, an, ns, ar := HeaderBytes(h), QuestionsBytes(m.questions),
      RecordsBytes(m.answers), RecordsBytes(m.authorities), RecordsBytes(m.additionals);
    assert At(data, 0, hb + qb + an + ns + ar);
    AtConcat(data, 0, hb + qb + an + ns, ar);
    AtConcat(data, 0, hb + qb + an, ns);
    AtConcat(data, 0, hb + qb, an);
    AtConcat(data, 0, hb, qb);
    HeaderReadBack(data, 0, h);
    QuestionsReadBack(data, |hb|, m.questions);
    var answers := RecordsReadBack(data, |hb + qb|, m.answers);
    var authorities := RecordsReadBack(data, |hb + qb + an|, m.authorities);
    var additionals := RecordsReadBack(data, |hb + qb + an + ns|, m.additionals);
    SeesDoSurvives(m.additionals, additionals);
    AllSurviveLength(m, answers, authorities, additionals);
    got := Message(h, CanonQuestions(m.questions), answers, authorities, additionals, SeesDo(additionals));
  }

  lemma AllSurviveLength(m: Message, answers: seq<Record>, authorities: seq<Record>, additionals: seq<Record>)
    requires AllSurvive(m.answers, answers) && AllSurvive(m.authorities, authorities)
             && AllSurvive(m.additionals, additionals)
    ensures |m.answers| == |answers| && |m.authorities| == |authorities| && |m.additionals| == |additionals|
  {
  }

  // ----- the exact round trip

  /** A message that says of itself what parsing would: counts, canonical names, aliases and the DO summary. */
  ghost predicate Settled(m: Message) {
    && CountsAgree(m)
    && m.ednsDo == SeesDo(m.additionals)
    && (forall q <- m.questions :: NoEmptyPiece(q.name))
    && (forall r <- m.answers + m.authorities + m.additionals :: NoEmptyPiece(r.name) && SelfContained(r))
  }

  lemma SettledRecords(rs: seq<Record>, got: seq<Record>)
    requires AllSurvive(rs, got) && forall r <- rs :: NoEmptyPiece(r.name) && SelfContained(r)
    ensures got == rs
  {
    hide SelfContained, Canon, NoEmptyPiece;
    forall i | 0 <= i < |rs|
      ensures got[i] == rs[i]
    {
      assert Survives(rs[i], got[i]) && rs[i] in rs;
      CanonFixpoint(rs[i].name);
    }
  }

  lemma {:induction false} SettledQuestions(qs: seq<Question>)
    requires forall q <- qs :: NoEmptyPiece(q.name)
    ensures CanonQuestions(qs) == qs
  {
    hide Canon, NoEmptyPiece;
    if qs == [] {
    } else {
      CanonFixpoint(qs[0].name);
      SettledQuestions(qs[1..]);
    }
  }

  /** Parsing undoes printing, whatever follows the message in the buffer. */
  lemma RoundTrip(m: Message, suffix: seq<byte>)
    requires PrintableMessage(m) && Settled(m)
    ensures MessageAt(MessageBytes(m) + suffix) == Ok(m)
  {
    hide MessageAt, MessageBytes, PrintableMessage, AllSurvive, SelfContained, Canon, NoEmptyPiece;
    var got := MessageReadBack(m, suffix);
    assert forall r <- m.answers :: r in m.answers + m.authorities + m.additionals;
    assert forall r <- m.authorities :: r in m.answers + m.authorities + m.additionals;
    assert forall r <- m.additionals :: r in m.answers + m.authorities + m.additionals;
    SettledRecords(m.answers, got.answers);
    SettledRecords(m.authorities, got.authorities);
    SettledRecords(m.additionals, got.additionals);
    SettledQuestions(m.questions);
    assert got == m;
  }

  // ----- everything that was parsed can be printed

  lemma {:induction false} ParsedQuestionsPrintable(data: seq<byte>, pos: nat, n: nat)
    requires QuestionsAt(data, pos, n).Ok?
    ensures forall q <- QuestionsAt(data, pos, n).value.value :: PrintableQuestion(q)
    decreases n
  {
    hide NameAt, Printable;
    if n == 0 {
    } else {
      ReadNamesArePrintable(data, pos);
      ParsedQuestionsPrintable(data, QuestionAt(data, pos).value.end, n - 1);
    }
  }

  lemma {:induction false} ParsedRecordsPrintable(data: seq<byte>, pos: nat, n: nat)
    requires RecordsAt(data, pos, n).Ok?
    ensures forall r <- RecordsAt(data, pos, n).value.value ::
              PrintableRecord(r) && (r.rtype != CNAME ==> r.cnameTarget == None)
    decreases n
  {
    hide NameAt, Printable;
    if n == 0 {
    } else {
      ReadNamesArePrintable(data, pos);
      ParsedRecordsPrintable(data, RecordAt(data, pos).value.end, n - 1);
    }
  }

  lemma ParsedPrintable(data: seq<byte>)
    requires MessageAt(data).Ok?
    ensures PrintableMessage(MessageAt(data).value)
    ensures forall r <- MessageAt(data).value.additionals :: r.rtype != CNAME ==> r.cnameTarget == None
  {
    hide QuestionsAt, RecordsAt, SeesDo, PrintableQuestion, PrintableRecord;
    var h := HeaderAt(data, 0).value;
    var questions := QuestionsAt(data, 12, h.qdcount).value;
    var answers := RecordsAt(data, questions.end, h.ancount).value;
    var authorities := RecordsAt(data, answers.end, h.nscount).value;
    ParsedQuestionsPrintable(data, 12, h.qdcount);
    ParsedRecordsPrintable(data, questions.end, h.ancount);
    ParsedRecordsPrintable(data, answers.end, h.nscount);
    ParsedRecordsPrintable(data, authorities.end, h.arcount);
  }
}
