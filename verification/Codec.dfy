/** The parser and the printer as the program runs them: a cursor that moves and buffers that grow. */
module Codec {
  import opened Bytes
  import opened Names
  import opened Wire

  /** A read position in a packet. Seeking past the end is allowed; reading there fails. */
  class Cursor {
    const data: seq<byte>
    var pos: nat

    constructor (data: seq<byte>)
      ensures this.data == data && pos == 0
    {
      this.data := data;
      pos := 0;
    }

    method ReadExact(n: nat) returns (r: Result<seq<byte>, WireError>)
      modifies this
      ensures r == if old(pos) + n <= |data| then Ok(data[old(pos)..old(pos) + n]) else Err(ShortRead)
      ensures r.Ok? ==> pos == old(pos) + n
    {
      if pos + n > |data| {
        return Err(ShortRead);
      }
      r := Ok(data[pos..pos + n]);
      pos := pos + n;
    }
  }

  // ----- parsing

  /** The outcome of a whole read, given the labels gathered so far, where to resume, and the outcome of the rest. */
  ghost function Resumed(labels: seq<Label>, jumped: bool, jumpPos: nat, rest: Result<Parsed<seq<Label>>, WireError>)
    : Result<Parsed<seq<Label>>, WireError>
  {
    if rest.Err? then rest
    else Ok(Parsed(labels + rest.value.value, if jumped then jumpPos else rest.value.end))
  }

  lemma ResumedFromStart(rest: Result<Parsed<seq<Label>>, WireError>)
    ensures Resumed([], false, 0, rest) == rest
  {
    if rest.Ok? {
      assert [] + rest.value.value == rest.value.value;
    }
  }

  /** One turn of the reader's loop, in the terms in which the loop tests the packet. */
  lemma OneLink(data: seq<byte>, pos: nat, jumps: nat)
    requires jumps <= MAX_JUMPS
    ensures pos >= |data| ==> LabelsFrom(data, pos, jumps) == Err(EndOfData)
    ensures pos < |data| && data[pos] == 0 ==> LabelsFrom(data, pos, jumps) == Ok(Parsed([], pos + 1))
    ensures pos < |data| && data[pos] >= COMPRESSED ==>
              LabelsFrom(data, pos, jumps) ==
              if pos + 1 >= |data| then Err(TruncatedPointer)
              else if PointerTarget(data, pos) >= |data| then Err(PointerOutOfBounds)
              else if jumps == MAX_JUMPS then Err(TooManyJumps)
              else Resumed([], true, pos + 2, LabelsFrom(data, PointerTarget(data, pos), jumps + 1))
    ensures pos < |data| && 0 < data[pos] < COMPRESSED ==>
              var next := pos + 1 + data[pos];
              LabelsFrom(data, pos, jumps) ==
              if next > |data| then Err(TruncatedLabel)
              else if !ValidUtf8(data[pos + 1..next]) then Err(InvalidUtf8)
              else Resumed([data[pos + 1..next]], false, 0, LabelsFrom(data, next, jumps))
  {
    hide ValidUtf8;
    if pos + 1 < |data| && data[pos] >= COMPRESSED && PointerTarget(data, pos) < |data| && jumps < MAX_JUMPS {
      var rest := LabelsFrom(data, PointerTarget(data, pos), jumps + 1);
      if rest.Ok? {
        assert [] + rest.value.value == rest.value.value;
      }
    }
  }

  lemma ResumedTwice(labels: seq<Label>, jumped: bool, jumpPos: nat, more: seq<Label>, jumps': bool, jumpPos': nat,
                     rest: Result<Parsed<seq<Label>>, WireError>)
    ensures Resumed(labels, jumped, jumpPos, Resumed(more, jumps', jumpPos', rest))
         == Resumed(labels + more, jumped || jumps', if jumped then jumpPos else jumpPos', rest)
  {
    if rest.Ok? {
      assert labels + (more + rest.value.value) == labels + more + rest.value.value;
    }
  }

  /** The same turn, in octets examined. */
  lemma OneScan(data: seq<byte>, pos: nat, jumps: nat)
    requires jumps <= MAX_JUMPS
    ensures pos >= |data| ==> Scanned(data, pos, jumps) == 0
    ensures pos < |data| && data[pos] == 0 ==> Scanned(data, pos, jumps) == 1
    ensures pos < |data| && data[pos] >= COMPRESSED ==>
              Scanned(data, pos, jumps) ==
              if pos + 1 >= |data| || PointerTarget(data, pos) >= |data| then |data| - pos
              else if jumps == MAX_JUMPS then 2
              else 2 + Scanned(data, PointerTarget(data, pos), jumps + 1)
    ensures pos < |data| && 0 < data[pos] < COMPRESSED ==>
              var next := pos + 1 + data[pos];
              Scanned(data, pos, jumps) ==
              if next > |data| || !ValidUtf8(data[pos + 1..next]) then |data| - pos
              else next - pos + Scanned(data, next, jumps)
  {
    hide ValidUtf8;
  }

  /**
   `scanned` counts the octets the loop examines; a turn that fails is charged with all that is left of the packet.
   */
  method ParseName(reader: Cursor) returns (r: Result<Name, WireError>, ghost scanned: nat)
    modifies reader
    ensures var spec := NameAt(reader.data, old(reader.pos));
            if spec.Ok? then r == Ok(spec.value.value) && reader.pos == spec.value.end
            else r == Err(spec.error)
    ensures scanned == Scanned(reader.data, old(reader.pos), 0) <= (MAX_JUMPS + 1) * |reader.data|
  {
    hide ValidUtf8, LabelsFrom, PointerTarget, Scanned;
    var data := reader.data;
    scanned := 0;
    NameScanBound(data, reader.pos);
    var labels: seq<Label>, jumps, jumped, jumpPos := [], 0, false, 0;
    ResumedFromStart(LabelsFrom(data, reader.pos, 0));
    while true
      invariant jumps <= MAX_JUMPS && (jumped <==> jumps > 0)
      invariant LabelsFrom(data, old(reader.pos), 0)
             == Resumed(labels, jumped, jumpPos, LabelsFrom(data, reader.pos, jumps))
      invariant scanned + Scanned(data, reader.pos, jumps) == Scanned(data, old(reader.pos), 0)
      decreases MAX_JUMPS - jumps, |data| - reader.pos
    {
      var pos := reader.pos;
      OneLink(data, pos, jumps);
      OneScan(data, pos, jumps);
      if pos >= |data| {
        return Err(EndOfData), scanned;
      }
      ghost var rest := scanned + (|data| - pos);
      var len := data[pos];
      if len == 0 {
        assert labels + [] == labels;
        if !jumped {
          reader.pos := pos + 1;
        }
        scanned := scanned + 1;
        break;
      } else if len >= COMPRESSED {
        if pos + 1 >= |data| {
          return Err(TruncatedPointer), rest;
        }
        var offset := PointerTarget(data, pos);
        if offset >= |data| {
          return Err(PointerOutOfBounds), rest;
        }
        if jumps < MAX_JUMPS {
          ResumedTwice(labels, jumped, jumpPos, [], true, pos + 2, LabelsFrom(data, offset, jumps + 1));
        }
        assert labels + [] == labels;
        if !jumped {
          jumpPos := pos + 2;
          jumped := true;
        }
        reader.pos := offset;
        jumps := jumps + 1;
        scanned := scanned + 2;
        if jumps > MAX_JUMPS {
          return Err(TooManyJumps), scanned;
        }
      } else {
        var labelStart := pos + 1;
        var labelEnd := labelStart + len;
        if labelEnd > |data| {
          return Err(TruncatedLabel), rest;
        }
        if !ValidUtf8(data[labelStart..labelEnd]) {
          return Err(InvalidUtf8), rest;
        }
        ResumedTwice(labels, jumped, jumpPos, [data[labelStart..labelEnd]], false, 0,
            LabelsFrom(data, labelEnd, jumps));
        labels := labels + [data[labelStart..labelEnd]];
        reader.pos := labelEnd;
        scanned := scanned + (labelEnd - pos);
      }
    }
    assert LabelsFrom(data, old(reader.pos), 0) == Ok(Parsed(labels, if jumped then jumpPos else reader.pos));
    if jumped {
      reader.pos := jumpPos;
    }
    return Ok(Join(labels)), scanned;
  }

  method ParseHeader(reader: Cursor) returns (r: Result<Header, WireError>)
    modifies reader
    ensures r == HeaderAt(reader.data, old(reader.pos))
    ensures r.Ok? ==> reader.pos == old(reader.pos) + 12
  {
    var buf :- reader.ReadExact(12);
    return Ok(Header(U16At(buf, 0), U16At(buf, 2), U16At(buf, 4), U16At(buf, 6), U16At(buf, 8), U16At(buf, 10)));
  }

  method ParseQuestion(reader: Cursor) returns (r: Result<Question, WireError>)
    modifies reader
    ensures var spec := QuestionAt(reader.data, old(reader.pos));
            if spec.Ok? then r == Ok(spec.value.value) && reader.pos == spec.value.end
            else r == Err(spec.error)
  {
    hide NameAt;
    var name, scanned :- ParseName(reader);
    var buf :- reader.ReadExact(4);
    return Ok(Question(name, U16At(buf, 0), U16At(buf, 2)));
  }

  lemma MetaSlice(data: seq<byte>, pos: nat)
    requires pos + 10 <= |data|
    ensures var meta := data[pos..pos + 10];
            && U16At(meta, 0) == U16At(data, pos) && U16At(meta, 2) == U16At(data, pos + 2)
            && U32At(meta, 4) == U32At(data, pos + 4) && U16At(meta, 8) == U16At(data, pos + 8)
  {
  }

  lemma TargetIs(data: seq<byte>, rtype: u16, pos: nat)
    ensures TargetAt(data, rtype, pos) ==
            if rtype != CNAME then None
            else if NameAt(data, pos).Ok? then Some(NameAt(data, pos).value.value)
            else None
  {
    hide NameAt;
  }

  method ParseRecord(reader: Cursor) returns (r: Result<Record, WireError>)
    modifies reader
    ensures var spec := RecordAt(reader.data, old(reader.pos));
            if spec.Ok? then r == Ok(spec.value.value) && reader.pos == spec.value.end
            else r == Err(spec.error)
  {
    hide NameAt, U16At, U32At, Scanned, TargetAt;
    var name, scanned :- ParseName(reader);
    var meta :- reader.ReadExact(10);
    MetaSlice(reader.data, reader.pos - 10);
    var rtype, rclass, ttl, rdlength := U16At(meta, 0), U16At(meta, 2), U32At(meta, 4), U16At(meta, 8);
    var cnameTarget := None;
    if rtype == CNAME {
      var saved := reader.pos;
      var target, targetScanned := ParseName(reader);
      cnameTarget := target.ToOption();
      reader.pos := saved;
    }
    TargetIs(reader.data, rtype, reader.pos);
    var rdata :- reader.ReadExact(rdlength);
    return Ok(Record(name, rtype, rclass, ttl, rdata, cnameTarget));
  }

  /** Elements already read, followed by the outcome of reading the others. */
  ghost function Prepended<T>(done: seq<T>, rest: Result<Parsed<seq<T>>, WireError>): Result<Parsed<seq<T>>,
                              WireError> {
    if rest.Err? then rest else Ok(Parsed(done + rest.value.value, rest.value.end))
  }

  lemma NonePrepended<T>(rest: Result<Parsed<seq<T>>, WireError>)
    ensures Prepended([], rest) == rest
  {
    if rest.Ok? {
      assert [] + rest.value.value == rest.value.value;
    }
  }

  lemma NoneFollow<T>(done: seq<T>, pos: nat)
    ensures Prepended(done, Ok(Parsed([], pos))) == Ok(Parsed(done, pos))
  {
    assert done + [] == done;
  }

  lemma PrependedTwice<T>(done: seq<T>, x: T, rest: Result<Parsed<seq<T>>, WireError>)
    ensures Prepended(done, Prepended([x], rest)) == Prepended(done + [x], rest)
  {
    if rest.Ok? {
      assert done + ([x] + rest.value.value) == done + [x] + rest.value.value;
    }
  }

  lemma QuestionsStep(data: seq<byte>, pos: nat, n: nat)
    ensures QuestionsAt(data, pos, 0) == Ok(Parsed([], pos))
    ensures n > 0 && QuestionAt(data, pos).Err? ==> QuestionsAt(data, pos, n) == Err(QuestionAt(data, pos).error)
    ensures n > 0 && QuestionAt(data, pos).Ok? ==>
              var first := QuestionAt(data, pos).value;
              QuestionsAt(data, pos, n) == Prepended([first.value], QuestionsAt(data, first.end, n - 1))
  {
    hide QuestionAt;
  }

  lemma RecordsStep(data: seq<byte>, pos: nat, n: nat)
    ensures RecordsAt(data, pos, 0) == Ok(Parsed([], pos))
    ensures n > 0 && RecordAt(data, pos).Err? ==> RecordsAt(data, pos, n) == Err(RecordAt(data, pos).error)
    ensures n > 0 && RecordAt(data, pos).Ok? ==>
              var first := RecordAt(data, pos).value;
              RecordsAt(data, pos, n) == Prepended([first.value], RecordsAt(data, first.end, n - 1))
  {
    hide RecordAt;
  }

  method ParseQuestions(reader: Cursor, n: nat) returns (r: Result<seq<Question>, WireError>)
    modifies reader
    ensures var spec := QuestionsAt(reader.data, old(reader.pos), n);
            if spec.Ok? then r == Ok(spec.value.value) && reader.pos == spec.value.end
            else r == Err(spec.error)
  {
    hide QuestionAt, QuestionsAt;
    var questions := [];
    NonePrepended(QuestionsAt(reader.data, reader.pos, n));
    for i := 0 to n
      invariant QuestionsAt(reader.data, old(reader.pos), n)
             == Prepended(questions, QuestionsAt(reader.data, reader.pos, n - i))
    {
      QuestionsStep(reader.data, reader.pos, n - i);
      var q :- ParseQuestion(reader);
      PrependedTwice(questions, q, QuestionsAt(reader.data, reader.pos, n - i - 1));
      questions := questions + [q];
    }
    QuestionsStep(reader.data, reader.pos, 0);
    NoneFollow(questions, reader.pos);
    return Ok(questions);
  }

  method ParseRecords(reader: Cursor, n: nat) returns (r: Result<seq<Record>, WireError>)
    modifies reader
    ensures var spec := RecordsAt(reader.data, old(reader.pos), n);
            if spec.Ok? then r == Ok(spec.value.value) && reader.pos == spec.value.end
            else r == Err(spec.error)
  {
    hide RecordAt, RecordsAt;
    var records := [];
    NonePrepended(RecordsAt(reader.data, reader.pos, n));
    for i := 0 to n
      invariant RecordsAt(reader.data, old(reader.pos), n)
             == Prepended(records, RecordsAt(reader.data, reader.pos, n - i))
    {
      RecordsStep(reader.data, reader.pos, n - i);
      var rr :- ParseRecord(reader);
      PrependedTwice(records, rr, RecordsAt(reader.data, reader.pos, n - i - 1));
      records := records + [rr];
    }
    RecordsStep(reader.data, reader.pos, 0);
    NoneFollow(records, reader.pos);
    return Ok(records);
  }

  method ParseMessage(data: seq<byte>) returns (r: Result<Message, WireError>)
    ensures r == MessageAt(data)
  {
    hide HeaderAt, QuestionsAt, RecordsAt;
    var reader := new Cursor(data);
    var header :- ParseHeader(reader);
    var questions :- ParseQuestions(reader, header.qdcount);
    var answers :- ParseRecords(reader, header.ancount);
    var authorities :- ParseRecords(reader, header.nscount);
    var additionals :- ParseRecords(reader, header.arcount);
    var ednsDo := false;
    for i := 0 to |additionals|
      invariant ednsDo == SeesDo(additionals[..i])
    {
      assert additionals[..i + 1] == additionals[..i] + [additionals[i]];
      if additionals[i].rtype == OPT {
        if DoBit(additionals[i].ttl) {
          ednsDo := true;
        }
      }
    }
    assert additionals[..|additionals|] == additionals;
    return Ok(Message(header, questions, answers, authorities, additionals, ednsDo));
  }

  // ----- printing

  method SerializeName(name: Name) returns (buf: seq<byte>)
    ensures buf == NameBytes(name)
  {
    hide Split, LabelBytes;
    buf := [];
    var pieces := Split(name);
    for i := 0 to |pieces|
      invariant buf == WireLabels(pieces[..i])
    {
      var piece := pieces[i];
      assert pieces[..i + 1] == pieces[..i] + [piece];
      WireLabelsConcat(pieces[..i], [piece]);
      OneLabel(piece);
      if piece != [] {
        buf := buf + [|piece| % 0x100];
        buf := buf + piece;
      }
    }
    assert pieces[..|pieces|] == pieces;
    buf := buf + [0];
  }

  lemma OneLabel(l: Label)
    ensures WireLabels([l]) == if l == [] then [] else [|l| % 0x100] + l
  {
    assert WireLabels([l]) == LabelBytes(l) + WireLabels([l][1..]);
  }

  method SerializeHeader(h: Header) returns (buf: seq<byte>)
    ensures buf == HeaderBytes(h)
  {
    buf := U16Bytes(h.id);
    buf := buf + U16Bytes(h.flags);
    buf := buf + U16Bytes(h.qdcount);
    buf := buf + U16Bytes(h.ancount);
    buf := buf + U16Bytes(h.nscount);
    buf := buf + U16Bytes(h.arcount);
  }

  method SerializeQuestion(q: Question) returns (buf: seq<byte>)
    ensures buf == QuestionBytes(q)
  {
    buf := SerializeName(q.name);
    buf := buf + U16Bytes(q.qtype);
    buf := buf + U16Bytes(q.qclass);
  }

  method SerializeRecord(r: Record) returns (buf: seq<byte>)
    ensures buf == RecordBytes(r)
  {
    buf := SerializeName(r.name);
    buf := buf + U16Bytes(r.rtype);
    buf := buf + U16Bytes(r.rclass);
    buf := buf + U32Bytes(r.ttl);
    buf := buf + U16Bytes(|r.rdata| % 0x1_0000);
    buf := buf + r.rdata;
  }

  lemma Associative(a: seq<byte>, b: seq<byte>, c: seq<byte>)
    ensures a + b + c == a + (b + c)
  {
  }

  method AppendQuestions(buf: seq<byte>, qs: seq<Question>) returns (out: seq<byte>)
    ensures out == buf + QuestionsBytes(qs)
  {
    hide QuestionBytes, QuestionsBytes;
    EmptySections();
    ghost var done: seq<byte> := [];
    assert qs[..0] == [];
    out := buf;
    for i := 0 to |qs|
      invariant done == QuestionsBytes(qs[..i]) && out == buf + done
    {
      var b := SerializeQuestion(qs[i]);
      Associative(buf, done, b);
      QuestionsBytesSnoc(qs, i);
      out := out + b;
      done := done + b;
    }
    assert qs[..|qs|] == qs;
  }

  method AppendRecords(buf: seq<byte>, rs: seq<Record>) returns (out: seq<byte>)
    ensures out == buf + RecordsBytes(rs)
  {
    hide RecordBytes, RecordsBytes;
    EmptySections();
    ghost var done: seq<byte> := [];
    assert rs[..0] == [];
    out := buf;
    for i := 0 to |rs|
      invariant done == RecordsBytes(rs[..i]) && out == buf + done
    {
      var b := SerializeRecord(rs[i]);
      Associative(buf, done, b);
      RecordsBytesSnoc(rs, i);
      out := out + b;
      done := done + b;
    }
    assert rs[..|rs|] == rs;
  }

  // ----- the message a handler edits in place

  function WithDo(ttl: u32): u32 {
    if DoBit(ttl) then ttl else ttl + DO_MASK
  }

  function OptRecord(size: u16): Record {
    Record([], OPT, size, DO_MASK, [], None)
  }

  predicate HasOpt(rs: seq<Record>) {
    exists r <- rs :: r.rtype == OPT
  }

  /** The first OPT record advertises `size` and asks for DO; without one, such a record is appended. */
  function OptAdvertised(rs: seq<Record>, size: u16): seq<Record> {
    if rs == [] then [OptRecord(size)]
    else if rs[0].rtype == OPT then [rs[0].(rclass := size, ttl := WithDo(rs[0].ttl))] + rs[1..]
    else [rs[0]] + OptAdvertised(rs[1..], size)
  }

  function Advertised(m: Message, size: u16): Message {
    m.(additionals := OptAdvertised(m.additionals, size),
       header := if HasOpt(m.additionals) then m.header
                 else m.header.(arcount := (m.header.arcount + 1) % 0x1_0000))
  }

  lemma {:induction false} OptAdvertisedSplits(before: seq<Record>, rest: seq<Record>, size: u16)
    requires !HasOpt(before)
    ensures OptAdvertised(before + rest, size) == before + OptAdvertised(rest, size)
  {
    if before == [] {
      assert before + rest == rest;
    } else {
      assert before[0] in before;
      assert (before + rest)[1..] == before[1..] + rest;
      OptAdvertisedSplits(before[1..], rest, size);
    }
  }

  class DnsMessage {
    var header: Header
    var questions: seq<Question>
    var answers: seq<Record>
    var authorities: seq<Record>
    var additionals: seq<Record>
    var ednsDo: bool

    constructor (m: Message)
      ensures Value() == m
    {
      header, questions, answers := m.header, m.questions, m.answers;
      authorities, additionals, ednsDo := m.authorities, m.additionals, m.ednsDo;
    }

    function Value(): Message
      reads this
    {
      Message(header, questions, answers, authorities, additionals, ednsDo)
    }

    method Serialize() returns (buf: seq<byte>)
      ensures buf == MessageBytes(Value())
    {
      hide HeaderBytes, QuestionBytes, RecordsBytes;
      var h := header.(arcount := |additionals| % 0x1_0000);
      buf := SerializeHeader(h);
      buf := AppendQuestions(buf, questions);
      buf := AppendRecords(buf, answers);
      buf := AppendRecords(buf, authorities);
      buf := AppendRecords(buf, additionals);
    }

    method AddOptRecord(bufferSize: u16)
      modifies this
      ensures Value() == Advertised(old(Value()), bufferSize)
    {
      var i := 0;
      while i < |additionals| && additionals[i].rtype != OPT
        invariant i <= |additionals| && !HasOpt(additionals[..i])
      {
        assert additionals[..i + 1] == additionals[..i] + [additionals[i]];
        i := i + 1;
      }
      assert additionals == additionals[..i] + additionals[i..];
      OptAdvertisedSplits(additionals[..i], additionals[i..], bufferSize);
      if i < |additionals| {
        var opt := additionals[i];
        assert opt in additionals;
        additionals := additionals[i := opt.(rclass := bufferSize, ttl := WithDo(opt.ttl))];
      } else {
        additionals := additionals + [OptRecord(bufferSize)];
        header := header.(arcount := (header.arcount + 1) % 0x1_0000);
      }
    }
  }
}
