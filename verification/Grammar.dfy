/**
 Section 4.1 of RFC 1035 without a parser: what it means that a message stands in a packet. Reading finds exactly
 that.
 */
module Grammar {
  import opened Bytes
  import opened Names
  import opened Wire

  /** The number that octets spell, most significant first. */
  function Number(octets: seq<byte>): nat {
    if octets == [] then 0 else Number(octets[..|octets| - 1]) * 0x100 + octets[|octets| - 1] as int
  }

  lemma NumberOfTwo(data: seq<byte>, pos: nat)
    requires pos + 2 <= |data|
    ensures Number(data[pos..pos + 2]) == U16At(data, pos)
  {
    var w := data[pos..pos + 2];
    assert w[..1] == [data[pos]] && w[1] == data[pos + 1];
    assert Number([data[pos]]) == Number([data[pos]][..0]) * 0x100 + data[pos] as int;
    assert [data[pos]][..0] == [];
  }

  lemma NumberSnoc(w: seq<byte>, b: byte)
    ensures Number(w + [b]) == Number(w) * 0x100 + b as int
  {
    assert (w + [b])[..|w|] == w;
  }

  lemma NumberOfFour(data: seq<byte>, pos: nat)
    requires pos + 4 <= |data|
    ensures Number(data[pos..pos + 4]) == U32At(data, pos)
  {
    hide Number;
    NumberOfTwo(data, pos);
    NumberOfTwo(data, pos + 2);
    NumberSnoc(data[pos..pos + 2], data[pos + 2]);
    NumberSnoc(data[pos..pos + 2] + [data[pos + 2]], data[pos + 3]);
    assert data[pos..pos + 4] == data[pos..pos + 2] + [data[pos + 2]] + [data[pos + 3]];
  }

  // ----- names

  /** The labels of a chain from `pos`, joined, and the offset where it is left. */
  ghost predicate NameStands(data: seq<byte>, pos: nat, name: Name, end: nat) {
    exists labels :: LabelsStand(data, pos, labels, end) && name == Join(labels)
  }

  ghost predicate LabelsStand(data: seq<byte>, pos: nat, labels: seq<Label>, end: nat) {
    exists path :: Spells(data, path, pos, 64, labels, end)
  }

  lemma NameReads(data: seq<byte>, pos: nat, name: Name, end: nat)
    ensures NameAt(data, pos) == Ok(Parsed(name, end)) <==> NameStands(data, pos, name, end)
  {
    hide LabelsFrom, Join, LabelsStand;
    forall labels
      ensures LabelsStand(data, pos, labels, end) <==> LabelsFrom(data, pos, 0) == Ok(Parsed(labels, end))
    {
      LabelsRead(data, pos, labels, end);
    }
    if NameAt(data, pos) == Ok(Parsed(name, end)) {
      var labels := LabelsFrom(data, pos, 0).value.value;
      assert LabelsStand(data, pos, labels, end);
    }
  }

  lemma LabelsRead(data: seq<byte>, pos: nat, labels: seq<Label>, end: nat)
    ensures LabelsStand(data, pos, labels, end) <==> LabelsFrom(data, pos, 0) == Ok(Parsed(labels, end))
  {
    hide LabelsFrom, Spells;
    ReadsExactlyChains(data, pos, labels, end);
  }

  // ----- questions and records

  ghost predicate QuestionStands(data: seq<byte>, pos: nat, q: Question, end: nat) {
    && pos + 4 <= end <= |data|
    && NameStands(data, pos, q.name, end - 4)
    && q.qtype == Number(data[end - 4..end - 2]) && q.qclass == Number(data[end - 2..end])
  }

  /** The alias is the name that stands at `pos` in the whole packet, None when no name stands there. */
  ghost predicate AliasStands(data: seq<byte>, pos: nat, alias: Option<Name>) {
    if alias.Some? then exists end :: NameStands(data, pos, alias.value, end)
    else forall name, end :: !NameStands(data, pos, name, end)
  }

  /** Name, type, class, TTL and length in this order, then as many octets of rdata; only a CNAME has an alias. */
  ghost predicate RecordStands(data: seq<byte>, pos: nat, r: Record, end: nat) {
    var start := end - |r.rdata|;
    && pos + 10 <= start <= end <= |data|
    && NameStands(data, pos, r.name, start - 10)
    && r.rtype == Number(data[start - 10..start - 8]) && r.rclass == Number(data[start - 8..start - 6])
    && r.ttl == Number(data[start - 6..start - 2]) && |r.rdata| == Number(data[start - 2..start])
    && r.rdata == data[start..end]
    && (if r.rtype == 5 then AliasStands(data, start, r.cnameTarget) else r.cnameTarget == None)
  }

  lemma NameEnds(data: seq<byte>, pos: nat, name: Name, end: nat)
    requires NameStands(data, pos, name, end)
    ensures pos < end <= |data|
  {
    hide NameStands, LabelsFrom;
    NameReads(data, pos, name, end);
  }

  lemma QuestionReads(data: seq<byte>, pos: nat, q: Question, end: nat)
    ensures QuestionAt(data, pos) == Ok(Parsed(q, end)) <==> QuestionStands(data, pos, q, end)
  {
    hide NameStands, NameAt, Number, U16At;
    if QuestionAt(data, pos) == Ok(Parsed(q, end)) || QuestionStands(data, pos, q, end) {
      NameReads(data, pos, q.name, end - 4);
      NumberOfTwo(data, end - 4);
      NumberOfTwo(data, end - 2);
    }
  }

  lemma AliasReads(data: seq<byte>, pos: nat, alias: Option<Name>)
    ensures AliasStands(data, pos, alias) <==> alias == TargetAt(data, CNAME, pos)
  {
    hide NameStands, NameAt;
    forall name, end
      ensures NameAt(data, pos) == Ok(Parsed(name, end)) <==> NameStands(data, pos, name, end)
    {
      NameReads(data, pos, name, end);
    }
    if NameAt(data, pos).Ok? {
      assert NameStands(data, pos, NameAt(data, pos).value.value, NameAt(data, pos).value.end);
    }
  }

  lemma RecordReads(data: seq<byte>, pos: nat, r: Record, end: nat)
    ensures RecordAt(data, pos) == Ok(Parsed(r, end)) <==> RecordStands(data, pos, r, end)
  {
    hide NameStands, NameAt, Number, U16At, U32At, TargetAt, AliasStands;
    if RecordAt(data, pos) == Ok(Parsed(r, end)) || RecordStands(data, pos, r, end) {
      var start := end - |r.rdata|;
      NameReads(data, pos, r.name, start - 10);
      NumberOfTwo(data, start - 10);
      NumberOfTwo(data, start - 8);
      NumberOfFour(data, start - 6);
      NumberOfTwo(data, start - 2);
      AliasReads(data, start, r.cnameTarget);
      TargetOnlyForCname(data, r.rtype, start);
    }
  }

  /**
   Where a CNAME's alias is read: from the start of the rdata in the whole packet, along any pointer, also past the
   rdata. It is missing exactly when no name stands there.
   */
  lemma AliasIsReadInPacket(data: seq<byte>, pos: nat, p: Parsed<Record>)
    requires RecordAt(data, pos) == Ok(p) && p.value.rtype == 5
    ensures var start := p.end - |p.value.rdata|;
            && start >= 0
            && (forall labels, path, end :: Spells(data, path, start, 64, labels, end) ==>
                  p.value.cnameTarget == Some(Join(labels)))
            && (p.value.cnameTarget == None <==>
                  forall labels, path, end :: !Spells(data, path, start, 64, labels, end))
  {
    hide NameAt, RecordAt, Spells, Join, Number, LabelsFrom;
    RecordReads(data, pos, p.value, p.end);
    var start := p.end - |p.value.rdata|;
    forall labels, path, end | Spells(data, path, start, 64, labels, end)
      ensures p.value.cnameTarget == Some(Join(labels))
    {
      assert LabelsStand(data, start, labels, end);
      assert NameStands(data, start, Join(labels), end);
      NameReads(data, start, Join(labels), end);
      AliasReads(data, start, p.value.cnameTarget);
    }
  }

  // ----- messages

  ghost predicate QuestionsStand(data: seq<byte>, pos: nat, qs: seq<Question>, end: nat)
    decreases |qs|
  {
    if qs == [] then end == pos
    else exists mid :: QuestionStands(data, pos, qs[0], mid) && QuestionsStand(data, mid, qs[1..], end)
  }

  ghost predicate RecordsStand(data: seq<byte>, pos: nat, rs: seq<Record>, end: nat)
    decreases |rs|
  {
    if rs == [] then end == pos
    else exists mid :: RecordStands(data, pos, rs[0], mid) && RecordsStand(data, mid, rs[1..], end)
  }

  ghost predicate HeaderStands(data: seq<byte>, h: Header) {
    && |data| >= 12
    && h.id == Number(data[0..2]) && h.flags == Number(data[2..4])
    && h.qdcount == Number(data[4..6]) && h.ancount == Number(data[6..8])
    && h.nscount == Number(data[8..10]) && h.arcount == Number(data[10..12])
  }

  /** Header, questions, answers, authorities and additionals in this order, as many of each as the header says. */
  ghost predicate MessageStands(data: seq<byte>, m: Message) {
    && HeaderStands(data, m.header)
    && |m.questions| == m.header.qdcount && |m.answers| == m.header.ancount
    && |m.authorities| == m.header.nscount && |m.additionals| == m.header.arcount
    && SectionsStand(data, m)
    && (m.ednsDo <==> exists r <- m.additionals :: r.rtype == 41 && r.ttl >= 0x8000_0000)
  }

  ghost predicate SectionsStand(data: seq<byte>, m: Message) {
    exists answers, authorities, additionals, end ::
      && QuestionsStand(data, 12, m.questions, answers) && RecordsStand(data, answers, m.answers, authorities)
      && RecordsStand(data, authorities, m.authorities, additionals)
      && RecordsStand(data, additionals, m.additionals, end)
  }

  lemma HeaderReads(data: seq<byte>, h: Header)
    ensures HeaderAt(data, 0) == Ok(h) <==> HeaderStands(data, h)
  {
    hide Number, U16At;
    if |data| >= 12 {
      NumberOfTwo(data, 0);
      NumberOfTwo(data, 2);
      NumberOfTwo(data, 4);
      NumberOfTwo(data, 6);
      NumberOfTwo(data, 8);
      NumberOfTwo(data, 10);
    }
  }

  lemma {:induction false} QuestionsRead(data: seq<byte>, pos: nat, qs: seq<Question>, end: nat)
    ensures QuestionsAt(data, pos, |qs|) == Ok(Parsed(qs, end)) <==> QuestionsStand(data, pos, qs, end)
    decreases |qs|
  {
    hide QuestionAt, QuestionStands;
    if qs == [] {
    } else {
      forall mid
        ensures QuestionAt(data, pos) == Ok(Parsed(qs[0], mid)) <==> QuestionStands(data, pos, qs[0], mid)
        ensures QuestionsAt(data, mid, |qs| - 1) == Ok(Parsed(qs[1..], end)) <==>
                QuestionsStand(data, mid, qs[1..], end)
      {
        QuestionReads(data, pos, qs[0], mid);
        QuestionsRead(data, mid, qs[1..], end);
      }
      assert qs == [qs[0]] + qs[1..];
    }
  }

  lemma {:induction false} RecordsRead(data: seq<byte>, pos: nat, rs: seq<Record>, end: nat)
    ensures RecordsAt(data, pos, |rs|) == Ok(Parsed(rs, end)) <==> RecordsStand(data, pos, rs, end)
    decreases |rs|
  {
    hide RecordAt, RecordStands;
    if rs == [] {
    } else {
      forall mid
        ensures RecordAt(data, pos) == Ok(Parsed(rs[0], mid)) <==> RecordStands(data, pos, rs[0], mid)
        ensures RecordsAt(data, mid, |rs| - 1) == Ok(Parsed(rs[1..], end)) <==> RecordsStand(data, mid, rs[1..], end)
      {
        RecordReads(data, pos, rs[0], mid);
        RecordsRead(data, mid, rs[1..], end);
      }
      assert rs == [rs[0]] + rs[1..];
    }
  }

  lemma SectionsRead(data: seq<byte>, m: Message)
    ensures SectionsStand(data, m) <==>
            && QuestionsAt(data, 12, |m.questions|).Ok?
            && var qs := QuestionsAt(data, 12, |m.questions|).value;
               && qs.value == m.questions && RecordsAt(data, qs.end, |m.answers|).Ok?
               && var an := RecordsAt(data, qs.end, |m.answers|).value;
                  && an.value == m.answers && RecordsAt(data, an.end, |m.authorities|).Ok?
                  && var ns := RecordsAt(data, an.end, |m.authorities|).value;
                     && ns.value == m.authorities && RecordsAt(data, ns.end, |m.additionals|).Ok?
                     && RecordsAt(data, ns.end, |m.additionals|).value.value == m.additionals
  {
    hide QuestionsAt, RecordsAt, QuestionsStand, RecordsStand;
    forall end
      ensures QuestionsAt(data, 12, |m.questions|) == Ok(Parsed(m.questions, end)) <==>
              QuestionsStand(data, 12, m.questions, end)
    {
      QuestionsRead(data, 12, m.questions, end);
    }
    forall pos, rs, end
      ensures RecordsAt(data, pos, |rs|) == Ok(Parsed(rs, end)) <==> RecordsStand(data, pos, rs, end)
    {
      RecordsRead(data, pos, rs, end);
    }
    if QuestionsAt(data, 12, |m.questions|).Ok? {
      var qs := QuestionsAt(data, 12, |m.questions|).value;
      if qs.value == m.questions && RecordsAt(data, qs.end, |m.answers|).Ok? {
        var an := RecordsAt(data, qs.end, |m.answers|).value;
        if an.value == m.answers && RecordsAt(data, an.end, |m.authorities|).Ok? {
          var ns := RecordsAt(data, an.end, |m.authorities|).value;
          if ns.value == m.authorities && RecordsAt(data, ns.end, |m.additionals|).Ok? {
            var ar := RecordsAt(data, ns.end, |m.additionals|).value;
            if ar.value == m.additionals {
              assert QuestionsStand(data, 12, m.questions, qs.end) && RecordsStand(data, qs.end, m.answers, an.end)
                && RecordsStand(data, an.end, m.authorities, ns.end)
                && RecordsStand(data, ns.end, m.additionals, ar.end);
            }
          }
        }
      }
    }
  }

  /** The parser reads a packet as a message exactly if the message stands in it. */
  lemma MessageReads(data: seq<byte>, m: Message)
    ensures MessageAt(data) == Ok(m) <==> MessageStands(data, m)
  {
    hide HeaderAt, QuestionsAt, RecordsAt, HeaderStands, SectionsStand;
    HeaderReads(data, m.header);
    SectionsRead(data, m);
    if HeaderAt(data, 0).Ok? {
      HeaderReads(data, HeaderAt(data, 0).value);
    }
  }

  // ----- an alias that points out of its record

  function Ascii(s: string): (b: seq<byte>)
    requires forall c <- s :: c < 128 as char
    ensures |b| == |s| && forall i :: 0 <= i < |s| ==> b[i] == s[i] as int
  {
    if s == "" then []
    else
      assert s[0] in s && forall c <- s[1..] :: c in s;
      [s[0] as int] + Ascii(s[1..])
  }

  const TRACKER: Label := Ascii("tracker")
  const SITE: Label := Ascii("site")
  const COM: Label := Ascii("com")

  /** A reply that says metrics.site.com is an alias of tracker.site.com, with "site.com" as a pointer to offset 20. */
  const CLOAKED_REPLY: seq<byte> :=
    [0x12, 0x34, 0x81, 0x80, 0, 1, 0, 1, 0, 0, 0, 0]
    + (([7] + Ascii("metrics")) + (([4] + SITE) + (([3] + COM) + ([0] + ([0, 1, 0, 1]
    + ([0xC0, 0x0C] + ([0, 5, 0, 1, 0, 0, 1, 0x2C, 0, 10] + (([7] + TRACKER) + [0xC0, 0x14]))))))))

  lemma LabelThen(data: seq<byte>, pos: nat, l: Label, jumps: nat, rest: seq<Label>, end: nat)
    requires jumps <= MAX_JUMPS && 0 < |l| < 0xC0 && ValidUtf8(l) && At(data, pos, [|l|] + l)
    requires LabelsFrom(data, pos + 1 + |l|, jumps) == Ok(Parsed(rest, end))
    ensures LabelsFrom(data, pos, jumps) == Ok(Parsed([l] + rest, end))
  {
    hide ValidUtf8, LabelsFrom, LinkAt, At;
    assert LabelBytes(l) == [|l|] + l;
    LinkAtPrinted(data, pos, l);
    LabelsCons(data, pos, jumps);
  }

  lemma PointerThen(data: seq<byte>, pos: nat, target: byte, rest: seq<Label>, end: nat)
    requires At(data, pos, [0xC0, target]) && target as int < |data|
    requires LabelsFrom(data, target as int, 1) == Ok(Parsed(rest, end))
    ensures LabelsFrom(data, pos, 0) == Ok(Parsed(rest, pos + 2))
  {
    hide ValidUtf8;
    AtIndex(data, pos, [0xC0, target], 0);
    AtIndex(data, pos, [0xC0, target], 1);
  }

  lemma ReplyLaidOut()
    ensures var data := CLOAKED_REPLY;
            && |data| == 56 && At(data, 20, [4] + SITE) && At(data, 25, [3] + COM) && At(data, 29, [0])
            && At(data, 34, [0xC0, 0x0C]) && At(data, 12, [7] + Ascii("metrics"))
            && At(data, 36, [0, 5, 0, 1, 0, 0, 1, 0x2C, 0, 10])
            && At(data, 46, [7] + TRACKER) && At(data, 54, [0xC0, 0x14])
  {
    hide Ascii, At;
    var data := CLOAKED_REPLY;
    var tail: seq<byte> := ([7] + TRACKER) + [0xC0, 0x14];
    var meta: seq<byte> := [0, 5, 0, 1, 0, 0, 1, 0x2C, 0, 10];
    var answer: seq<byte> := [0xC0, 0x0C] + (meta + tail);
    var rest: seq<byte> := [0] + ([0, 1, 0, 1] + answer);
    var name := ([7] + Ascii("metrics")) + (([4] + SITE) + (([3] + COM) + rest));
    WholeAt(data);
    AtConcat(data, 0, [0x12, 0x34, 0x81, 0x80, 0, 1, 0, 1, 0, 0, 0, 0], name);
    AtConcat(data, 12, [7] + Ascii("metrics"), ([4] + SITE) + (([3] + COM) + rest));
    AtConcat(data, 20, [4] + SITE, ([3] + COM) + rest);
    AtConcat(data, 25, [3] + COM, rest);
    AtConcat(data, 29, [0], [0, 1, 0, 1] + answer);
    AtConcat(data, 30, [0, 1, 0, 1], answer);
    AtConcat(data, 34, [0xC0, 0x0C], meta + tail);
    AtConcat(data, 36, meta, tail);
    AtConcat(data, 46, [7] + TRACKER, [0xC0, 0x14]);
  }

  lemma WholeAt(data: seq<byte>)
    ensures At(data, 0, data)
  {
  }

  lemma AsciiLabel(s: string)
    requires forall c <- s :: c < 128 as char
    ensures ValidUtf8(Ascii(s))
  {
    hide Ascii, ValidUtf8;
    forall i | 0 <= i < |s|
      ensures Ascii(s)[i] < 0x80
    {
      assert s[i] in s;
    }
    AsciiIsText(Ascii(s));
  }

  lemma SiteCom(data: seq<byte>, jumps: nat)
    requires jumps <= MAX_JUMPS && At(data, 20, [4] + SITE) && At(data, 25, [3] + COM) && At(data, 29, [0])
    ensures LabelsFrom(data, 20, jumps) == Ok(Parsed([SITE, COM], 30))
  {
    hide Ascii, ValidUtf8, LabelsFrom, LinkAt, At;
    AsciiLabel("site");
    AsciiLabel("com");
    LinkAtZero(data, 29);
    LabelsStop(data, 29, jumps);
    LabelThen(data, 25, COM, jumps, [], 30);
    assert [COM] + [] == [COM] && [SITE] + [COM] == [SITE, COM];
    LabelThen(data, 20, SITE, jumps, [COM], 30);
  }

  lemma JoinThree(a: Label, b: Label, c: Label)
    ensures Join([a, b, c]) == a + [DOT] + (b + [DOT] + c)
  {
    hide Join;
    JoinOne(c);
    JoinCons(b, [c]);
    JoinCons(a, [b, c]);
    assert [a] + [b, c] == [a, b, c] && [b] + [c] == [b, c];
  }

  lemma CloakedNames()
    ensures NameAt(CLOAKED_REPLY, 34) == Ok(Parsed(Ascii("metrics") + [DOT] + (SITE + [DOT] + COM), 36))
    ensures NameAt(CLOAKED_REPLY, 46) == Ok(Parsed(TRACKER + [DOT] + (SITE + [DOT] + COM), 56))
  {
    hide Ascii, ValidUtf8, LabelsFrom, Join, At;
    var data := CLOAKED_REPLY;
    ReplyLaidOut();
    SiteCom(data, 1);
    AsciiLabel("metrics");
    AsciiLabel("tracker");
    LabelThen(data, 12, Ascii("metrics"), 1, [SITE, COM], 30);
    PointerThen(data, 34, 0x0C, [Ascii("metrics")] + [SITE, COM], 30);
    PointerThen(data, 54, 0x14, [SITE, COM], 30);
    LabelThen(data, 46, TRACKER, 0, [SITE, COM], 56);
    assert [TRACKER] + [SITE, COM] == [TRACKER, SITE, COM];
    assert [Ascii("metrics")] + [SITE, COM] == [Ascii("metrics"), SITE, COM];
    JoinThree(TRACKER, SITE, COM);
    JoinThree(Ascii("metrics"), SITE, COM);
  }

  /** Its alias is found through the pointer, although that leads out of the ten octets of rdata. */
  lemma CloakedAliasIsFound()
    ensures var r := RecordAt(CLOAKED_REPLY, 34);
            && r.Ok? && r.value.end == 56 && r.value.value.rtype == 5
            && r.value.value.rdata == [7] + TRACKER + [0xC0, 0x14]
            && r.value.value.cnameTarget == Some(TRACKER + [DOT] + (SITE + [DOT] + COM))
  {
    hide Ascii, NameAt, At;
    var data := CLOAKED_REPLY;
    var meta: seq<byte> := [0, 5, 0, 1, 0, 0, 1, 0x2C, 0, 10];
    ReplyLaidOut();
    CloakedNames();
    AtIndex(data, 36, meta, 0);
    AtIndex(data, 36, meta, 1);
    AtIndex(data, 36, meta, 8);
    AtIndex(data, 36, meta, 9);
    assert U16At(data, 36) == 5 && U16At(data, 44) == 10;
    AtConcat(data, 46, [7] + TRACKER, [0xC0, 0x14]);
    AtSlice(data, 46, [7] + TRACKER + [0xC0, 0x14], 0, 10);
  }
}
