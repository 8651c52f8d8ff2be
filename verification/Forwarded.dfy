/**
 What the upstream is really asked: whether the labels of the client's names survive, whether the filter has seen the
 name that is asked for, and whether the request fits its frame.
 */
module Forwarded {
  import opened Bytes
  import opened Names
  import opened Wire
  import opened Rewrite
  import Rules
  import Blocklist
  import opened Handlers

  // ----- the labels of the questions

  /** The label sequences of the names of `n` questions, before they are joined. */
  function QuestionLabels(data: seq<byte>, pos: nat, n: nat): seq<seq<Label>>
    requires QuestionsAt(data, pos, n).Ok?
    decreases n
  {
    if n == 0 then []
    else [LabelsFrom(data, pos, 0).value.value] + QuestionLabels(data, QuestionAt(data, pos).value.end, n - 1)
  }

  lemma QuestionLabelsStep(data: seq<byte>, pos: nat, n: nat)
    requires QuestionsAt(data, pos, n).Ok? && n > 0
    ensures var first := QuestionAt(data, pos).value;
            && QuestionAt(data, pos).Ok? && LabelsFrom(data, pos, 0).Ok? && QuestionsAt(data, first.end, n - 1).Ok?
            && first.value.name == Join(LabelsFrom(data, pos, 0).value.value)
            && QuestionsAt(data, pos, n).value.value == [first.value] + QuestionsAt(data, first.end, n - 1).value.value
            && QuestionLabels(data, pos, n) ==
               [LabelsFrom(data, pos, 0).value.value] + QuestionLabels(data, first.end, n - 1)
  {
    hide LabelsFrom, Join;
  }

  /** One printed question: its labels are the ones read exactly if none holds a dot. */
  lemma QuestionLabelsPrinted(data: seq<byte>, pos: nat, data': seq<byte>, pos': nat)
    requires QuestionAt(data, pos).Ok? && At(data', pos', QuestionBytes(QuestionAt(data, pos).value.value))
    ensures LabelsFrom(data, pos, 0).Ok? && LabelsFrom(data', pos', 0).Ok? && QuestionAt(data', pos').Ok?
    ensures QuestionAt(data', pos').value.end == pos' + |QuestionBytes(QuestionAt(data, pos).value.value)|
    ensures var labels := LabelsFrom(data, pos, 0).value.value;
            LabelsFrom(data', pos', 0).value.value == labels <==> All(labels, DotFree)
  {
    hide LabelsFrom, Join, Canon, Split, Printable, NameBytes, At;
    var q := QuestionAt(data, pos).value.value;
    ReadNamesArePrintable(data, pos);
    QuestionReadBack(data', pos', q);
    AtConcat(data', pos', NameBytes(q.name) + U16Bytes(q.qtype), U16Bytes(q.qclass));
    AtConcat(data', pos', NameBytes(q.name), U16Bytes(q.qtype));
    ReadPrinted(data', pos', q.name);
    LabelsKept(data, pos, data', pos');
  }

  lemma {:induction false} QuestionLabelsKept(data: seq<byte>, pos: nat, n: nat, data': seq<byte>, pos': nat)
    requires QuestionsAt(data, pos, n).Ok?
    requires pos' <= |data'| && At(data', pos', QuestionsBytes(QuestionsAt(data, pos, n).value.value))
    ensures QuestionsAt(data', pos', n).Ok?
    ensures QuestionLabels(data', pos', n) == QuestionLabels(data, pos, n) <==>
            forall labels <- QuestionLabels(data, pos, n) :: All(labels, DotFree)
    decreases n
  {
    hide QuestionsAt, QuestionAt, QuestionBytes, QuestionsBytes, LabelsFrom, All, At, Join, QuestionLabels;
    if n == 0 {
      NoQuestionLabels(data, pos);
      NoQuestionLabels(data', pos');
    } else {
      QuestionLabelsStep(data, pos, n);
      var first := QuestionAt(data, pos).value;
      var qs, rest := QuestionsAt(data, pos, n).value.value, QuestionsAt(data, first.end, n - 1).value.value;
      QuestionsUnfold(qs);
      assert qs[0] == first.value && qs[1..] == rest;
      AtConcat(data', pos', QuestionBytes(first.value), QuestionsBytes(rest));
      QuestionLabelsPrinted(data, pos, data', pos');
      var next := pos' + |QuestionBytes(first.value)|;
      AtInside(data', next, QuestionsBytes(rest));
      QuestionLabelsKept(data, first.end, n - 1, data', next);
      QuestionsCons(data', pos', n, QuestionAt(data', pos').value, QuestionsAt(data', next, n - 1).value);
      QuestionLabelsStep(data', pos', n);
      SameHeads(LabelsFrom(data', pos', 0).value.value, QuestionLabels(data', next, n - 1),
                LabelsFrom(data, pos, 0).value.value, QuestionLabels(data, first.end, n - 1));
    }
  }

  lemma AtInside(data: seq<byte>, pos: nat, w: seq<byte>)
    requires At(data, pos, w)
    ensures pos <= |data|
  {
  }

  lemma SameHeads<T>(a: T, x: seq<T>, b: T, y: seq<T>)
    ensures [a] + x == [b] + y <==> a == b && x == y
  {
    assert ([a] + x)[0] == a && ([a] + x)[1..] == x && ([b] + y)[0] == b && ([b] + y)[1..] == y;
  }

  lemma NoQuestionLabels(data: seq<byte>, pos: nat)
    ensures QuestionsAt(data, pos, 0).Ok? && QuestionLabels(data, pos, 0) == []
  {
  }

  lemma {:induction false} DotFreeQuestionsKept(data: seq<byte>, pos: nat, n: nat)
    requires QuestionsAt(data, pos, n).Ok? && forall labels <- QuestionLabels(data, pos, n) :: All(labels, DotFree)
    ensures CanonQuestions(QuestionsAt(data, pos, n).value.value) == QuestionsAt(data, pos, n).value.value
    decreases n
  {
    hide QuestionAt, LabelsFrom, All, Join, Canon, QuestionLabels;
    if n == 0 {
    } else {
      QuestionLabelsStep(data, pos, n);
      assert LabelsFrom(data, pos, 0).value.value in QuestionLabels(data, pos, n);
      DotFreeIsCanonical(data, pos);
      DotFreeQuestionsKept(data, QuestionAt(data, pos).value.end, n - 1);
    }
  }

  lemma ParsedQuestions(p: seq<byte>, m: Message)
    requires MessageAt(p) == Ok(m)
    ensures QuestionsAt(p, 12, m.header.qdcount).Ok? && QuestionsAt(p, 12, m.header.qdcount).value.value == m.questions
  {
    hide QuestionsAt, RecordsAt, SeesDo;
  }

  lemma QuestionsPlace(m: Message)
    ensures At(MessageBytes(m), 12, QuestionsBytes(m.questions))
  {
    hide HeaderBytes, QuestionsBytes, RecordsBytes;
    var header := HeaderBytes(m.header.(arcount := |m.additionals| % 0x1_0000));
    var rest := RecordsBytes(m.answers) + RecordsBytes(m.authorities) + RecordsBytes(m.additionals);
    assert MessageBytes(m) == header + (QuestionsBytes(m.questions) + rest);
  }

  /**
   The upstream is asked for the very labels the client sent, in every question, if and only if no label of any
   question holds a dot; then it reads the client's questions unchanged.
   */
  lemma ForwardedLabels(p: seq<byte>, m: Message)
    requires MessageAt(p) == Ok(m)
    ensures var sent, n := MessageBytes(ForUpstream(m)), m.header.qdcount;
            && QuestionsAt(p, 12, n).Ok? && QuestionsAt(sent, 12, n).Ok?
            && var dotFree := forall labels <- QuestionLabels(p, 12, n) :: All(labels, DotFree);
               && (QuestionLabels(sent, 12, n) == QuestionLabels(p, 12, n) <==> dotFree)
               && (dotFree ==> CanonQuestions(m.questions) == m.questions)
  {
    hide MessageAt, MessageBytes, QuestionsAt, QuestionsBytes, QuestionLabels, All, DotFree, CanonQuestions, At;
    var sent, n := MessageBytes(ForUpstream(m)), m.header.qdcount;
    ParsedQuestions(p, m);
    ForUpstreamParts(m);
    QuestionsPlace(ForUpstream(m));
    WireHeader(ForUpstream(m));
    QuestionLabelsKept(p, 12, n, sent, 12);
    if forall labels <- QuestionLabels(p, 12, n) :: All(labels, DotFree) {
      DotFreeQuestionsKept(p, 12, n);
    }
  }

  // ----- the name the filter sees

  lemma EmptyIndexOf(engine: Rules.Engine, blocked: set<Rules.Text>, name: Name)
    ensures IsBlocked(engine, Blocklist.EMPTY.(blockDomains := blocked), name) <==> Rules.Lower(name) in blocked
  {
    hide Rules.Lower;
    NoSuffixHits(Rules.Lower(name));
  }

  lemma {:induction false} NoSuffixHits(domain: Rules.Text)
    ensures Blocklist.SuffixHit({}, domain) == None
    decreases |domain|
  {
    if Blocklist.FirstDot(domain) == |domain| {
    } else {
      NoSuffixHits(domain[Blocklist.FirstDot(domain) + 1..]);
    }
  }

  /**
   The filter checks a name as it was read, the upstream is asked for it as it is printed. No list tells the two apart,
   so that nothing blocked is asked for, exactly if the name has no empty piece.
   */
  lemma FilteredAsPrinted(engine: Rules.Engine, name: Name)
    ensures (forall index :: IsBlocked(engine, index, Canon(name)) ==> IsBlocked(engine, index, name)) <==>
            NoEmptyPiece(name)
  {
    hide Canon, IsBlocked, NoEmptyPiece, Rules.Lower;
    CanonFixpoint(name);
    if !NoEmptyPiece(name) {
      var printed := Canon(name);
      var index := Blocklist.EMPTY.(blockDomains := {Rules.Lower(printed)});
      CanonShorter(name);
      EmptyIndexOf(engine, {Rules.Lower(printed)}, printed);
      EmptyIndexOf(engine, {Rules.Lower(printed)}, name);
      assert IsBlocked(engine, index, printed) && !IsBlocked(engine, index, name);
    }
  }

  lemma CanonShorter(name: Name)
    requires !NoEmptyPiece(name)
    ensures |Canon(name)| < |name|
  {
    hide Split, Join, NonEmpty;
    JoinSplit(name);
    JoinLonger(Split(name));
    OnePiece(name);
  }

  lemma OnePiece(name: Name)
    ensures |Split(name)| == 1 && Split(name)[0] == [] ==> name == []
  {
    hide Split;
    JoinSplit(name);
  }

  /** What the upstream reads as the first question. */
  lemma FirstAsked(p: seq<byte>, m: Message) returns (got: Message)
    requires |p| < 0x1_0000 && MessageAt(p) == Ok(m)
    ensures MessageAt(MessageBytes(ForUpstream(m))) == Ok(got)
    ensures |got.questions| == |m.questions|
    ensures m.questions != [] ==> got.questions[0].name == Canon(m.questions[0].name)
  {
    hide MessageAt, MessageBytes, ForUpstream, AllSurvive, Canon;
    got := ForwardingKeepsMeaning(p, m);
    QuestionsUnfold(m.questions);
  }

  /**
   The same for whole queries: whatever the lists are, a query that passes the filter is not blocked as the upstream
   reads it, if and only if its first question's name has no empty piece.
   */
  lemma AskedAsFiltered(engine: Rules.Engine, p: seq<byte>, m: Message) returns (got: Message)
    requires |p| < 0x1_0000 && MessageAt(p) == Ok(m)
    ensures MessageAt(MessageBytes(ForUpstream(m))) == Ok(got)
    ensures (forall index :: Blocks(engine, index, got) ==> Blocks(engine, index, m)) <==>
            m.questions == [] || NoEmptyPiece(m.questions[0].name)
  {
    hide MessageAt, MessageBytes, ForUpstream, IsBlocked, Canon, NoEmptyPiece;
    got := FirstAsked(p, m);
    if m.questions == [] {
    } else {
      var name := m.questions[0].name;
      FilteredAsPrinted(engine, name);
      forall index
        ensures Blocks(engine, index, got) <==> IsBlocked(engine, index, Canon(name))
        ensures Blocks(engine, index, m) <==> IsBlocked(engine, index, name)
      {
      }
      if forall index :: Blocks(engine, index, got) ==> Blocks(engine, index, m) {
        forall index | IsBlocked(engine, index, Canon(name))
          ensures IsBlocked(engine, index, name)
        {
          assert Blocks(engine, index, got);
        }
      }
    }
  }

  /** So no query goes upstream for a blocked first name, as long as that name has no empty piece. */
  lemma NothingBlockedIsAsked(engine: Rules.Engine, index: Blocklist.Index, packet: seq<byte>)
    requires |packet| < 0x1_0000 && Asked(engine, index, packet).Some?
    requires var m := MessageAt(packet).value; m.questions == [] || NoEmptyPiece(m.questions[0].name)
    ensures var asked := MessageAt(Asked(engine, index, packet).value);
            asked.Ok? && !Blocks(engine, index, asked.value)
  {
    hide MessageAt, MessageBytes, ForUpstream, IsBlocked, NoEmptyPiece, Blocks;
    var m := MessageAt(packet).value;
    var got := AskedAsFiltered(engine, packet, m);
  }

  const ADS: Label := ['a' as int, 'd' as int, 's' as int]
  const COM: Label := ['c' as int, 'o' as int, 'm' as int]

  /** A query for the single label "ads.com.". */
  const TRAILING_DOT: seq<byte> :=
    HeaderBytes(Header(0, 0x100, 1, 0, 0, 0)) + ([8] + (ADS + [DOT] + COM + [DOT]) + [0] + U16Bytes(1) + U16Bytes(1))

  lemma CanonDropsDot()
    ensures Canon(ADS + [DOT] + COM + [DOT]) == ADS + [DOT] + COM
  {
    hide Join, Split, NonEmpty;
    var pieces := [ADS, COM, []];
    JoinOne([]);
    JoinOne(COM);
    JoinCons(COM, [[]]);
    JoinCons(ADS, [COM, []]);
    JoinCons(ADS, [COM]);
    assert [COM] + [[]] == [COM, []] && [ADS] + [COM, []] == pieces && [ADS] + [COM] == [ADS, COM];
    assert Join(pieces) == ADS + [DOT] + COM + [DOT];
    SplitJoin(pieces);
    LastEmptyGoes();
  }

  lemma LastEmptyGoes()
    ensures NonEmpty([ADS, COM, []]) == [ADS, COM]
  {
    var none: seq<Label> := [];
    assert [ADS, COM, []][1..] == [COM, []] && [COM, []][1..] == [[]] && [[]][1..] == none;
    assert NonEmpty([[]]) == NonEmpty(none) == [];
    assert NonEmpty([COM, []]) == [COM] + NonEmpty([[]]);
    assert NonEmpty([ADS, COM, []]) == [ADS] + NonEmpty([COM, []]);
  }

  lemma OneLabelLaidOut(header: seq<byte>, text: seq<byte>, qtype: seq<byte>, qclass: seq<byte>)
    requires |header| == 12 && |text| == 8 && |qtype| == |qclass| == 2
    ensures var data := header + ([8] + text + [0] + qtype + qclass);
            && |data| == 26 && At(data, 0, header)
            && data[12] == 8 && data[13..21] == text && data[21] == 0
            && At(data, 22, qtype) && At(data, 24, qclass)
  {
    var data := header + ([8] + text + [0] + qtype + qclass);
    assert data[0..12] == header && data[22..24] == qtype && data[24..26] == qclass;
  }

  lemma TrailingDotReads()
    ensures QuestionAt(TRAILING_DOT, 12) == Ok(Parsed(Question(ADS + [DOT] + COM + [DOT], 1, 1), 26))
    ensures HeaderAt(TRAILING_DOT, 0) == Ok(Header(0, 0x100, 1, 0, 0, 0))
  {
    hide HeaderBytes, HeaderAt, LabelsFrom, ValidUtf8, Join, LinkAt, U16Bytes, U16At;
    var data := TRAILING_DOT;
    var header := HeaderBytes(Header(0, 0x100, 1, 0, 0, 0));
    var text := ADS + [DOT] + COM + [DOT];
    OneLabelLaidOut(header, text, U16Bytes(1), U16Bytes(1));
    HeaderReadBack(data, 0, Header(0, 0x100, 1, 0, 0, 0));
    AsciiIsText(text);
    OneLabelThenEnd(data, 12);
    JoinOne(text);
    AtU16(data, 22, 1);
    AtU16(data, 24, 1);
  }

  lemma TrailingDotParses()
    ensures var text := ADS + [DOT] + COM + [DOT];
            MessageAt(TRAILING_DOT) ==
            Ok(Message(Header(0, 0x100, 1, 0, 0, 0), [Question(text, 1, 1)], [], [], [], false))
  {
    hide QuestionAt, HeaderAt, RecordsAt, SeesDo, QuestionsAt;
    TrailingDotReads();
    var q := Question(ADS + [DOT] + COM + [DOT], 1, 1);
    NoneAt(TRAILING_DOT, 26);
    QuestionsCons(TRAILING_DOT, 12, 1, Parsed(q, 26), Parsed([], 26));
    NothingSeesDo();
    assert [q] + [] == [q];
  }

  /**
   Otherwise one can: under a list that blocks ads.com, this query passes the filter and asks the upstream for
   ads.com.
   */
  lemma TrailingDotPasses(engine: Rules.Engine)
    ensures var index := Blocklist.EMPTY.(blockDomains := {ADS + [DOT] + COM});
            && Asked(engine, index, TRAILING_DOT).Some?
            && var asked := MessageAt(Asked(engine, index, TRAILING_DOT).value);
               asked.Ok? && asked.value.questions != [] && asked.value.questions[0].name == ADS + [DOT] + COM
               && Blocks(engine, index, asked.value)
  {
    hide MessageAt, MessageBytes, ForUpstream, IsBlocked, Canon;
    var domain, text := ADS + [DOT] + COM, ADS + [DOT] + COM + [DOT];
    TrailingDotParses();
    CanonDropsDot();
    AdsIsLower();
    EmptyIndexOf(engine, {domain}, domain);
    EmptyIndexOf(engine, {domain}, text);
    assert |Rules.Lower(text)| == |text|;
    var got := FirstAsked(TRAILING_DOT, MessageAt(TRAILING_DOT).value);
  }

  lemma AdsIsLower()
    ensures Rules.Lower(ADS + [DOT] + COM) == ADS + [DOT] + COM && |TRAILING_DOT| < 0x1_0000
  {
    hide Rules.Lower;
    Rules.LowerFixpoint(ADS + [DOT] + COM);
  }

  // ----- the frame of the request

  const A: Name := ['a' as int]
  const ASKED: Question := Question(A, 1, 1)

  /** `k` questions that each point to the name at offset 12. */
  function Pointing(k: nat): (b: seq<byte>)
    ensures |b| == 6 * k
  {
    if k == 0 then [] else [COMPRESSED, 12, 0, 1, 0, 1] + Pointing(k - 1)
  }

  function Copies(k: nat): (qs: seq<Question>)
    ensures |qs| == k
  {
    if k == 0 then [] else [ASKED] + Copies(k - 1)
  }

  function ManyHeader(k: nat): Header
    requires k < 0xFFFF
  {
    Header(0, 0x100, k + 1, 0, 0, 0)
  }

  /** A query with `k + 1` questions for one name, compressed. */
  function Many(k: nat): (p: seq<byte>)
    requires k < 0xFFFF
    ensures |p| == 19 + 6 * k
  {
    HeaderBytes(ManyHeader(k)) + ([1, 'a' as int, 0, 0, 1, 0, 1] + Pointing(k))
  }

  lemma FirstOfMany(data: seq<byte>, jumps: nat)
    requires At(data, 12, [1, 'a' as int, 0]) && jumps <= MAX_JUMPS
    ensures LabelsFrom(data, 12, jumps) == Ok(Parsed([A], 15))
  {
    hide ValidUtf8, LabelsFrom, At;
    AtIndex(data, 12, [1, 'a' as int, 0], 0);
    AtIndex(data, 12, [1, 'a' as int, 0], 1);
    AtIndex(data, 12, [1, 'a' as int, 0], 2);
    assert |data| >= 15 by { AtFits(data, 12, [1, 'a' as int, 0]); }
    assert data[13..14] == A;
    AsciiIsText(A);
    LinkOfLabel(data, 12);
    LabelsStop(data, 14, jumps);
    LabelsCons(data, 12, jumps);
    assert [A] + [] == [A];
  }

  lemma AtFits(data: seq<byte>, pos: nat, w: seq<byte>)
    requires At(data, pos, w)
    ensures pos + |w| <= |data|
  {
  }

  lemma PointingReads(data: seq<byte>, pos: nat)
    requires At(data, 12, [1, 'a' as int, 0]) && At(data, pos, [COMPRESSED, 12, 0, 1, 0, 1])
    ensures QuestionAt(data, pos) == Ok(Parsed(ASKED, pos + 6))
  {
    hide LabelsFrom, Join, At;
    var w: seq<byte> := [COMPRESSED, 12, 0, 1, 0, 1];
    AtFits(data, pos, w);
    AtFits(data, 12, [1, 'a' as int, 0]);
    AtIndex(data, pos, w, 0);
    AtIndex(data, pos, w, 1);
    AtIndex(data, pos, w, 2);
    AtIndex(data, pos, w, 3);
    AtIndex(data, pos, w, 4);
    AtIndex(data, pos, w, 5);
    FirstOfMany(data, 1);
    assert LinkAt(data, pos) == Pointer(12);
    PointerFollowed(data, pos, 12);
    JoinOne(A);
  }

  lemma PointerFollowed(data: seq<byte>, pos: nat, target: nat)
    requires LinkAt(data, pos) == Pointer(target) && LabelsFrom(data, target, 1).Ok?
    ensures LabelsFrom(data, pos, 0) == Ok(Parsed(LabelsFrom(data, target, 1).value.value, pos + 2))
  {
    hide LinkAt;
  }

  lemma {:induction false} PointingParses(data: seq<byte>, pos: nat, k: nat)
    requires At(data, 12, [1, 'a' as int, 0]) && At(data, pos, Pointing(k))
    ensures QuestionsAt(data, pos, k) == Ok(Parsed(Copies(k), pos + 6 * k))
    decreases k
  {
    hide QuestionAt, At;
    if k == 0 {
    } else {
      AtConcat(data, pos, [COMPRESSED, 12, 0, 1, 0, 1], Pointing(k - 1));
      PointingReads(data, pos);
      PointingParses(data, pos + 6, k - 1);
    }
  }

  lemma ManyReads(k: nat)
    requires k < 0xFFFF
    ensures HeaderAt(Many(k), 0) == Ok(ManyHeader(k))
    ensures QuestionsAt(Many(k), 12, k + 1) == Ok(Parsed(Copies(k + 1), 19 + 6 * k))
  {
    hide HeaderBytes, HeaderAt, LabelsFrom, Join, Pointing, QuestionsAt;
    var data, header := Many(k), HeaderBytes(ManyHeader(k));
    var first: seq<byte> := [1, 'a' as int, 0, 0, 1, 0, 1];
    assert At(data, 0, header) && At(data, 12, first) && At(data, 19, Pointing(k));
    HeaderReadBack(data, 0, ManyHeader(k));
    assert At(data, 12, [1, 'a' as int, 0]);
    FirstOfMany(data, 0);
    JoinOne(A);
    assert data[15] == 0 && data[16] == 1 && data[17] == 0 && data[18] == 1;
    assert QuestionAt(data, 12) == Ok(Parsed(ASKED, 19));
    PointingParses(data, 19, k);
    QuestionsCons(data, 12, k + 1, Parsed(ASKED, 19), Parsed(Copies(k), 19 + 6 * k));
  }

  lemma ManyParses(k: nat)
    requires k < 0xFFFF
    ensures MessageAt(Many(k)) == Ok(Message(ManyHeader(k), Copies(k + 1), [], [], [], false))
  {
    hide HeaderAt, QuestionsAt, RecordsAt, SeesDo, Many, Copies;
    ManyReads(k);
    NoneAt(Many(k), 19 + 6 * k);
    NothingSeesDo();
  }

  lemma {:induction false} CopiesBytes(k: nat)
    ensures |QuestionsBytes(Copies(k))| == 7 * k
  {
    hide NameBytes;
    if k == 0 {
    } else {
      CopiesBytes(k - 1);
      assert Copies(k)[1..] == Copies(k - 1);
      SplitDotFree(A);
      OneLabelBytes(A);
    }
  }

  lemma OneLabelBytes(l: Label)
    requires l != [] && Split(l) == [l]
    ensures |NameBytes(l)| == |l| + 2
  {
    assert WireLabels([l]) == LabelBytes(l) + WireLabels([l][1..]);
  }

  /** Such a query grows by an octet a question, and by an OPT record: it is printed without compression. */
  lemma ManyGrow(k: nat)
    requires k < 0xFFFF
    ensures MessageAt(Many(k)).Ok? && |MessageBytes(ForUpstream(MessageAt(Many(k)).value))| == 30 + 7 * k
  {
    hide MessageAt, HeaderBytes, QuestionsBytes, Copies, Many;
    ManyParses(k);
    CopiesBytes(k + 1);
    EmptySections();
    OptRecordBytes(EDNS_BUFFER_SIZE);
  }

  /**
   So a query may outgrow the two-octet length of the TCP frame it is sent in: with `k` from 9358 to 10919 the client's
   packet fits one and the request made of it does not.
   */
  lemma RequestOutgrowsFrame(k: nat)
    requires k < 0xFFFF
    ensures |Many(k)| < 0x1_0000 <==> k <= 10919
    ensures var m := MessageAt(Many(k));
            && m.Ok?
            && var request := MessageBytes(ForUpstream(m.value));
               Unframed(Frame(request)) == Some([request]) <==> k < 9358
  {
    hide MessageAt, MessageBytes, ForUpstream, Many, Frame, Unframed;
    ManyGrow(k);
    FramingIsFaithful(MessageBytes(ForUpstream(MessageAt(Many(k)).value)));
  }

  // ----- suffix rules and labels

  function LowerAll(labels: seq<Label>): (r: seq<Label>)
    ensures |r| == |labels| && forall i :: 0 <= i < |labels| ==> r[i] == Rules.Lower(labels[i])
  {
    if labels == [] then [] else [Rules.Lower(labels[0])] + LowerAll(labels[1..])
  }

  lemma LowerConcat(a: Name, b: Name)
    ensures Rules.Lower(a + b) == Rules.Lower(a) + Rules.Lower(b)
  {
    hide Rules.Lower;
    forall i | 0 <= i < |a + b|
      ensures Rules.Lower(a + b)[i] == (Rules.Lower(a) + Rules.Lower(b))[i]
    {
      assert Rules.Lower(a + b)[i] == Rules.LowerByte((a + b)[i]);
      if i >= |a| {
        assert Rules.Lower(b)[i - |a|] == Rules.LowerByte(b[i - |a|]);
      }
    }
  }

  lemma {:induction false} LowerJoin(labels: seq<Label>)
    ensures Rules.Lower(Join(labels)) == Join(LowerAll(labels))
  {
    hide Rules.Lower;
    if |labels| == 0 {
      assert |Rules.Lower([])| == 0;
    } else if |labels| == 1 {
      JoinOne(LowerAll(labels)[0]);
    } else {
      LowerJoin(labels[1..]);
      LowerConcat(labels[0] + [DOT], Join(labels[1..]));
      LowerConcat(labels[0], [DOT]);
      assert Rules.Lower([DOT])[0] == Rules.LowerByte(DOT);
      assert Rules.Lower([DOT]) == [DOT];
      JoinCons(Rules.Lower(labels[0]), LowerAll(labels[1..]));
    }
  }

  lemma LowerDotFree(labels: seq<Label>)
    requires All(labels, DotFree)
    ensures All(LowerAll(labels), DotFree)
  {
    hide Rules.Lower;
    forall i, k | 0 <= i < |labels| && 0 <= k < |labels[i]|
      ensures Rules.Lower(labels[i])[k] != DOT
    {
      assert DotFree(labels[i]) && labels[i][k] in labels[i];
      assert Rules.Lower(labels[i])[k] == Rules.LowerByte(labels[i][k]);
    }
  }

  lemma JoinedDot(labels: seq<Label>)
    requires labels != [] && All(labels, DotFree)
    ensures var name, k := Join(labels), Blocklist.FirstDot(Join(labels));
            if |labels| == 1 then k == |name|
            else k == |labels[0]| < |name| && name[k + 1..] == Join(labels[1..])
  {
    hide Blocklist.FirstDot;
    var name, k := Join(labels), Blocklist.FirstDot(Join(labels));
    assert DotFree(labels[0]);
    assert forall i :: 0 <= i < |labels[0]| ==> name[i] == labels[0][i] && labels[0][i] in labels[0];
    if |labels| > 1 {
      assert name[|labels[0]|] == DOT;
    }
  }

  lemma JoinInjective(a: seq<Label>, b: seq<Label>)
    requires a != [] && b != [] && All(a, DotFree) && All(b, DotFree)
    ensures Join(a) == Join(b) <==> a == b
  {
    hide Join, Split;
    SplitJoin(a);
    SplitJoin(b);
  }

  lemma {:induction false} CoversTail(suffix: seq<Label>, labels: seq<Label>)
    requires suffix != [] && labels != [] && All(suffix, DotFree) && All(labels, DotFree)
    ensures Rules.Covers(Join(suffix), Join(labels)) <==>
            |suffix| <= |labels| && labels[|labels| - |suffix|..] == suffix
  {
    hide Rules.Covers, Join, Blocklist.FirstDot;
    Blocklist.CoversStep(Join(suffix), Join(labels));
    JoinedDot(labels);
    JoinInjective(suffix, labels);
    if |labels| > 1 {
      CoversTail(suffix, labels[1..]);
      if |suffix| < |labels| {
        assert labels[|labels| - |suffix|..] == labels[1..][|labels[1..]| - |suffix|..];
      }
    }
  }

  /**
   What a suffix rule means for a name on the wire: it covers the name, in any letter case, exactly if its labels are
   the last labels of the name.
   */
  lemma SuffixCoversLabels(suffix: seq<Label>, labels: seq<Label>)
    requires suffix != [] && (forall l <- suffix :: l != []) && All(suffix, DotFree) && All(labels, DotFree)
    ensures Rules.Covers(Join(suffix), Rules.Lower(Join(labels))) <==>
            |suffix| <= |labels| && LowerAll(labels)[|labels| - |suffix|..] == suffix
  {
    hide Rules.Lower, Rules.Covers, Join, LowerAll;
    LowerJoin(labels);
    if labels == [] {
      JoinNotEmpty(suffix);
      assert LowerAll([]) == [] && Join([]) == [] by { NothingJoined(); }
      NothingCovers(Join(suffix));
    } else {
      LowerDotFree(labels);
      CoversTail(suffix, LowerAll(labels));
    }
  }

  lemma JoinNotEmpty(labels: seq<Label>)
    requires labels != [] && forall l <- labels :: l != []
    ensures Join(labels) != []
  {
    assert labels[0] in labels;
  }

  lemma NothingJoined()
    ensures LowerAll([]) == [] && Join([]) == []
  {
  }

  lemma NothingCovers(suffix: Name)
    ensures Rules.Covers(suffix, []) <==> suffix == []
  {
  }
}
