/**
 Domain names: the dotted text the program works with, and the label chains of section 4.1.4 of RFC 1035
 that carry it on the wire.
 */
module Names {
  import opened Bytes

  type Label = seq<byte>
  type Name = seq<byte>

  const DOT: byte := 0x2E
  /** A length octet from here up has both top bits set and starts a compression pointer. */
  const COMPRESSED: byte := 0xC0
  const MAX_JUMPS := 64

  datatype WireError =
    | ShortRead
    | EndOfData
    | TruncatedPointer
    | PointerOutOfBounds
    | TooManyJumps
    | TruncatedLabel
    | InvalidUtf8

  /** A decoded value together with the offset just past its encoding. */
  datatype Parsed<+T> = Parsed(value: T, end: nat)

  // ----- dotted text

  /** Rust's `str::split('.')`: always at least one piece, pieces may be empty. */
  function Split(s: Name): (pieces: seq<Label>)
    ensures |pieces| >= 1
  {
    if s == [] then [[]]
    else if s[0] == DOT then [[]] + Split(s[1..])
    else
      var rest := Split(s[1..]);
      [[s[0]] + rest[0]] + rest[1..]
  }

  function Join(labels: seq<Label>): Name {
    if |labels| == 0 then []
    else if |labels| == 1 then labels[0]
    else labels[0] + [DOT] + Join(labels[1..])
  }

  function NonEmpty(labels: seq<Label>): (r: seq<Label>) {
    if labels == [] then []
    else if labels[0] == [] then NonEmpty(labels[1..])
    else [labels[0]] + NonEmpty(labels[1..])
  }

  /** The name that survives printing: the same labels without the empty ones. */
  function Canon(name: Name): Name {
    Join(NonEmpty(Split(name)))
  }

  predicate NoEmptyPiece(name: Name) {
    name == [] || forall p <- Split(name) :: p != []
  }

  ghost predicate All(labels: seq<Label>, p: Label -> bool) {
    forall l <- labels :: p(l)
  }

  predicate Fits(l: Label) {
    |l| < COMPRESSED
  }

  predicate DotFree(l: Label) {
    DOT !in l
  }

  lemma JoinCons(l: Label, rest: seq<Label>)
    requires rest != []
    ensures Join([l] + rest) == l + [DOT] + Join(rest)
  {
    assert ([l] + rest)[1..] == rest;
  }

  lemma JoinHead(b: byte, labels: seq<Label>)
    requires labels != []
    ensures Join([[b] + labels[0]] + labels[1..]) == [b] + Join(labels)
  {
    assert ([[b] + labels[0]] + labels[1..])[1..] == labels[1..];
    if |labels| > 1 {
      assert [b] + (labels[0] + [DOT] + Join(labels[1..])) == [b] + labels[0] + [DOT] + Join(labels[1..]);
    }
  }

  lemma {:induction false} JoinSplit(s: Name)
    ensures Join(Split(s)) == s
  {
    hide Join;
    if s == [] {
      JoinOne([]);
    } else {
      JoinSplit(s[1..]);
      var rest := Split(s[1..]);
      if s[0] == DOT {
        JoinCons([], rest);
        assert [] + [DOT] + s[1..] == s;
      } else {
        JoinHead(s[0], rest);
      }
    }
  }

  lemma JoinOne(l: Label)
    ensures Join([l]) == l
  {
  }

  lemma {:induction false} SplitPiecesDotFree(s: Name)
    ensures All(Split(s), DotFree)
  {
    if s == [] {
    } else {
      SplitPiecesDotFree(s[1..]);
      var rest := Split(s[1..]);
      if s[0] != DOT {
        assert DotFree(rest[0]);
      }
    }
  }

  lemma {:induction false} SplitDotFree(s: Name)
    requires DotFree(s)
    ensures Split(s) == [s]
  {
    if s == [] {
    } else {
      assert s == [s[0]] + s[1..];
      SplitDotFree(s[1..]);
    }
  }

  lemma {:induction false} SplitConcat(a: Name, b: Name)
    ensures Split(a + [DOT] + b) == Split(a) + Split(b)
  {
    var whole := a + [DOT] + b;
    if a == [] {
      assert whole[1..] == b;
    } else {
      assert whole[0] == a[0] && whole[1..] == a[1..] + [DOT] + b;
      SplitConcat(a[1..], b);
      var rest := Split(a[1..]);
      if a[0] == DOT {
        assert Split(whole) == [[]] + (rest + Split(b));
      } else {
        assert (rest + Split(b))[1..] == rest[1..] + Split(b);
        assert Split(whole) == [[a[0]] + rest[0]] + (rest[1..] + Split(b));
      }
    }
  }

  lemma {:induction false} SplitJoin(labels: seq<Label>)
    requires labels != [] && All(labels, DotFree)
    ensures Split(Join(labels)) == labels
  {
    SplitDotFree(labels[0]);
    if |labels| > 1 {
      assert All(labels[1..], DotFree);
      SplitJoin(labels[1..]);
      SplitConcat(labels[0], Join(labels[1..]));
      assert labels == [labels[0]] + labels[1..];
    } else {
      assert labels == [labels[0]];
    }
  }

  lemma {:induction false} NonEmptyKeeps(labels: seq<Label>)
    ensures forall l :: l in NonEmpty(labels) <==> l in labels && l != []
    ensures |NonEmpty(labels)| <= |labels|
    ensures NonEmpty(labels) == labels <==> forall l <- labels :: l != []
  {
    if labels == [] {
    } else {
      NonEmptyKeeps(labels[1..]);
      assert labels == [labels[0]] + labels[1..];
      if labels[0] == [] {
        assert labels[0] in labels && |NonEmpty(labels)| < |labels|;
      } else {
        assert NonEmpty(labels)[1..] == NonEmpty(labels[1..]);
        assert NonEmpty(labels) == labels <==> NonEmpty(labels[1..]) == labels[1..];
        assert forall l :: l in labels <==> l == labels[0] || l in labels[1..];
      }
    }
  }

  lemma {:induction false} JoinLonger(labels: seq<Label>)
    ensures |Join(NonEmpty(labels))| <= |Join(labels)|
    ensures |labels| > 1 && (exists l <- labels :: l == []) ==> |Join(NonEmpty(labels))| < |Join(labels)|
  {
    if |labels| == 1 {
      assert NonEmpty(labels[1..]) == [];
    } else if |labels| > 1 {
      var rest := labels[1..];
      JoinLonger(rest);
      NonEmptyKeeps(rest);
      assert labels == [labels[0]] + rest;
      if labels[0] != [] {
        assert NonEmpty(labels) == [labels[0]] + NonEmpty(rest);
        if NonEmpty(rest) != [] {
          assert NonEmpty(labels)[1..] == NonEmpty(rest);
        }
      }
    }
  }

  /** Printing and reading back keeps a name exactly when it has no empty piece. */
  lemma CanonFixpoint(name: Name)
    ensures Canon(name) == name <==> NoEmptyPiece(name)
  {
    JoinSplit(name);
    NonEmptyKeeps(Split(name));
    JoinLonger(Split(name));
    if |Split(name)| == 1 {
      assert Split(name)[0] == name;
      assert NonEmpty(Split(name)[1..]) == [];
    }
  }

  lemma CanonSplit(name: Name)
    ensures NonEmpty(Split(Canon(name))) == NonEmpty(Split(name))
    ensures forall p <- Split(Canon(name)) :: p == [] || p in Split(name)
  {
    var ls := NonEmpty(Split(name));
    NonEmptyKeeps(Split(name));
    SplitPiecesDotFree(name);
    if ls != [] {
      SplitJoin(ls);
      NonEmptyKeeps(ls);
    } else {
      assert Split([]) == [[]];
      assert NonEmpty([[]]) == NonEmpty([[]][1..]) == [];
    }
  }

  lemma {:induction false} Utf8Join(labels: seq<Label>)
    requires labels != []
    ensures ValidUtf8(Join(labels)) <==> All(labels, ValidUtf8)
  {
    assert labels == [labels[0]] + labels[1..];
    if |labels| > 1 {
      Utf8Join(labels[1..]);
      Utf8SplitsAtAscii(labels[0], DOT, Join(labels[1..]));
      assert All(labels, ValidUtf8) <==> ValidUtf8(labels[0]) && All(labels[1..], ValidUtf8);
    }
  }

  /** A name is text exactly when every piece between its dots is. */
  lemma Utf8Pieces(name: Name)
    ensures ValidUtf8(name) <==> All(Split(name), ValidUtf8)
  {
    JoinSplit(name);
    Utf8Join(Split(name));
  }

  // ----- reading a name: the label chain

  function PointerTarget(data: seq<byte>, pos: nat): nat
    requires pos + 1 < |data| && data[pos] >= COMPRESSED
  {
    (data[pos] as int - COMPRESSED as int) * 0x100 + data[pos + 1] as int
  }

  /** What stands at one offset of a label chain. */
  datatype Link = Stop | Pointer(target: nat) | Text(text: Label, next: nat) | Broken(error: WireError)

  function LinkAt(data: seq<byte>, pos: nat): (link: Link)
    ensures link.Pointer? ==> link.target < |data|
    ensures link.Text? ==> pos < link.next <= |data| && link.next == pos + 1 + |link.text|
    ensures link.Text? ==> 0 < |link.text| < COMPRESSED
    ensures link.Broken? || pos < |data|
  {
    if pos >= |data| then Broken(EndOfData)
    else if data[pos] == 0 then Stop
    else if data[pos] >= COMPRESSED then
      if pos + 1 >= |data| then Broken(TruncatedPointer)
      else if PointerTarget(data, pos) >= |data| then Broken(PointerOutOfBounds)
      else Pointer(PointerTarget(data, pos))
    else
      var next := pos + 1 + data[pos];
      if next > |data| then Broken(TruncatedLabel)
      else if !ValidUtf8(data[pos + 1..next]) then Broken(InvalidUtf8)
      else Text(data[pos + 1..next], next)
  }

  /** The labels met from `pos` after `jumps` pointers, and the offset just past the first pointer or the zero octet. */
  function LabelsFrom(data: seq<byte>, pos: nat, jumps: nat): (r: Result<Parsed<seq<Label>>, WireError>)
    requires jumps <= MAX_JUMPS
    ensures r.Ok? ==> pos < r.value.end <= |data|
    decreases MAX_JUMPS - jumps, |data| - pos
  {
    match LinkAt(data, pos)
    case Broken(e) => Err(e)
    case Stop => Ok(Parsed([], pos + 1))
    case Pointer(target) =>
      if jumps + 1 > MAX_JUMPS then Err(TooManyJumps)
      else
        var tail :- LabelsFrom(data, target, jumps + 1);
        Ok(Parsed(tail.value, pos + 2))
    case Text(text, next) =>
      var tail :- LabelsFrom(data, next, jumps);
      Ok(Parsed([text] + tail.value, tail.end))
  }

  function NameAt(data: seq<byte>, pos: nat): (r: Result<Parsed<Name>, WireError>)
    ensures r.Ok? ==> pos < r.value.end <= |data|
  {
    var p :- LabelsFrom(data, pos, 0);
    Ok(Parsed(Join(p.value), p.end))
  }

  // ----- the same thing said without an algorithm

  predicate IsPointer(data: seq<byte>, p: nat) {
    p + 1 < |data| && data[p] >= COMPRESSED
  }

  predicate IsLabel(data: seq<byte>, p: nat) {
    p < |data| && 0 < data[p] < COMPRESSED && p + 1 + data[p] <= |data| && ValidUtf8(data[p + 1..p + 1 + data[p]])
  }

  predicate IsEnd(data: seq<byte>, p: nat) {
    p < |data| && data[p] == 0
  }

  /** One link: a label leads just past itself, a pointer leads to its target. */
  predicate Leads(data: seq<byte>, p: nat, q: nat) {
    || (IsLabel(data, p) && q == p + 1 + data[p])
    || (IsPointer(data, p) && q == PointerTarget(data, p))
  }

  /** A chain of offsets from label or pointer to the next, ending on a zero octet, with at most 64 pointers. */
  ghost predicate Chain(data: seq<byte>, path: seq<nat>) {
    && path != []
    && (forall i :: 0 <= i < |path| - 1 ==> Leads(data, path[i], path[i + 1]))
    && IsEnd(data, path[|path| - 1])
  }

  function Jumps(data: seq<byte>, path: seq<nat>): nat {
    if path == [] then 0 else (if IsPointer(data, path[0]) then 1 else 0) + Jumps(data, path[1..])
  }

  function ChainLabels(data: seq<byte>, path: seq<nat>): seq<Label> {
    if path == [] then []
    else if IsLabel(data, path[0]) then [data[path[0] + 1..path[0] + 1 + data[path[0]]]] + ChainLabels(data, path[1..])
    else ChainLabels(data, path[1..])
  }

  /** Where the caller resumes: past the first pointer of the chain, else past its zero octet. */
  function ChainEnd(data: seq<byte>, path: seq<nat>): nat
    requires path != []
  {
    if IsPointer(data, path[0]) then path[0] + 2
    else if |path| == 1 then path[0] + 1
    else ChainEnd(data, path[1..])
  }

  ghost predicate Spells(data: seq<byte>, path: seq<nat>, pos: nat, budget: int, labels: seq<Label>, end: nat) {
    Chain(data, path) && path[0] == pos && Jumps(data, path) <= budget
    && ChainLabels(data, path) == labels && ChainEnd(data, path) == end
  }

  lemma {:induction false} ChainTail(data: seq<byte>, path: seq<nat>)
    requires Chain(data, path) && |path| > 1
    ensures Chain(data, path[1..])
  {
    forall i | 0 <= i < |path| - 2
      ensures Leads(data, path[1..][i], path[1..][i + 1])
    {
      assert Leads(data, path[i + 1], path[i + 1 + 1]);
    }
  }

  lemma ChainCons(data: seq<byte>, p: nat, path: seq<nat>)
    requires Chain(data, path) && Leads(data, p, path[0])
    ensures Chain(data, [p] + path)
  {
    var longer := [p] + path;
    forall i | 0 <= i < |longer| - 1
      ensures Leads(data, longer[i], longer[i + 1])
    {
      if i > 0 {
        assert Leads(data, path[i - 1], path[i - 1 + 1]);
      }
    }
  }

  lemma {:induction false} ReadingFindsChain(data: seq<byte>, pos: nat, jumps: nat) returns (path: seq<nat>)
    requires jumps <= MAX_JUMPS && LabelsFrom(data, pos, jumps).Ok?
    ensures var r := LabelsFrom(data, pos, jumps).value;
            Spells(data, path, pos, MAX_JUMPS - jumps, r.value, r.end)
    decreases MAX_JUMPS - jumps, |data| - pos
  {
    hide ValidUtf8;
    match LinkAt(data, pos)
    case Stop =>
      path := [pos];
      assert Jumps(data, path[1..]) == 0 && ChainLabels(data, path[1..]) == [];
    case Pointer(target) =>
      var rest := ReadingFindsChain(data, target, jumps + 1);
      path := [pos] + rest;
      assert path[1..] == rest;
      ChainCons(data, pos, rest);
    case Text(text, next) =>
      var rest := ReadingFindsChain(data, next, jumps);
      path := [pos] + rest;
      assert path[1..] == rest;
      ChainCons(data, pos, rest);
  }

  lemma {:induction false} ChainIsRead(data: seq<byte>, path: seq<nat>, jumps: nat)
    requires Chain(data, path) && jumps + Jumps(data, path) <= MAX_JUMPS
    requires forall i :: 0 <= i < |path| ==> path[i] < |data|
    ensures LabelsFrom(data, path[0], jumps) == Ok(Parsed(ChainLabels(data, path), ChainEnd(data, path)))
    decreases |path|
  {
    hide ValidUtf8;
    if |path| == 1 {
      assert ChainLabels(data, path) == ChainLabels(data, path[1..]) == [];
    } else {
      assert Leads(data, path[0], path[0 + 1]);
      ChainTail(data, path);
      ChainIsRead(data, path[1..], if IsPointer(data, path[0]) then jumps + 1 else jumps);
    }
  }

  /**
   The reader accepts exactly the offsets from which a chain of in-bounds, valid labels and at most 64
   in-bounds pointers reaches a zero octet; it returns the labels of that chain and its resumption point.
   */
  lemma ReadsExactlyChains(data: seq<byte>, pos: nat, labels: seq<Label>, end: nat)
    ensures LabelsFrom(data, pos, 0) == Ok(Parsed(labels, end)) <==>
            exists path :: Spells(data, path, pos, MAX_JUMPS, labels, end)
  {
    if LabelsFrom(data, pos, 0) == Ok(Parsed(labels, end)) {
      var path := ReadingFindsChain(data, pos, 0);
    }
    if exists path :: Spells(data, path, pos, MAX_JUMPS, labels, end) {
      var path :| Spells(data, path, pos, MAX_JUMPS, labels, end);
      forall i | 0 <= i < |path|
        ensures path[i] < |data|
      {
        if i < |path| - 1 {
          assert Leads(data, path[i], path[i + 1]);
        }
      }
      ChainIsRead(data, path, 0);
    }
  }

  // ----- bounds on what is read

  lemma {:induction false} ReadLabelsAreText(data: seq<byte>, pos: nat, jumps: nat)
    requires jumps <= MAX_JUMPS && LabelsFrom(data, pos, jumps).Ok?
    ensures forall l <- LabelsFrom(data, pos, jumps).value.value :: 0 < |l| && Fits(l) && ValidUtf8(l)
    decreases MAX_JUMPS - jumps, |data| - pos
  {
    hide ValidUtf8;
    if data[pos] >= COMPRESSED {
      ReadLabelsAreText(data, PointerTarget(data, pos), jumps + 1);
    } else if data[pos] != 0 {
      ReadLabelsAreText(data, pos + 1 + data[pos], jumps);
    }
  }

  function WireLength(labels: seq<Label>): nat {
    if labels == [] then 0 else 1 + |labels[0]| + WireLength(labels[1..])
  }

  lemma OneMoreScan(k: nat, n: nat)
    ensures k * n >= 0 && (k + 1) * n == k * n + n
  {
  }

  /** The octets examined from `pos` on, whether or not the reading succeeds: a broken link may look at all the rest. */
  function Scanned(data: seq<byte>, pos: nat, jumps: nat): nat
    requires jumps <= MAX_JUMPS
    decreases MAX_JUMPS - jumps, |data| - pos
  {
    match LinkAt(data, pos)
    case Broken(_) => if pos < |data| then |data| - pos else 0
    case Stop => 1
    case Pointer(target) => 2 + if jumps == MAX_JUMPS then 0 else Scanned(data, target, jumps + 1)
    case Text(_, next) => next - pos + Scanned(data, next, jumps)
  }

  /**
   No reading, successful or not, examines more than 65 times the packet: each of the at most 64 pointers followed
   buys one more scan, so pointers that loop are cut off.
   */
  lemma {:induction false} ScanBound(data: seq<byte>, pos: nat, jumps: nat)
    requires jumps <= MAX_JUMPS
    ensures pos <= |data| ==> Scanned(data, pos, jumps) <= (MAX_JUMPS - jumps) * |data| + |data| - pos
    decreases MAX_JUMPS - jumps, |data| - pos
  {
    hide ValidUtf8, PointerTarget;
    var budget := (MAX_JUMPS - jumps) * |data|;
    OneMoreScan(MAX_JUMPS - jumps, |data|);
    match LinkAt(data, pos)
    case Pointer(target) =>
      if jumps < MAX_JUMPS {
        ScanBound(data, target, jumps + 1);
        OneMoreScan(MAX_JUMPS - (jumps + 1), |data|);
        assert budget == (MAX_JUMPS - (jumps + 1)) * |data| + |data|;
      }
    case Text(_, next) => ScanBound(data, next, jumps);
    case _ =>
  }

  lemma NameScanBound(data: seq<byte>, pos: nat)
    ensures Scanned(data, pos, 0) <= (MAX_JUMPS + 1) * |data|
  {
    hide LinkAt;
    ScanBound(data, pos, 0);
    if pos > |data| {
      NothingToScan(data, pos);
    }
  }

  lemma NothingToScan(data: seq<byte>, pos: nat)
    requires pos >= |data|
    ensures Scanned(data, pos, 0) == 0
  {
  }

  lemma {:induction false} LabelsAreScanned(data: seq<byte>, pos: nat, jumps: nat)
    requires jumps <= MAX_JUMPS && LabelsFrom(data, pos, jumps).Ok?
    ensures WireLength(LabelsFrom(data, pos, jumps).value.value) < Scanned(data, pos, jumps)
    decreases MAX_JUMPS - jumps, |data| - pos
  {
    hide ValidUtf8, PointerTarget;
    match LinkAt(data, pos)
    case Stop =>
      assert LabelsFrom(data, pos, jumps).value.value == [];
    case Pointer(target) =>
      LabelsAreScanned(data, target, jumps + 1);
      assert LabelsFrom(data, pos, jumps).value.value == LabelsFrom(data, target, jumps + 1).value.value;
    case Text(text, next) =>
      LabelsAreScanned(data, next, jumps);
      var tail := LabelsFrom(data, next, jumps).value.value;
      assert ([text] + tail)[1..] == tail;
      assert LabelsFrom(data, pos, jumps).value.value == [text] + tail;
  }

  /** In particular no name expands beyond 65 times its packet. */
  lemma ExpansionBound(data: seq<byte>, pos: nat)
    requires LabelsFrom(data, pos, 0).Ok?
    ensures WireLength(LabelsFrom(data, pos, 0).value.value) < (MAX_JUMPS + 1) * |data|
  {
    hide LabelsFrom, Scanned;
    LabelsAreScanned(data, pos, 0);
    NameScanBound(data, pos);
  }

  lemma {:induction false} JoinPieces(labels: seq<Label>)
    requires All(labels, Fits)
    ensures All(Split(Join(labels)), Fits)
  {
    if |labels| == 0 {
    } else {
      PiecesNoLonger(labels[0]);
      assert Fits(labels[0]);
      if |labels| > 1 {
        assert All(labels[1..], Fits);
        JoinPieces(labels[1..]);
        SplitConcat(labels[0], Join(labels[1..]));
      }
    }
  }

  lemma {:induction false} PiecesNoLonger(s: Name)
    ensures forall p <- Split(s) :: |p| <= |s|
  {
    if s == [] {
    } else {
      PiecesNoLonger(s[1..]);
    }
  }

  /** A `String` that can be printed: text, with no piece too long for a length octet below the pointer range. */
  ghost predicate Printable(name: Name) {
    ValidUtf8(name) && All(Split(name), Fits)
  }

  lemma ReadNamesArePrintable(data: seq<byte>, pos: nat)
    requires NameAt(data, pos).Ok?
    ensures Printable(NameAt(data, pos).value.value)
  {
    var labels := LabelsFrom(data, pos, 0).value.value;
    ReadLabelsAreText(data, pos, 0);
    JoinPieces(labels);
    if labels != [] {
      Utf8Join(labels);
    }
  }

  // ----- printing a name

  function LabelBytes(l: Label): seq<byte> {
    if l == [] then [] else [|l| % 0x100] + l
  }

  function WireLabels(labels: seq<Label>): seq<byte> {
    if labels == [] then [] else LabelBytes(labels[0]) + WireLabels(labels[1..])
  }

  function NameBytes(name: Name): (b: seq<byte>)
    ensures b != []
  {
    WireLabels(Split(name)) + [0]
  }

  lemma {:induction false} WireLabelsConcat(a: seq<Label>, b: seq<Label>)
    ensures WireLabels(a + b) == WireLabels(a) + WireLabels(b)
  {
    if a == [] {
      assert a + b == b;
    } else {
      assert (a + b)[1..] == a[1..] + b;
      WireLabelsConcat(a[1..], b);
    }
  }

  lemma {:induction false} WireLabelsSkipEmpty(labels: seq<Label>)
    ensures WireLabels(NonEmpty(labels)) == WireLabels(labels)
  {
    if labels == [] {
    } else {
      WireLabelsSkipEmpty(labels[1..]);
      if labels[0] != [] {
        assert NonEmpty(labels)[1..] == NonEmpty(labels[1..]);
      }
    }
  }

  /** Printing forgets the empty pieces, so a name and its canonical form have the same octets. */
  lemma CanonSameBytes(name: Name)
    ensures NameBytes(Canon(name)) == NameBytes(name)
  {
    CanonSplit(name);
    WireLabelsSkipEmpty(Split(name));
    WireLabelsSkipEmpty(Split(Canon(name)));
  }

  // ----- reading what was printed

  /** A pointer-free name lies wholly inside `data` from `i` on. */
  predicate Plain(data: seq<byte>, i: nat)
    decreases |data| - i
  {
    i < |data| && (data[i] == 0 ||
                   (data[i] < COMPRESSED && i + 1 + data[i] <= |data| && Plain(data, i + 1 + data[i])))
  }

  function Moved(link: Link, offset: nat): Link {
    if link.Text? then Text(link.text, offset + link.next) else link
  }

  lemma LinkIsLocal(data: seq<byte>, pos: nat, inner: seq<byte>, i: nat)
    requires At(data, pos, inner) && Plain(inner, i)
    ensures LinkAt(data, pos + i) == Moved(LinkAt(inner, i), pos)
    ensures LinkAt(inner, i).Stop? || LinkAt(inner, i) == Broken(InvalidUtf8)
            || (LinkAt(inner, i).Text? && Plain(inner, LinkAt(inner, i).next))
  {
    hide ValidUtf8;
    AtIndex(data, pos, inner, i);
    if inner[i] != 0 {
      AtSlice(data, pos, inner, i + 1, i + 1 + inner[i]);
    }
  }

  /** Pointer-free names mean the same wherever they are placed, after any number of jumps. */
  lemma {:induction false} PlainIsLocal(data: seq<byte>, pos: nat, inner: seq<byte>, i: nat, jumps: nat)
    requires At(data, pos, inner) && Plain(inner, i) && jumps <= MAX_JUMPS
    ensures var r := LabelsFrom(inner, i, 0);
            LabelsFrom(data, pos + i, jumps) ==
            if r.Err? then r else Ok(Parsed(r.value.value, pos + r.value.end))
    decreases |inner| - i
  {
    hide LinkAt, Plain, At;
    LinkIsLocal(data, pos, inner, i);
    match LinkAt(inner, i)
    case Text(text, next) => PlainIsLocal(data, pos, inner, next, jumps);
    case _ =>
  }

  lemma LinkAtZero(data: seq<byte>, pos: nat)
    requires At(data, pos, [0])
    ensures LinkAt(data, pos) == Stop && data[pos] == 0
  {
    AtIndex(data, pos, [0], 0);
  }

  lemma LinkAtPrinted(data: seq<byte>, pos: nat, l: Label)
    requires l != [] && Fits(l) && ValidUtf8(l) && At(data, pos, LabelBytes(l))
    ensures LinkAt(data, pos) == Text(l, pos + 1 + |l|) && data[pos] == |l|
  {
    hide ValidUtf8;
    AtIndex(data, pos, LabelBytes(l), 0);
    AtConcat(data, pos, [|l| % 0x100], l);
  }

  /** Printed labels: the first one stands at `pos`, the others right behind it. */
  lemma FirstPrinted(data: seq<byte>, pos: nat, labels: seq<Label>)
    requires labels != [] && At(data, pos, WireLabels(labels) + [0])
    ensures At(data, pos, LabelBytes(labels[0]))
    ensures At(data, pos + |LabelBytes(labels[0])|, WireLabels(labels[1..]) + [0])
  {
    hide At, LabelBytes;
    var first, rest := LabelBytes(labels[0]), WireLabels(labels[1..]);
    assert WireLabels(labels) == first + rest;
    assert first + rest + [0] == first + (rest + [0]);
    AtConcat(data, pos, first, rest + [0]);
  }

  lemma {:induction false} PrintedIsPlain(data: seq<byte>, pos: nat, labels: seq<Label>)
    requires forall l <- labels :: Fits(l)
    requires At(data, pos, WireLabels(labels) + [0])
    ensures Plain(data, pos)
    decreases |labels|
  {
    hide At, LabelBytes;
    if labels == [] {
      assert WireLabels(labels) + [0] == [0];
      LinkAtZero(data, pos);
    } else {
      FirstPrinted(data, pos, labels);
      PrintedIsPlain(data, pos + |LabelBytes(labels[0])|, labels[1..]);
      assert Fits(labels[0]);
      LengthOctet(data, pos, labels[0]);
    }
  }

  lemma LengthOctet(data: seq<byte>, pos: nat, l: Label)
    requires Fits(l) && At(data, pos, LabelBytes(l))
    ensures |LabelBytes(l)| == if l == [] then 0 else 1 + |l|
    ensures l != [] ==> pos + |l| < |data| && data[pos] == |l|
  {
    if l != [] {
      AtIndex(data, pos, LabelBytes(l), 0);
    }
  }

  lemma LabelsStop(data: seq<byte>, pos: nat, jumps: nat)
    requires jumps <= MAX_JUMPS && LinkAt(data, pos) == Stop
    ensures LabelsFrom(data, pos, jumps) == Ok(Parsed([], pos + 1))
  {
    hide LinkAt;
  }

  lemma LabelsCons(data: seq<byte>, pos: nat, jumps: nat)
    requires jumps <= MAX_JUMPS && LinkAt(data, pos).Text?
    requires LabelsFrom(data, LinkAt(data, pos).next, jumps).Ok?
    ensures var tail := LabelsFrom(data, LinkAt(data, pos).next, jumps).value;
            LabelsFrom(data, pos, jumps) == Ok(Parsed([LinkAt(data, pos).text] + tail.value, tail.end))
  {
    hide LinkAt;
  }

  lemma {:induction false} ReadPrintedLabels(data: seq<byte>, pos: nat, labels: seq<Label>, jumps: nat)
    requires jumps <= MAX_JUMPS
    requires forall l <- labels :: Fits(l) && ValidUtf8(l)
    requires At(data, pos, WireLabels(labels) + [0])
    ensures LabelsFrom(data, pos, jumps) == Ok(Parsed(NonEmpty(labels), pos + |WireLabels(labels)| + 1))
    decreases |labels|
  {
    hide ValidUtf8, LinkAt, At, LabelsFrom;
    if labels == [] {
      assert WireLabels(labels) + [0] == [0];
      LinkAtZero(data, pos);
      LabelsStop(data, pos, jumps);
    } else {
      var l, rest := labels[0], labels[1..];
      FirstPrinted(data, pos, labels);
      ReadPrintedLabels(data, pos + |LabelBytes(l)|, rest, jumps);
      if l != [] {
        LinkAtPrinted(data, pos, l);
        LabelsCons(data, pos, jumps);
      }
    }
  }

  /** A printable name is read back in canonical form from any place it was printed to. */
  lemma ReadPrinted(data: seq<byte>, pos: nat, name: Name)
    requires Printable(name) && At(data, pos, NameBytes(name))
    ensures NameAt(data, pos) == Ok(Parsed(Canon(name), pos + |NameBytes(name)|))
    ensures Plain(data, pos)
  {
    hide ValidUtf8;
    hide Split, ValidUtf8, LabelsFrom, Plain, WireLabels, At;
    Utf8Pieces(name);
    PrintedIsPlain(data, pos, Split(name));
    ReadPrintedLabels(data, pos, Split(name), 0);
  }

  /**
   The exact round trip: printing any `String` and reading it back gives that string if and only if every
   piece between its dots has at most 191 octets and none is empty (the root "" aside).
   */
  lemma NameRoundTrip(name: Name, suffix: seq<byte>)
    requires ValidUtf8(name)
    ensures NameAt(NameBytes(name) + suffix, 0) == Ok(Parsed(name, |NameBytes(name)|)) <==>
            All(Split(name), Fits) && NoEmptyPiece(name)
  {
    hide ValidUtf8, LabelsFrom, Split, WireLabels;
    var data := NameBytes(name) + suffix;
    assert At(data, 0, NameBytes(name));
    if All(Split(name), Fits) {
      ReadPrinted(data, 0, name);
      CanonFixpoint(name);
    } else if NameAt(data, 0) == Ok(Parsed(name, |NameBytes(name)|)) {
      ReadNamesArePrintable(data, 0);
    }
  }

  lemma PiecesAreLabels(labels: seq<Label>)
    requires All(labels, DotFree) && forall l <- labels :: l != []
    ensures NonEmpty(Split(Join(labels))) == labels
  {
    if labels == [] {
      assert Split([]) == [[]];
      assert NonEmpty([[]]) == NonEmpty([[]][1..]) == [];
    } else {
      SplitJoin(labels);
      NonEmptyKeeps(labels);
    }
  }

  /**
   What joining loses: the labels of a name that was read are the labels printed, wherever they are printed, if and
   only if none of them holds a dot.
   */
  lemma LabelsKept(data: seq<byte>, pos: nat, data': seq<byte>, pos': nat)
    requires LabelsFrom(data, pos, 0).Ok?
    requires At(data', pos', NameBytes(Join(LabelsFrom(data, pos, 0).value.value)))
    ensures var labels := LabelsFrom(data, pos, 0).value.value;
            var bytes := NameBytes(Join(labels));
            LabelsFrom(data', pos', 0) == Ok(Parsed(labels, pos' + |bytes|)) <==> All(labels, DotFree)
  {
    hide ValidUtf8, LabelsFrom, Split, WireLabels, At, Join;
    var labels := LabelsFrom(data, pos, 0).value.value;
    var name := Join(labels);
    ReadLabelsAreText(data, pos, 0);
    ReadNamesArePrintable(data, pos);
    Utf8Pieces(name);
    ReadPrintedLabels(data', pos', Split(name), 0);
    if All(labels, DotFree) {
      PiecesAreLabels(labels);
    }
    SplitPiecesDotFree(name);
    NonEmptyKeeps(Split(name));
  }

  /** The text of a name made of dot-free labels is canonical. */
  lemma DotFreeIsCanonical(data: seq<byte>, pos: nat)
    requires LabelsFrom(data, pos, 0).Ok? && All(LabelsFrom(data, pos, 0).value.value, DotFree)
    ensures Canon(Join(LabelsFrom(data, pos, 0).value.value)) == Join(LabelsFrom(data, pos, 0).value.value)
  {
    hide LabelsFrom, Split, Join, ValidUtf8;
    ReadLabelsAreText(data, pos, 0);
    PiecesAreLabels(LabelsFrom(data, pos, 0).value.value);
  }

  lemma {:induction false} AsciiIsText(s: seq<byte>)
    requires forall b <- s :: b < 0x80
    ensures ValidUtf8(s)
  {
    if s == [] {
    } else {
      assert s[0] in s && forall b <- s[1..] :: b in s;
      AsciiIsText(s[1..]);
    }
  }

  /** Such a name: the single label "a.b" reads as the text "a.b" and is printed as the labels "a" and "b". */
  lemma DottedLabelSplits()
    ensures var a, b := 'a' as int, 'b' as int;
            && LabelsFrom([3, a, DOT, b, 0], 0, 0) == Ok(Parsed([[a, DOT, b]], 5))
            && NameBytes([a, DOT, b]) == [1, a, 1, b, 0]
            && LabelsFrom([1, a, 1, b, 0], 0, 0) == Ok(Parsed([[a], [b]], 5))
  {
    hide ValidUtf8, LabelsFrom, NameBytes;
    var a: byte, b: byte := 'a' as int, 'b' as int;
    var whole: seq<byte> := [3, a, DOT, b, 0];
    AsciiIsText([a, DOT, b]);
    assert whole[1..4] == [a, DOT, b];
    OneLabelThenEnd(whole, 0);
    HalvesPrint(a, b);
    HalvesRead(a, b);
  }

  lemma HalvesPrint(a: byte, b: byte)
    requires a != DOT && b != DOT
    ensures NameBytes([a, DOT, b]) == [1, a, 1, b, 0]
  {
    hide Split;
    SplitDotFree([a]);
    SplitDotFree([b]);
    SplitConcat([a], [b]);
    assert [a] + [DOT] + [b] == [a, DOT, b];
    assert [[a]] + [[b]] == [[a], [b]];
    assert WireLabels([[a], [b]]) == LabelBytes([a]) + WireLabels([[b]]);
    assert WireLabels([[b]]) == LabelBytes([b]) + WireLabels([]);
  }

  lemma HalvesRead(a: byte, b: byte)
    requires a < 0x80 && b < 0x80
    ensures LabelsFrom([1, a, 1, b, 0], 0, 0) == Ok(Parsed([[a], [b]], 5))
  {
    hide ValidUtf8, LabelsFrom;
    var halves: seq<byte> := [1, a, 1, b, 0];
    AsciiIsText([a]);
    AsciiIsText([b]);
    assert halves[1..2] == [a] && halves[3..4] == [b];
    OneLabelThenEnd(halves, 2);
    LinkOfLabel(halves, 0);
    LabelsCons(halves, 0, 0);
    assert [[a]] + [[b]] == [[a], [b]];
  }

  lemma LinkOfLabel(data: seq<byte>, pos: nat)
    requires IsLabel(data, pos)
    ensures LinkAt(data, pos) == Text(data[pos + 1..pos + 1 + data[pos]], pos + 1 + data[pos])
  {
    hide ValidUtf8;
  }

  lemma OneLabelThenEnd(data: seq<byte>, pos: nat)
    requires IsLabel(data, pos) && IsEnd(data, pos + 1 + data[pos])
    ensures LabelsFrom(data, pos, 0) == Ok(Parsed([data[pos + 1..pos + 1 + data[pos]]], pos + 2 + data[pos]))
  {
    hide ValidUtf8;
    hide LabelsFrom;
    LinkOfLabel(data, pos);
    LabelsStop(data, pos + 1 + data[pos], 0);
    LabelsCons(data, pos, 0);
    var text := data[pos + 1..pos + 1 + data[pos]];
    assert [text] + [] == [text];
  }
}
