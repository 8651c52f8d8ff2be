/** The filter built from a configuration and the list bodies at hand. */
module Build {
  import opened Bytes
  import opened Rules
  import opened Blocklist
  import L = ListCache
  import P = CacheProtocol

  const LF: byte := 0x0A
  const CR: byte := 0x0D

  datatype Config = Config(urls: seq<L.Url>, allowUrls: seq<L.Url>, regexBlockUrls: seq<L.Url>,
                           regexAllowUrls: seq<L.Url>,
                           manualBlock: seq<Text>, manualAllow: seq<Text>, regexBlock: seq<Text>, regexAllow: seq<Text>)

  function LineBreak(s: Text): (i: nat)
    ensures i <= |s| && LF !in s[..i] && (i < |s| ==> s[i] == LF)
  {
    if s == [] || s[0] == LF then 0 else 1 + LineBreak(s[1..])
  }

  /** Rust's `str::lines`. */
  function Lines(s: Text): seq<Text>
    decreases |s|
  {
    if s == [] then []
    else
      var i := LineBreak(s);
      if i == |s| then [s]
      else [if i > 0 && s[i - 1] == CR then s[..i - 1] else s[..i]] + Lines(s[i + 1..])
  }

  /** The bodies of the lists of one kind, in configuration order; a list without a body is skipped. */
  function ListBodies(urls: seq<L.Url>, source: Source, bodies: map<L.Url, Text>): seq<Body> {
    if urls == [] then []
    else
      (if urls[0] in bodies then [Body(source, Lines(bodies[urls[0]]))] else [])
      + ListBodies(urls[1..], source, bodies)
  }

  function Manual(config: Config): seq<Body> {
    [Body(Line(AdBlock, false), config.manualBlock), Body(ManualAllow, config.manualAllow),
     Body(ManualPattern(false), config.regexBlock), Body(ManualPattern(true), config.regexAllow)]
  }

  function Everything(config: Config, bodies: map<L.Url, Text>): seq<Body> {
    Manual(config)
    + ListBodies(config.urls, Auto(false), bodies) + ListBodies(config.allowUrls, Auto(true), bodies)
    + ListBodies(config.regexBlockUrls, RegexLine(false), bodies)
    + ListBodies(config.regexAllowUrls, RegexLine(true), bodies)
  }

  method AppendLists(done: seq<Body>, urls: seq<L.Url>, source: Source, bodies: map<L.Url, Text>)
    returns (all: seq<Body>)
    ensures all == done + ListBodies(urls, source, bodies)
  {
    hide Lines;
    all := done;
    for i := 0 to |urls|
      invariant all + ListBodies(urls[i..], source, bodies) == done + ListBodies(urls, source, bodies)
    {
      assert urls[i..][1..] == urls[i + 1..];
      if urls[i] in bodies {
        var body := Body(source, Lines(bodies[urls[i]]));
        assert all + ([body] + ListBodies(urls[i + 1..], source, bodies)) ==
            all + [body] + ListBodies(urls[i + 1..], source, bodies);
        all := all + [body];
      } else {
        assert ListBodies(urls[i..], source, bodies) == ListBodies(urls[i + 1..], source, bodies);
      }
    }
    assert all + [] == all;
  }

  // ----- what a configuration says, line by line

  /**
   A line of a text: a piece between line feeds, without the carriage return right before its line feed; nothing after
   the last line feed is no line.
   */
  ghost predicate LineOf(text: Text, l: Text) {
    exists before, piece, after :: Piece(text, before, piece, after) && l == Returned(piece, after)
  }

  predicate Piece(text: Text, before: Text, piece: Text, after: Text) {
    && text == before + piece + after && LF !in piece
    && (before == [] || before[|before| - 1] == LF) && (after == [] || after[0] == LF)
    && (after == [] ==> piece != [])
  }

  function Returned(piece: Text, after: Text): Text {
    if after != [] && piece != [] && piece[|piece| - 1] == CR then piece[..|piece| - 1] else piece
  }

  lemma FirstPiece(text: Text)
    requires text != []
    ensures var i := LineBreak(text); Piece(text, [], text[..i], text[i..])
  {
    hide LineBreak;
    var i := LineBreak(text);
    assert text == [] + text[..i] + text[i..];
  }

  lemma FirstLine(text: Text)
    requires text != []
    ensures var i := LineBreak(text);
            Lines(text) == [Returned(text[..i], text[i..])] + (if i == |text| then [] else Lines(text[i + 1..]))
  {
    hide LineBreak;
    var i := LineBreak(text);
    if i < |text| {
      assert i > 0 ==> text[..i][i - 1] == text[i - 1] && text[..i][..i - 1] == text[..i - 1];
    } else {
      assert text[..i] == text && text[i..] == [];
    }
  }

  lemma LaterPiece(text: Text, before: Text, piece: Text, after: Text)
    requires Piece(text, before, piece, after)
    ensures var i := LineBreak(text);
            if before == [] then piece == text[..i] && after == text[i..]
            else i < |before| && Piece(text[i + 1..], before[i + 1..], piece, after)
  {
    hide LineBreak;
    var i := LineBreak(text);
    assert forall j :: 0 <= j < i ==> text[j] == text[..i][j] != LF;
    if before == [] {
      assert text == piece + after;
      assert forall j :: 0 <= j < |piece| ==> text[j] == piece[j] && piece[j] in piece;
      assert after != [] ==> text[|piece|] == LF;
      assert i == |piece|;
    } else {
      assert text[|before| - 1] == LF;
      assert text[i + 1..] == before[i + 1..] + piece + after;
    }
  }

  lemma PieceBehind(text: Text, i: nat, before: Text, piece: Text, after: Text)
    requires i < |text| && text[i] == LF && Piece(text[i + 1..], before, piece, after)
    ensures Piece(text, text[..i + 1] + before, piece, after)
  {
    assert text == text[..i + 1] + text[i + 1..];
  }

  /** The lines the program reads from a text are its lines. */
  lemma {:induction false} LinesAre(text: Text, l: Text)
    ensures l in Lines(text) <==> LineOf(text, l)
    decreases |text|
  {
    hide Lines, LineBreak, Piece, Returned;
    if text == [] {
      NoLines(l);
    } else {
      var i := LineBreak(text);
      FirstPiece(text);
      FirstLine(text);
      if i < |text| {
        LinesAre(text[i + 1..], l);
        if l in Lines(text[i + 1..]) {
          var before, piece, after :| Piece(text[i + 1..], before, piece, after) && l == Returned(piece, after);
          PieceBehind(text, i, before, piece, after);
        }
      }
      if LineOf(text, l) {
        var before, piece, after :| Piece(text, before, piece, after) && l == Returned(piece, after);
        LaterPiece(text, before, piece, after);
        AtEnd(text, before, piece, after);
      }
    }
  }

  lemma NoLines(l: Text)
    ensures Lines([]) == [] && !LineOf([], l)
  {
  }

  lemma AtEnd(text: Text, before: Text, piece: Text, after: Text)
    requires Piece(text, before, piece, after)
    ensures |before| <= |text|
  {
  }

  /** Some line of the configuration, or of a body of one of its lists, comes to `o` as lines of its kind are read. */
  ghost predicate Says(engine: Engine, config: Config, bodies: map<L.Url, Text>, o: Outcome) {
    || (exists l <- config.manualBlock :: Read(engine, Line(AdBlock, false), l) == o)
    || (exists l <- config.manualAllow :: Read(engine, ManualAllow, l) == o)
    || (exists l <- config.regexBlock :: Read(engine, ManualPattern(false), l) == o)
    || (exists l <- config.regexAllow :: Read(engine, ManualPattern(true), l) == o)
    || ListSays(engine, config.urls, Auto(false), bodies, o)
    || ListSays(engine, config.allowUrls, Auto(true), bodies, o)
    || ListSays(engine, config.regexBlockUrls, RegexLine(false), bodies, o)
    || ListSays(engine, config.regexAllowUrls, RegexLine(true), bodies, o)
  }

  ghost predicate ListSays(engine: Engine, urls: seq<L.Url>, source: Source, bodies: map<L.Url, Text>, o: Outcome) {
    exists u <- urls, l: Text :: u in bodies && LineOf(bodies[u], l) && Read(engine, source, l) == o
  }

  /** Some line of some body comes to `o`. */
  ghost predicate AnySays(engine: Engine, all: seq<Body>, o: Outcome) {
    exists b <- all, l <- b.lines :: Read(engine, b.source, l) == o
  }

  lemma AnySaysConcat(engine: Engine, a: seq<Body>, b: seq<Body>, o: Outcome)
    ensures AnySays(engine, a + b, o) <==> AnySays(engine, a, o) || AnySays(engine, b, o)
  {
    hide Read;
    assert forall x :: x in a + b <==> x in a || x in b;
  }

  lemma OneSays(engine: Engine, b: Body, o: Outcome)
    ensures AnySays(engine, [b], o) <==> exists l <- b.lines :: Read(engine, b.source, l) == o
  {
    hide Read;
    assert b in [b];
  }

  lemma {:induction false} ListBodiesSay(engine: Engine, urls: seq<L.Url>, source: Source, bodies: map<L.Url, Text>,
                                         o: Outcome)
    ensures AnySays(engine, ListBodies(urls, source, bodies), o) <==> ListSays(engine, urls, source, bodies, o)
  {
    hide Read, Lines, AnySays, LineOf;
    if urls == [] {
      assert ListBodies(urls, source, bodies) == [];
      NothingSays(engine, o);
    } else {
      var rest := ListBodies(urls[1..], source, bodies);
      ListBodiesSay(engine, urls[1..], source, bodies, o);
      assert urls == [urls[0]] + urls[1..];
      assert forall u :: u in urls <==> u == urls[0] || u in urls[1..];
      if urls[0] in bodies {
        var body := Body(source, Lines(bodies[urls[0]]));
        AnySaysConcat(engine, [body], rest, o);
        OneSays(engine, body, o);
        forall l
          ensures l in Lines(bodies[urls[0]]) <==> LineOf(bodies[urls[0]], l)
        {
          LinesAre(bodies[urls[0]], l);
        }
      } else {
        assert ListBodies(urls, source, bodies) == [] + rest == rest;
      }
    }
  }

  lemma NothingSays(engine: Engine, o: Outcome)
    ensures !AnySays(engine, [], o)
  {
  }

  lemma ManualSays(engine: Engine, config: Config, o: Outcome)
    ensures AnySays(engine, Manual(config), o) <==>
            || (exists l <- config.manualBlock :: Read(engine, Line(AdBlock, false), l) == o)
            || (exists l <- config.manualAllow :: Read(engine, ManualAllow, l) == o)
            || (exists l <- config.regexBlock :: Read(engine, ManualPattern(false), l) == o)
            || (exists l <- config.regexAllow :: Read(engine, ManualPattern(true), l) == o)
  {
    hide Read, AnySays;
    var b0, b1 := Body(Line(AdBlock, false), config.manualBlock), Body(ManualAllow, config.manualAllow);
    var b2, b3 := Body(ManualPattern(false), config.regexBlock), Body(ManualPattern(true), config.regexAllow);
    assert Manual(config) == [b0] + ([b1] + ([b2] + [b3]));
    AnySaysConcat(engine, [b0], [b1] + ([b2] + [b3]), o);
    AnySaysConcat(engine, [b1], [b2] + [b3], o);
    AnySaysConcat(engine, [b2], [b3], o);
    OneSays(engine, b0, o);
    OneSays(engine, b1, o);
    OneSays(engine, b2, o);
    OneSays(engine, b3, o);
  }

  lemma EverythingSays(engine: Engine, config: Config, bodies: map<L.Url, Text>, o: Outcome)
    ensures AnySays(engine, Everything(config, bodies), o) <==> Says(engine, config, bodies, o)
  {
    hide Read, AnySays, Manual, ListBodies, ListSays;
    var a, b := ListBodies(config.urls, Auto(false), bodies), ListBodies(config.allowUrls, Auto(true), bodies);
    var c := ListBodies(config.regexBlockUrls, RegexLine(false), bodies);
    var d := ListBodies(config.regexAllowUrls, RegexLine(true), bodies);
    assert Everything(config, bodies) == Manual(config) + a + b + c + d;
    AnySaysConcat(engine, Manual(config) + a + b + c, d, o);
    AnySaysConcat(engine, Manual(config) + a + b, c, o);
    AnySaysConcat(engine, Manual(config) + a, b, o);
    AnySaysConcat(engine, Manual(config), a, o);
    ManualSays(engine, config, o);
    ListBodiesSay(engine, config.urls, Auto(false), bodies, o);
    ListBodiesSay(engine, config.allowUrls, Auto(true), bodies, o);
    ListBodiesSay(engine, config.regexBlockUrls, RegexLine(false), bodies, o);
    ListBodiesSay(engine, config.regexAllowUrls, RegexLine(true), bodies, o);
  }

  /** The rules of a build are exactly those its configuration says, and it panics exactly if some line does. */
  lemma BuildIsConfigured(engine: Engine, config: Config, bodies: map<L.Url, Text>)
    ensures var all := Everything(config, bodies);
            && (PanicsIn(engine, all) <==> Says(engine, config, bodies, Panic))
            && (!PanicsIn(engine, all) ==>
                  forall r :: r in RulesOfAll(engine, all) <==> Says(engine, config, bodies, Add(r)))
  {
    hide Read, Everything, RulesOfAll, Says;
    var all := Everything(config, bodies);
    EverythingSays(engine, config, bodies, Panic);
    if !PanicsIn(engine, all) {
      forall r
        ensures r in RulesOfAll(engine, all) <==> Says(engine, config, bodies, Add(r))
      {
        EverythingSays(engine, config, bodies, Add(r));
        RulesOfAllMembers(engine, all, r);
      }
    }
  }

  method CreateBlocklist(engine: Engine, config: Config, bodies: map<L.Url, Text>)
    returns (bl: BlockList, panicked: bool)
    ensures fresh(bl)
    ensures panicked <==> PanicsIn(engine, Everything(config, bodies))
    ensures !panicked ==> Indexes(bl.Value(), RulesOfAll(engine, Everything(config, bodies)))
    ensures panicked <==> Says(engine, config, bodies, Panic)
    ensures !panicked ==> forall r :: Holds(bl.Value(), r) <==> Says(engine, config, bodies, Add(r))
  {
    hide ListBodies, PanicsIn, RulesOfAll, Read, Holds, Says;
    BuildIsConfigured(engine, config, bodies);
    var all := AppendLists(Manual(config), config.urls, Auto(false), bodies);
    all := AppendLists(all, config.allowUrls, Auto(true), bodies);
    all := AppendLists(all, config.regexBlockUrls, RegexLine(false), bodies);
    all := AppendLists(all, config.regexAllowUrls, RegexLine(true), bodies);
    bl, panicked := Blocklist.Build(engine, all);
  }

  /**
   The verdict of a built filter, told from the configuration: some line adds an allow rule that fires, or else a block
   rule.
   */
  lemma VerdictIsConfigured(engine: Engine, config: Config, bodies: map<L.Url, Text>, index: Index, domain: Text)
    requires forall r :: Holds(index, r) <==> Says(engine, config, bodies, Add(r))
    ensures VerdictOf(Looked(engine, index, domain)) ==
            if exists r: Rule :: r.allow && Fires(engine, r, domain) && Says(engine, config, bodies, Add(r))
            then Allowed
            else if exists r: Rule :: !r.allow && Fires(engine, r, domain) && Says(engine, config, bodies, Add(r))
            then Blocked
            else Forwarded
  {
    hide Says, Looked, Fires, Holds;
    var o := Looked(engine, index, domain);
    LookupJustified(engine, index, domain);
    assert o.AllowedBy? ==> Holds(index, o.rule);
    assert o.BlockedBy? ==> Holds(index, o.rule);
    forall r | Fires(engine, r, domain) && Says(engine, config, bodies, Add(r))
      ensures VerdictOf(o) == Allowed || (!r.allow && VerdictOf(o) == Blocked)
    {
      assert Holds(index, r);
      LookupComplete(engine, index, domain, r);
    }
  }

  /** The configured lists of each kind, with the way their lines are read. */
  function Lists(config: Config): seq<(seq<L.Url>, Source)> {
    [(config.urls, Auto(false)), (config.allowUrls, Auto(true)),
     (config.regexBlockUrls, RegexLine(false)), (config.regexAllowUrls, RegexLine(true))]
  }

  /** A configured entry, or a line some response delivered for a configured URL, read as lists of its kind are. */
  ghost predicate Accountable(engine: Engine, config: Config, served: set<P.Origin>, r: Rule) {
    || (exists b <- Manual(config), l <- b.lines :: Read(engine, b.source, l) == Add(r))
    || (exists o <- served, list <- Lists(config) :: o.url in list.0 && FromLine(engine, list.1, o.body, r))
  }

  ghost predicate FromLine(engine: Engine, source: Source, body: Text, r: Rule) {
    exists l <- Lines(body) :: Read(engine, source, l) == Add(r)
  }

  lemma {:induction false} ListBodiesServed(urls: seq<L.Url>, source: Source, bodies: map<L.Url, Text>,
                                            served: set<P.Origin>,
                                            b: Body) returns (o: P.Origin)
    requires P.BodiesServed(bodies, served) && b in ListBodies(urls, source, bodies)
    ensures o in served && o.url in urls && b == Body(source, Lines(o.body))
  {
    hide Lines;
    if urls[0] in bodies && b == Body(source, Lines(bodies[urls[0]])) {
      assert P.ServedBody(served, urls[0], bodies[urls[0]]);
      o :| o in served && o.url == urls[0] && o.body == bodies[urls[0]];
    } else {
      o := ListBodiesServed(urls[1..], source, bodies, served, b);
    }
  }

  lemma BodyIsAccountable(engine: Engine, config: Config, bodies: map<L.Url, Text>, served: set<P.Origin>, b: Body,
                          l: Text, r: Rule)
    requires P.BodiesServed(bodies, served) && b in Everything(config, bodies) && l in b.lines
    requires Read(engine, b.source, l) == Add(r)
    ensures Accountable(engine, config, served, r)
  {
    hide Lines, Read, ListBodies, P.BodiesServed;
    if b !in Manual(config) {
      var list :| list in Lists(config) && b in ListBodies(list.0, list.1, bodies);
      var o := ListBodiesServed(list.0, list.1, bodies, served, b);
      assert FromLine(engine, list.1, o.body, r);
    }
  }

  /**
   End to end: the filter a build publishes gives each name the verdict of a scan of every configured entry and list
   line, and the rule it names comes from one of them,
       a list line having been delivered by its own URL and read as lists
   of its kind are.
   */
  lemma VerdictsAreAccountable(engine: Engine, config: Config, bodies: map<L.Url, Text>, served: set<P.Origin>,
                               index: Index, domain: Text)
    requires P.BodiesServed(bodies, served) && !PanicsIn(engine, Everything(config, bodies))
    requires Indexes(index, RulesOfAll(engine, Everything(config, bodies)))
    ensures var o := Looked(engine, index, domain);
            && VerdictOf(o) == NaiveVerdict(engine, RulesOfAll(engine, Everything(config, bodies)), domain)
            && (!o.NoMatch? ==> Fires(engine, o.rule, domain) && Accountable(engine, config, served, o.rule))
  {
    hide Read, Looked, Everything, PanicsIn, RulesOfAll, NaiveVerdict, P.BodiesServed, Accountable, Fires;
    var all := Everything(config, bodies);
    var o := Looked(engine, index, domain);
    LookupIsScan(engine, index, RulesOfAll(engine, all), domain);
    if !o.NoMatch? {
      assert Holds(index, o.rule);
      RulesOfAllMembers(engine, all, o.rule);
      var b, l :| b in all && l in b.lines && Read(engine, b.source, l) == Add(o.rule);
      BodyIsAccountable(engine, config, bodies, served, b, l, o.rule);
    }
  }
}
