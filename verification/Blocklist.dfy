/** The compiled rule index: hash sets and pattern vectors, filled line by line and queried by label walk. */
module Blocklist {
  import opened Bytes
  import opened Rules

  /** The contents of an index. */
  datatype Index = Index(allowDomains: set<Text>, blockDomains: set<Text>, allowSuffixes: set<Text>,
                         blockSuffixes: set<Text>, allowRegex: seq<Text>, blockRegex: seq<Text>)

  const EMPTY: Index := Index({}, {}, {}, {}, [], [])

  predicate Holds(index: Index, r: Rule) {
    match r
    case Exact(allow, d) => d in (if allow then index.allowDomains else index.blockDomains)
    case Suffix(allow, d) => d in (if allow then index.allowSuffixes else index.blockSuffixes)
    case Pattern(allow, p) => p in (if allow then index.allowRegex else index.blockRegex)
  }

  /** The index holds exactly the given rules. */
  ghost predicate Indexes(index: Index, rules: seq<Rule>) {
    forall r :: Holds(index, r) <==> r in rules
  }

  function Inserted(index: Index, r: Rule): Index {
    match r
    case Exact(true, d) => index.(allowDomains := index.allowDomains + {d})
    case Exact(false, d) => index.(blockDomains := index.blockDomains + {d})
    case Suffix(true, d) => index.(allowSuffixes := index.allowSuffixes + {d})
    case Suffix(false, d) => index.(blockSuffixes := index.blockSuffixes + {d})
    case Pattern(true, p) => index.(allowRegex := index.allowRegex + [p])
    case Pattern(false, p) => index.(blockRegex := index.blockRegex + [p])
  }

  function Merged(a: Index, b: Index): Index {
    Index(a.allowDomains + b.allowDomains, a.blockDomains + b.blockDomains,
          a.allowSuffixes + b.allowSuffixes, a.blockSuffixes + b.blockSuffixes,
          a.allowRegex + b.allowRegex, a.blockRegex + b.blockRegex)
  }

  function Applied(index: Index, o: Outcome): Index {
    if o.Add? then Inserted(index, o.rule) else index
  }

  lemma InsertedHolds(index: Index, r: Rule, q: Rule)
    ensures Holds(Inserted(index, r), q) <==> Holds(index, q) || q == r
  {
  }

  lemma MergedHolds(a: Index, b: Index, r: Rule)
    ensures Holds(Merged(a, b), r) <==> Holds(a, r) || Holds(b, r)
  {
  }

  // ----- the rules of a sequence of lines

  /** The rules that lines add, up to the line that panics if there is one. */
  function RulesOf(engine: Engine, source: Source, lines: seq<Text>): seq<Rule> {
    if lines == [] then []
    else
      match Read(engine, source, lines[0])
      case Panic => []
      case Add(r) => [r] + RulesOf(engine, source, lines[1..])
      case _ => RulesOf(engine, source, lines[1..])
  }

  predicate Panics(engine: Engine, source: Source, lines: seq<Text>) {
    exists l <- lines :: Read(engine, source, l) == Panic
  }

  datatype Body = Body(source: Source, lines: seq<Text>)

  /** The rules of a whole configuration: every manual entry and list body in turn. */
  function RulesOfAll(engine: Engine, bodies: seq<Body>): seq<Rule> {
    if bodies == [] then [] else RulesOf(engine, bodies[0].source, bodies[0].lines) + RulesOfAll(engine, bodies[1..])
  }

  predicate PanicsIn(engine: Engine, bodies: seq<Body>) {
    exists b <- bodies :: Panics(engine, b.source, b.lines)
  }

  // ----- queries

  function FirstDot(s: Text): (i: nat)
    ensures i <= |s| && (i < |s| ==> s[i] == DOT) && forall j :: 0 <= j < i ==> s[j] != DOT
  {
    if s == [] || s[0] == DOT then 0 else 1 + FirstDot(s[1..])
  }

  /** The first covering suffix met when labels are dropped from the left, hence the longest one. */
  function SuffixHit(suffixes: set<Text>, domain: Text): Option<Text>
    decreases |domain|
  {
    if domain in suffixes then Some(domain)
    else if FirstDot(domain) == |domain| then None
    else SuffixHit(suffixes, domain[FirstDot(domain) + 1..])
  }

  function FirstMatch(engine: Engine, patterns: seq<Text>, domain: Text): Option<Text> {
    if patterns == [] then None
    else if engine.matches(patterns[0], domain) then Some(patterns[0])
    else FirstMatch(engine, patterns[1..], domain)
  }

  /** The verdict, with the rule that decided it. */
  datatype MatchOutcome = AllowedBy(rule: Rule) | BlockedBy(rule: Rule) | NoMatch

  function VerdictOf(o: MatchOutcome): Verdict {
    match o
    case AllowedBy(_) => Allowed
    case BlockedBy(_) => Blocked
    case NoMatch => Forwarded
  }

  function Looked(engine: Engine, index: Index, domain: Text): MatchOutcome {
    var allowRegex := FirstMatch(engine, index.allowRegex, domain);
    var allowSuffix := SuffixHit(index.allowSuffixes, domain);
    var blockSuffix := SuffixHit(index.blockSuffixes, domain);
    var blockRegex := FirstMatch(engine, index.blockRegex, domain);
    if domain in index.allowDomains then AllowedBy(Exact(true, domain))
    else if allowRegex.Some? then AllowedBy(Pattern(true, allowRegex.value))
    else if allowSuffix.Some? then AllowedBy(Suffix(true, allowSuffix.value))
    else if domain in index.blockDomains then BlockedBy(Exact(false, domain))
    else if blockSuffix.Some? then BlockedBy(Suffix(false, blockSuffix.value))
    else if blockRegex.Some? then BlockedBy(Pattern(false, blockRegex.value))
    else NoMatch
  }

  // ----- the class

  class BlockList {
    var allowDomains: set<Text>
    var blockDomains: set<Text>
    var allowSuffixes: set<Text>
    var blockSuffixes: set<Text>
    var allowRegex: seq<Text>
    var blockRegex: seq<Text>

    constructor ()
      ensures Value() == EMPTY
    {
      allowDomains, blockDomains, allowSuffixes, blockSuffixes := {}, {}, {}, {};
      allowRegex, blockRegex := [], [];
    }

    function Value(): Index
      reads this
    {
      Index(allowDomains, blockDomains, allowSuffixes, blockSuffixes, allowRegex, blockRegex)
    }

    method Insert(r: Rule)
      modifies this
      ensures Value() == Inserted(old(Value()), r)
    {
      match r
      case Exact(allow, domain) =>
        if allow {
          allowDomains := allowDomains + {domain};
        } else {
          blockDomains := blockDomains + {domain};
        }
      case Suffix(allow, domain) =>
        if allow {
          allowSuffixes := allowSuffixes + {domain};
        } else {
          blockSuffixes := blockSuffixes + {domain};
        }
      case Pattern(allow, pattern) =>
        if allow {
          allowRegex := allowRegex + [pattern];
        } else {
          blockRegex := blockRegex + [pattern];
        }
    }

    /** The bare-domain form of a line. */
    method AddExact(line: Text, allow: bool) returns (o: Outcome)
      modifies this
      ensures o == ExactRule(line, allow)
      ensures Value() == Applied(old(Value()), o)
    {
      hide CleanDomain, Lower, Inserted;
      var cleaned := CleanDomain(line);
      if cleaned.None? {
        return Nothing;
      }
      var domain := Lower(cleaned.value);
      Insert(Exact(allow, domain));
      return Add(Exact(allow, domain));
    }

    method AddPattern(engine: Engine, pattern: Text, allow: bool) returns (o: Outcome)
      modifies this
      ensures o == PatternRule(engine, pattern, allow)
      ensures Value() == Applied(old(Value()), o)
    {
      hide Inserted;
      if !engine.compiles(pattern) {
        return BadPattern;
      }
      Insert(Pattern(allow, pattern));
      return Add(Pattern(allow, pattern));
    }

    method ParseAdBlock(engine: Engine, line: Text, asAllow: bool) returns (o: Outcome)
      modifies this
      ensures o == AdBlockOutcome(engine, line, asAllow)
      ensures Value() == Applied(old(Value()), o)
    {
      hide SuffixDomain, TrimLeading, Inserted, ExactRule, PatternRule, Slashed;
      var hasAt := ATAT <= line;
      var isAllow := asAllow || hasAt;
      var part := TrimLeading(line, ATAT);
      if BARS <= part {
        var domain := SuffixDomain(part);
        if domain == [] {
          return Nothing;
        }
        Insert(Suffix(isAllow, domain));
        return Add(Suffix(isAllow, domain));
      } else if Slashed(part) {
        SlashedNotEmpty(part);
        if |part| < 2 {
          return Panic;
        }
        o := AddPattern(engine, part[1..|part| - 1], isAllow);
      } else {
        o := AddExact(part, isAllow);
      }
    }

    method ParseLineMode(engine: Engine, line: Text, format: ListFormat, asAllow: bool) returns (o: Outcome)
      modifies this
      ensures o == LineOutcome(engine, line, format, asAllow)
      ensures Value() == Applied(old(Value()), o)
    {
      hide Trim, AdBlockOutcome, ExactRule, Inserted;
      var line := Trim(line);
      if line == [] || line[0] == BANG || line[0] == HASH {
        return Nothing;
      }
      match format {
        case Hosts | PiHole => o := AddExact(line, asAllow);
        case AdBlock | AdGuard => o := ParseAdBlock(engine, line, asAllow);
      }
    }

    method ParseAutoMode(engine: Engine, line: Text, asAllow: bool) returns (o: Outcome)
      modifies this
      ensures o == AutoOutcome(engine, line, asAllow)
      ensures Value() == Applied(old(Value()), o)
    {
      hide Trim, LineOutcome;
      var line := Trim(line);
      if line == [] || line[0] == BANG || line[0] == HASH {
        return Nothing;
      }
      if BARS <= line || ATAT <= line || (line[0] == SLASH && line[|line| - 1] == SLASH) {
        o := ParseLineMode(engine, line, AdBlock, asAllow);
      } else {
        o := ParseLineMode(engine, line, Hosts, asAllow);
      }
    }

    method ParseRegexLine(engine: Engine, line: Text, asAllow: bool) returns (o: Outcome)
      modifies this
      ensures o == RegexOutcome(engine, line, asAllow)
      ensures Value() == Applied(old(Value()), o)
    {
      hide Trim, BeforeText;
      var line := Trim(line);
      if line == [] || line[0] == HASH || line[0] == BANG || [DASH, DASH] <= line {
        return Nothing;
      }
      var pattern := Trim(BeforeText(line, COMMENT));
      if pattern == [] {
        return Nothing;
      }
      if pattern[0] == SLASH && pattern[1..] != [] && pattern[|pattern| - 1] == SLASH {
        pattern := pattern[1..|pattern| - 1];
      }
      if pattern == [] {
        return Nothing;
      }
      o := AddPattern(engine, pattern, asAllow);
    }

    method ParseManual(engine: Engine, source: Source, line: Text) returns (o: Outcome)
      requires source.ManualAllow? || source.ManualPattern?
      modifies this
      ensures o == Read(engine, source, line)
      ensures Value() == Applied(old(Value()), o)
    {
      hide Lower, TrimTrailing;
      match source
      case ManualAllow =>
        var domain := TrimTrailing(Lower(line), DOT);
        Insert(Exact(true, domain));
        return Add(Exact(true, domain));
      case ManualPattern(asAllow) =>
        o := AddPattern(engine, line, asAllow);
    }

    method ParseSource(engine: Engine, source: Source, line: Text) returns (o: Outcome)
      modifies this
      ensures o == Read(engine, source, line)
      ensures Value() == Applied(old(Value()), o)
    {
      hide LineOutcome, AutoOutcome, RegexOutcome, Inserted;
      match source
      case Line(format, asAllow) => o := ParseLineMode(engine, line, format, asAllow);
      case Auto(asAllow) => o := ParseAutoMode(engine, line, asAllow);
      case RegexLine(asAllow) => o := ParseRegexLine(engine, line, asAllow);
      case _ => o := ParseManual(engine, source, line);
    }

    /** Read lines in turn; unreadable ones are skipped, a panic stops the reading. */
    method Load(engine: Engine, source: Source, lines: seq<Text>, ghost sofar: seq<Rule>) returns (panicked: bool)
      requires Indexes(Value(), sofar)
      modifies this
      ensures panicked <==> Panics(engine, source, lines)
      ensures Indexes(Value(), sofar + RulesOf(engine, source, lines))
    {
      hide Read, Indexes, Inserted, RulesOf, Panics;
      ghost var rules := sofar;
      panicked := false;
      assert lines[0..] == lines && lines[..0] == [];
      PanicsStep(engine, source, lines, 0);
      for i := 0 to |lines|
        invariant !panicked && !Panics(engine, source, lines[..i])
        invariant Indexes(Value(), rules)
        invariant rules + RulesOf(engine, source, lines[i..]) == sofar + RulesOf(engine, source, lines)
      {
        ghost var before := Value();
        RulesStep(engine, source, lines, i);
        PanicsStep(engine, source, lines, i);
        var o := ParseSource(engine, source, lines[i]);
        if o == Panic {
          assert rules + [] == rules;
          return true;
        }
        if o.Add? {
          IndexesInserted(before, rules, o.rule);
          Regroup(rules, [o.rule], RulesOf(engine, source, lines[i + 1..]));
          rules := rules + [o.rule];
        }
      }
      RulesStep(engine, source, lines, |lines|);
      assert lines[..|lines|] == lines;
      assert rules + [] == rules;
    }

    /** Rust's `extend` of each set and vector with those of another index. */
    method Merge(source: BlockList)
      requires source != this
      modifies this
      ensures Value() == Merged(old(Value()), source.Value())
    {
      allowDomains := allowDomains + source.allowDomains;
      blockDomains := blockDomains + source.blockDomains;
      allowSuffixes := allowSuffixes + source.allowSuffixes;
      blockSuffixes := blockSuffixes + source.blockSuffixes;
      allowRegex := allowRegex + source.allowRegex;
      blockRegex := blockRegex + source.blockRegex;
    }

    method Check(engine: Engine, domain: Text) returns (o: MatchOutcome)
      ensures o == Looked(engine, Value(), Lower(domain))
    {
      hide Lower, SuffixHit, FirstMatch;
      var domain' := domain;
      LowerFixpoint(domain);
      if HasUpper(domain) {
        domain' := Lower(domain);
      }
      if domain' in allowDomains {
        return AllowedBy(Exact(true, domain'));
      }
      var re := FindPattern(engine, allowRegex, domain');
      if re.Some? {
        return AllowedBy(Pattern(true, re.value));
      }
      var hit := SuffixMatch(allowSuffixes, domain');
      if hit.Some? {
        return AllowedBy(Suffix(true, hit.value));
      }
      if domain' in blockDomains {
        return BlockedBy(Exact(false, domain'));
      }
      hit := SuffixMatch(blockSuffixes, domain');
      if hit.Some? {
        return BlockedBy(Suffix(false, hit.value));
      }
      re := FindPattern(engine, blockRegex, domain');
      if re.Some? {
        return BlockedBy(Pattern(false, re.value));
      }
      return NoMatch;
    }
  }

  lemma SlashedNotEmpty(s: Text)
    ensures Slashed(s) ==> s != []
  {
  }

  lemma Regroup(a: seq<Rule>, b: seq<Rule>, c: seq<Rule>)
    ensures a + (b + c) == a + b + c
  {
  }

  method SuffixMatch(suffixes: set<Text>, domain: Text) returns (hit: Option<Text>)
    ensures hit == SuffixHit(suffixes, domain)
  {
    if domain in suffixes {
      return Some(domain);
    }
    var rest := domain;
    while FirstDot(rest) < |rest|
      invariant rest !in suffixes && SuffixHit(suffixes, domain) == SuffixHit(suffixes, rest)
      decreases |rest|
    {
      rest := rest[FirstDot(rest) + 1..];
      if rest in suffixes {
        return Some(rest);
      }
    }
    return None;
  }

  method FindPattern(engine: Engine, patterns: seq<Text>, domain: Text) returns (hit: Option<Text>)
    ensures hit == FirstMatch(engine, patterns, domain)
  {
    for i := 0 to |patterns|
      invariant FirstMatch(engine, patterns, domain) == FirstMatch(engine, patterns[i..], domain)
    {
      assert patterns[i..][1..] == patterns[i + 1..];
      if engine.matches(patterns[i], domain) {
        return Some(patterns[i]);
      }
    }
    return None;
  }

  lemma RulesStep(engine: Engine, source: Source, lines: seq<Text>, i: nat)
    requires i <= |lines|
    ensures i == |lines| ==> RulesOf(engine, source, lines[i..]) == []
    ensures i < |lines| ==>
              (match Read(engine, source, lines[i])
               case Panic => RulesOf(engine, source, lines[i..]) == []
               case Add(r) => RulesOf(engine, source, lines[i..]) == [r] + RulesOf(engine, source, lines[i + 1..])
               case _ => RulesOf(engine, source, lines[i..]) == RulesOf(engine, source, lines[i + 1..]))
  {
    hide Read;
    if i < |lines| {
      assert lines[i..][1..] == lines[i + 1..];
    }
  }

  lemma PanicsStep(engine: Engine, source: Source, lines: seq<Text>, i: nat)
    requires i <= |lines|
    ensures !Panics(engine, source, [])
    ensures i < |lines| ==>
              (Panics(engine, source, lines[..i + 1]) <==>
               Panics(engine, source, lines[..i]) || Read(engine, source, lines[i]) == Panic)
    ensures i < |lines| && Read(engine, source, lines[i]) == Panic ==> Panics(engine, source, lines)
  {
    hide Read;
    if i < |lines| {
      assert lines[i] in lines;
      assert lines[..i + 1] == lines[..i] + [lines[i]];
    }
  }

  lemma IndexesInserted(index: Index, rules: seq<Rule>, r: Rule)
    requires Indexes(index, rules)
    ensures Indexes(Inserted(index, r), rules + [r])
  {
    hide Holds, Inserted;
    forall q
      ensures Holds(Inserted(index, r), q) <==> q in rules + [r]
    {
      InsertedHolds(index, r, q);
    }
  }

  /** Compile a whole configuration. */
  method Build(engine: Engine, bodies: seq<Body>) returns (bl: BlockList, panicked: bool)
    ensures fresh(bl)
    ensures panicked <==> PanicsIn(engine, bodies)
    ensures !panicked ==> Indexes(bl.Value(), RulesOfAll(engine, bodies))
  {
    hide Holds, Indexes, RulesOf, Panics;
    bl := new BlockList();
    panicked := false;
    ghost var rules := [];
    assert Indexes(EMPTY, []) by { EmptyIndexes(); }
    assert bodies[0..] == bodies;
    for i := 0 to |bodies|
      invariant fresh(bl) && !panicked && !PanicsIn(engine, bodies[..i])
      invariant Indexes(bl.Value(), rules)
      invariant rules + RulesOfAll(engine, bodies[i..]) == RulesOfAll(engine, bodies)
    {
      var b := bodies[i];
      assert bodies[i..][1..] == bodies[i + 1..];
      assert bodies[..i + 1] == bodies[..i] + [b];
      panicked := bl.Load(engine, b.source, b.lines, rules);
      if panicked {
        assert b in bodies;
        return;
      }
      ghost var added := RulesOf(engine, b.source, b.lines);
      Regroup(rules, added, RulesOfAll(engine, bodies[i + 1..]));
      rules := rules + added;
    }
    assert bodies[..|bodies|] == bodies;
    assert rules + [] == rules;
  }

  lemma EmptyIndexes()
    ensures Indexes(EMPTY, [])
  {
  }

  // ----- the index agrees with the rules

  /** A proper covering suffix starts behind a dot of the domain. */
  ghost predicate Behind(suffix: Text, domain: Text, j: nat) {
    j < |domain| && domain[j] == DOT && domain[j + 1..] == suffix
  }

  lemma CoversBehind(suffix: Text, domain: Text)
    ensures Covers(suffix, domain) <==> domain == suffix || exists j: nat :: Behind(suffix, domain, j)
  {
    if |domain| > |suffix| && Covers(suffix, domain) {
      var j := |domain| - |suffix| - 1;
      assert domain[j] == domain[j..][0] && domain[j + 1..] == domain[j..][1..];
      assert Behind(suffix, domain, j);
    }
    if exists j: nat :: Behind(suffix, domain, j) {
      var j: nat :| Behind(suffix, domain, j);
      assert domain[j..] == [DOT] + suffix;
    }
  }

  lemma CoversStep(suffix: Text, domain: Text)
    ensures Covers(suffix, domain) <==>
            domain == suffix || (FirstDot(domain) < |domain| && Covers(suffix, domain[FirstDot(domain) + 1..]))
  {
    hide Covers, FirstDot;
    CoversBehind(suffix, domain);
    var k := FirstDot(domain);
    if k < |domain| {
      var rest := domain[k + 1..];
      CoversBehind(suffix, rest);
      BehindStep(suffix, domain, k);
    }
  }

  lemma BehindStep(suffix: Text, domain: Text, k: nat)
    requires k < |domain| && domain[k] == DOT && forall j :: 0 <= j < k ==> domain[j] != DOT
    ensures var rest := domain[k + 1..];
            (exists j: nat :: Behind(suffix, domain, j)) <==> rest == suffix || exists j: nat :: Behind(suffix, rest, j)
  {
    var rest := domain[k + 1..];
    forall j: nat | Behind(suffix, domain, j)
      ensures rest == suffix || (j > k && Behind(suffix, rest, j - k - 1))
    {
      if j > k {
        assert rest[j - k - 1] == domain[j] && rest[j - k..] == domain[j + 1..];
      }
    }
    forall j: nat | Behind(suffix, rest, j)
      ensures Behind(suffix, domain, k + 1 + j)
    {
      assert rest[j] == domain[k + 1 + j] && rest[j + 1..] == domain[k + 1 + j + 1..];
    }
    assert rest == suffix ==> Behind(suffix, domain, k);
  }

  /** The label walk finds a suffix exactly when some suffix covers the domain, and then the longest one. */
  lemma {:induction false} SuffixHitIsLongest(suffixes: set<Text>, domain: Text)
    ensures SuffixHit(suffixes, domain).Some? <==> exists s <- suffixes :: Covers(s, domain)
    ensures var hit := SuffixHit(suffixes, domain);
            hit.Some? ==> (hit.value in suffixes && Covers(hit.value, domain)
                           && forall s <- suffixes :: Covers(s, domain) ==> |s| <= |hit.value|)
    decreases |domain|
  {
    hide Covers;
    forall s
      ensures Covers(s, domain) <==>
              domain == s || (FirstDot(domain) < |domain| && Covers(s, domain[FirstDot(domain) + 1..]))
      ensures Covers(s, domain) ==> |s| <= |domain|
    {
      CoversStep(s, domain);
      CoversShorter(s, domain);
    }
    if domain !in suffixes && FirstDot(domain) < |domain| {
      SuffixHitIsLongest(suffixes, domain[FirstDot(domain) + 1..]);
    }
  }

  lemma CoversShorter(s: Text, domain: Text)
    ensures Covers(s, domain) ==> |s| <= |domain|
  {
  }

  lemma {:induction false} FirstMatchFinds(engine: Engine, patterns: seq<Text>, domain: Text)
    ensures FirstMatch(engine, patterns, domain).Some? <==> exists p <- patterns :: engine.matches(p, domain)
    ensures var hit := FirstMatch(engine, patterns, domain);
            hit.Some? ==> hit.value in patterns && engine.matches(hit.value, domain)
  {
    if patterns == [] {
    } else {
      FirstMatchFinds(engine, patterns[1..], domain);
      assert patterns == [patterns[0]] + patterns[1..];
    }
  }

  /** The rule a lookup names is held, fires, and is on the right side. */
  ghost predicate Justified(engine: Engine, index: Index, domain: Text, o: MatchOutcome) {
    match o
    case AllowedBy(r) => r.allow && Holds(index, r) && Fires(engine, r, domain)
    case BlockedBy(r) => !r.allow && Holds(index, r) && Fires(engine, r, domain)
    case NoMatch => true
  }

  lemma LookupJustified(engine: Engine, index: Index, domain: Text)
    ensures Justified(engine, index, domain, Looked(engine, index, domain))
  {
    hide SuffixHit, FirstMatch, Covers;
    SuffixHitIsLongest(index.allowSuffixes, domain);
    SuffixHitIsLongest(index.blockSuffixes, domain);
    FirstMatchFinds(engine, index.allowRegex, domain);
    FirstMatchFinds(engine, index.blockRegex, domain);
    CoversItself(domain);
  }

  lemma CoversItself(domain: Text)
    ensures Covers(domain, domain)
  {
  }

  lemma LookupComplete(engine: Engine, index: Index, domain: Text, r: Rule)
    requires Holds(index, r) && Fires(engine, r, domain)
    ensures var v := VerdictOf(Looked(engine, index, domain));
            v == Allowed || (!r.allow && v == Blocked)
  {
    hide SuffixHit, FirstMatch, Covers;
    SuffixHitIsLongest(index.allowSuffixes, domain);
    SuffixHitIsLongest(index.blockSuffixes, domain);
    FirstMatchFinds(engine, index.allowRegex, domain);
    FirstMatchFinds(engine, index.blockRegex, domain);
  }

  /**
   A lookup gives the verdict of a rule-by-rule scan, in any case of letters, and names a rule of the list that fired.
   */
  lemma LookupIsScan(engine: Engine, index: Index, rules: seq<Rule>, domain: Text)
    requires Indexes(index, rules)
    ensures VerdictOf(Looked(engine, index, domain)) == NaiveVerdict(engine, rules, domain)
    ensures Justified(engine, index, domain, Looked(engine, index, domain))
  {
    hide Looked, Fires, Holds;
    var o := Looked(engine, index, domain);
    LookupJustified(engine, index, domain);
    assert o.AllowedBy? ==> Holds(index, o.rule);
    assert o.BlockedBy? ==> Holds(index, o.rule);
    forall r | r in rules && Fires(engine, r, domain)
      ensures VerdictOf(o) == Allowed || (!r.allow && VerdictOf(o) == Blocked)
    {
      assert Holds(index, r);
      LookupComplete(engine, index, domain, r);
    }
  }

  lemma MergedIndexes(a: Index, b: Index, ra: seq<Rule>, rb: seq<Rule>)
    requires Indexes(a, ra) && Indexes(b, rb)
    ensures Indexes(Merged(a, b), ra + rb)
  {
    hide Holds, Merged;
    forall r
      ensures Holds(Merged(a, b), r) <==> r in ra + rb
    {
      MergedHolds(a, b, r);
    }
  }

  lemma {:induction false} FirstMatchIsFirst(engine: Engine, patterns: seq<Text>, domain: Text) returns (i: nat)
    requires FirstMatch(engine, patterns, domain).Some?
    ensures i < |patterns| && patterns[i] == FirstMatch(engine, patterns, domain).value
    ensures engine.matches(patterns[i], domain) && forall j :: 0 <= j < i ==> !engine.matches(patterns[j], domain)
  {
    if engine.matches(patterns[0], domain) {
      i := 0;
    } else {
      var k := FirstMatchIsFirst(engine, patterns[1..], domain);
      i := k + 1;
      assert forall j :: 0 < j < i ==> patterns[j] == patterns[1..][j - 1];
    }
  }

  /** The pattern is the first of the vector that matches. */
  ghost predicate FirstOf(engine: Engine, patterns: seq<Text>, domain: Text, p: Text) {
    exists i :: 0 <= i < |patterns| && patterns[i] == p && engine.matches(p, domain)
                && forall j :: 0 <= j < i ==> !engine.matches(patterns[j], domain)
  }

  ghost predicate NoneMatches(engine: Engine, patterns: seq<Text>, domain: Text) {
    forall p <- patterns :: !engine.matches(p, domain)
  }

  /** The suffix is the longest of the set that covers the domain. */
  ghost predicate LongestOf(suffixes: set<Text>, domain: Text, s: Text) {
    s in suffixes && Covers(s, domain) && forall t <- suffixes :: Covers(t, domain) ==> |t| <= |s|
  }

  ghost predicate NoneCovers(suffixes: set<Text>, domain: Text) {
    forall s <- suffixes :: !Covers(s, domain)
  }

  /**
   Which of the rules that fire is named: an exact rule before any other; among allow rules the first pattern before the
   longest suffix, among block rules the longest suffix before the first pattern.
   */
  lemma RuleNamed(engine: Engine, index: Index, domain: Text)
    ensures match Looked(engine, index, domain)
            case NoMatch => true
            case AllowedBy(Exact(_, d)) => d == domain && domain in index.allowDomains
            case AllowedBy(Pattern(_, p)) =>
              domain !in index.allowDomains && FirstOf(engine, index.allowRegex, domain, p)
            case AllowedBy(Suffix(_, s)) =>
              && domain !in index.allowDomains && NoneMatches(engine, index.allowRegex, domain)
              && LongestOf(index.allowSuffixes, domain, s)
            case BlockedBy(Exact(_, d)) => d == domain && domain in index.blockDomains
            case BlockedBy(Suffix(_, s)) => domain !in index.blockDomains && LongestOf(index.blockSuffixes, domain, s)
            case BlockedBy(Pattern(_, p)) =>
              && domain !in index.blockDomains && NoneCovers(index.blockSuffixes, domain)
              && FirstOf(engine, index.blockRegex, domain, p)
  {
    hide SuffixHit, FirstMatch, Covers;
    SuffixHitIsLongest(index.allowSuffixes, domain);
    SuffixHitIsLongest(index.blockSuffixes, domain);
    FirstMatchFinds(engine, index.allowRegex, domain);
    if FirstMatch(engine, index.allowRegex, domain).Some? {
      var i := FirstMatchIsFirst(engine, index.allowRegex, domain);
    }
    if FirstMatch(engine, index.blockRegex, domain).Some? {
      var i := FirstMatchIsFirst(engine, index.blockRegex, domain);
    }
  }

  // ----- a configuration is the set of its lines

  /** Some line of the configuration adds the rule. */
  ghost predicate Adds(engine: Engine, bodies: seq<Body>, r: Rule) {
    exists b <- bodies, l <- b.lines :: Read(engine, b.source, l) == Add(r)
  }

  lemma {:induction false} RulesOfMembers(engine: Engine, source: Source, lines: seq<Text>, r: Rule)
    requires !Panics(engine, source, lines)
    ensures r in RulesOf(engine, source, lines) <==> exists l <- lines :: Read(engine, source, l) == Add(r)
  {
    hide Read;
    if lines == [] {
    } else {
      assert lines == [lines[0]] + lines[1..];
      assert forall l :: l in lines <==> l == lines[0] || l in lines[1..];
      RulesOfMembers(engine, source, lines[1..], r);
    }
  }

  lemma {:induction false} RulesOfAllMembers(engine: Engine, bodies: seq<Body>, r: Rule)
    requires !PanicsIn(engine, bodies)
    ensures r in RulesOfAll(engine, bodies) <==> Adds(engine, bodies, r)
  {
    hide Read, Panics, RulesOf;
    if bodies == [] {
    } else {
      assert bodies[0] in bodies;
      assert forall b :: b in bodies <==> b == bodies[0] || b in bodies[1..];
      RulesOfMembers(engine, bodies[0].source, bodies[0].lines, r);
      RulesOfAllMembers(engine, bodies[1..], r);
    }
  }

  // ----- what an index can hold

  lemma {:induction false} RulesOfComeFrom(engine: Engine, source: Source, lines: seq<Text>, r: Rule) returns (l: Text)
    requires r in RulesOf(engine, source, lines)
    ensures l in lines && Read(engine, source, l) == Add(r)
  {
    hide Read;
    if Read(engine, source, lines[0]) == Add(r) {
      l := lines[0];
    } else {
      l := RulesOfComeFrom(engine, source, lines[1..], r);
    }
  }

  lemma {:induction false} RulesOfAllComeFrom(engine: Engine, bodies: seq<Body>, r: Rule) returns (b: Body, l: Text)
    requires r in RulesOfAll(engine, bodies)
    ensures b in bodies && l in b.lines && Read(engine, b.source, l) == Add(r)
  {
    hide Read, RulesOf;
    if r in RulesOf(engine, bodies[0].source, bodies[0].lines) {
      b := bodies[0];
      l := RulesOfComeFrom(engine, b.source, b.lines, r);
    } else {
      b, l := RulesOfAllComeFrom(engine, bodies[1..], r);
    }
  }

  predicate LowerCase(r: Rule) {
    !r.Pattern? ==> !HasUpper(r.domain)
  }

  lemma ManualAllowRule(engine: Engine, line: Text)
    ensures var o := Read(engine, ManualAllow, line);
            o.Add? && o.rule.Exact? && o.rule.allow && LowerCase(o.rule)
  {
    hide Lower, TrimTrailing;
    LowerFixpoint(Lower(line));
    var d := TrimTrailing(Lower(line), DOT);
    assert forall b <- d :: b in Lower(line);
  }

  lemma ShapedIsLowerCase(engine: Engine, r: Rule)
    ensures RuleShape(engine, r) ==> LowerCase(r)
  {
    hide LocalName, HasUpper;
  }

  /**
   After any run of list parsing every rule held has the shape of its set, but for exact allow entries written by
   hand; those, too, are in lower case.
   */
  lemma StoredRuleShape(engine: Engine, bodies: seq<Body>, index: Index, r: Rule)
    requires Indexes(index, RulesOfAll(engine, bodies)) && Holds(index, r)
    ensures RuleShape(engine, r) || (r.Exact? && r.allow && exists b <- bodies :: b.source.ManualAllow?)
    ensures LowerCase(r)
  {
    hide Read, RuleShape, RulesOfAll, Holds, LowerCase;
    var b, l := RulesOfAllComeFrom(engine, bodies, r);
    if b.source.ManualAllow? {
      ManualAllowRule(engine, l);
    } else {
      ListRuleShape(engine, b.source, l);
      ShapedIsLowerCase(engine, r);
    }
  }

  /**
   Every exact or suffix rule held fires on its own text, in whatever case that is queried: the name is allowed, or
   blocked if the rule is a block rule.
   */
  lemma StoredRuleFires(engine: Engine, bodies: seq<Body>, index: Index, r: Rule, query: Text)
    requires Indexes(index, RulesOfAll(engine, bodies)) && Holds(index, r) && !r.Pattern?
    requires Lower(query) == Lower(r.domain)
    ensures var v := VerdictOf(Looked(engine, index, Lower(query)));
            v == Allowed || (!r.allow && v == Blocked)
  {
    hide RuleShape, RulesOfAll, Holds, Looked, Indexes, Lower, HasUpper;
    StoredRuleShape(engine, bodies, index, r);
    LowerFixpoint(r.domain);
    FiresOnItself(engine, r);
    LookupComplete(engine, index, Lower(query), r);
  }

  lemma FiresOnItself(engine: Engine, r: Rule)
    requires !r.Pattern?
    ensures Fires(engine, r, r.domain)
  {
  }

  /**
   Two configurations whose lines add the same rules filter alike: neither the order of lists and lines, nor
   repetition, nor the split into lists matters.
   */
  lemma ConfigurationIsASet(engine: Engine, left: seq<Body>, right: seq<Body>, a: Index, b: Index, domain: Text)
    requires !PanicsIn(engine, left) && !PanicsIn(engine, right)
    requires forall r :: Adds(engine, left, r) <==> Adds(engine, right, r)
    requires Indexes(a, RulesOfAll(engine, left)) && Indexes(b, RulesOfAll(engine, right))
    ensures VerdictOf(Looked(engine, a, domain)) == VerdictOf(Looked(engine, b, domain))
  {
    hide Adds, Indexes, PanicsIn, Looked, NaiveVerdict, RulesOfAll;
    LookupIsScan(engine, a, RulesOfAll(engine, left), domain);
    LookupIsScan(engine, b, RulesOfAll(engine, right), domain);
    forall r
      ensures r in RulesOfAll(engine, left) <==> r in RulesOfAll(engine, right)
    {
      RulesOfAllMembers(engine, left, r);
      RulesOfAllMembers(engine, right, r);
    }
    VerdictOfSet(engine, RulesOfAll(engine, left), RulesOfAll(engine, right), domain);
  }
}
