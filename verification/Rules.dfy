/** Filter rules: what one line of a list means, and what a set of rules says about a domain. */
module Rules {
  import opened Bytes

  type Text = seq<byte>

  const DOT: byte := '.' as int
  const HASH: byte := '#' as int
  const BANG: byte := '!' as int
  const SLASH: byte := '/' as int
  const DOLLAR: byte := '$' as int
  const CARET: byte := '^' as int
  const DASH: byte := '-' as int
  const BLANK: byte := ' ' as int
  const ATAT: Text := ['@' as int, '@' as int]
  const BARS: Text := ['|' as int, '|' as int]
  const COMMENT: Text := [BLANK, DASH, DASH, BLANK]

  // ----- text

  predicate IsSpace(b: byte) {
    0x09 <= b <= 0x0D || b == BLANK
  }

  function TrimStart(s: Text): (t: Text)
    ensures |t| <= |s| && t == s[|s| - |t|..]
    ensures t != [] ==> !IsSpace(t[0])
  {
    if s != [] && IsSpace(s[0]) then TrimStart(s[1..]) else s
  }

  function TrimEnd(s: Text): (t: Text)
    ensures t <= s
    ensures t != [] ==> !IsSpace(t[|t| - 1])
  {
    if s != [] && IsSpace(s[|s| - 1]) then TrimEnd(s[..|s| - 1]) else s
  }

  function Trim(s: Text): Text {
    TrimEnd(TrimStart(s))
  }

  /** Rust's `trim_end_matches` with one character. */
  function TrimTrailing(s: Text, b: byte): (t: Text)
    ensures t <= s
    ensures t != [] ==> t[|t| - 1] != b
  {
    if s != [] && s[|s| - 1] == b then TrimTrailing(s[..|s| - 1], b) else s
  }

  /** Rust's `trim_start_matches` with a string: every leading copy goes. */
  function TrimLeading(s: Text, p: Text): (t: Text)
    requires p != []
    ensures |t| <= |s| && t == s[|s| - |t|..] && !(p <= t)
  {
    if p <= s then TrimLeading(s[|p|..], p) else s
  }

  function LowerByte(b: byte): byte {
    if 'A' as int <= b <= 'Z' as int then b + 32 else b
  }

  function Lower(s: Text): (t: Text)
    ensures |t| == |s| && forall i :: 0 <= i < |s| ==> t[i] == LowerByte(s[i])
  {
    if s == [] then [] else [LowerByte(s[0])] + Lower(s[1..])
  }

  /** The part before the first `b`: Rust's `split(b).next()`. */
  function Before(s: Text, b: byte): (t: Text)
    ensures t <= s && b !in t
  {
    if s == [] || s[0] == b then [] else [s[0]] + Before(s[1..], b)
  }

  /** The part before the first occurrence of a string. */
  function BeforeText(s: Text, p: Text): (t: Text)
    ensures t <= s
  {
    if s == [] || p <= s then [] else [s[0]] + BeforeText(s[1..], p)
  }

  predicate Contains(s: Text, p: Text) {
    p <= s || (s != [] && Contains(s[1..], p))
  }

  /** The last run of non-blank characters, empty after a trailing blank. */
  function LastWord(s: Text): (t: Text)
    ensures |t| <= |s| && t == s[|s| - |t|..] && forall b <- t :: !IsSpace(b)
    ensures s != [] && !IsSpace(s[|s| - 1]) ==> t != []
  {
    if s == [] || IsSpace(s[|s| - 1]) then [] else LastWord(s[..|s| - 1]) + [s[|s| - 1]]
  }

  // ----- rules

  datatype Rule =
    | Exact(allow: bool, domain: Text)
    | Suffix(allow: bool, domain: Text)
    | Pattern(allow: bool, pattern: Text)

  /** The regular-expression library, as far as the program depends on it. */
  datatype Engine = Engine(compiles: Text -> bool, matches: (Text, Text) -> bool)

  /** A suffix rule covers its domain and everything below it. */
  predicate Covers(suffix: Text, domain: Text) {
    domain == suffix || (|domain| > |suffix| && domain[|domain| - |suffix| - 1..] == [DOT] + suffix)
  }

  predicate Fires(engine: Engine, r: Rule, domain: Text) {
    match r
    case Exact(_, d) => domain == d
    case Suffix(_, d) => Covers(d, domain)
    case Pattern(_, p) => engine.matches(p, domain)
  }

  datatype Verdict = Allowed | Blocked | Forwarded

  /** What a list of rules says of a domain, read rule by rule: any allow rule wins, then any block rule. */
  ghost function NaiveVerdict(engine: Engine, rules: seq<Rule>, domain: Text): Verdict {
    if exists r <- rules :: r.allow && Fires(engine, r, domain) then Allowed
    else if exists r <- rules :: !r.allow && Fires(engine, r, domain) then Blocked
    else Forwarded
  }

  /** Order and repetition of rules do not matter. */
  lemma VerdictOfSet(engine: Engine, a: seq<Rule>, b: seq<Rule>, domain: Text)
    requires forall r :: r in a <==> r in b
    ensures NaiveVerdict(engine, a, domain) == NaiveVerdict(engine, b, domain)
  {
  }

  // ----- lines

  datatype ListFormat = Hosts | AdBlock | PiHole | AdGuard

  /** What reading a line comes to. `Panic` is the out-of-range slice of a pattern that is a lone slash. */
  datatype Outcome = Nothing | Add(rule: Rule) | BadPattern | Panic

  /** Where a line comes from, which decides how it is read. */
  datatype Source =
    | Line(format: ListFormat, asAllow: bool)
    | Auto(asAllow: bool)
    | RegexLine(asAllow: bool)
    | ManualAllow
    | ManualPattern(asAllow: bool)

  const LOCALHOST: Text :=
    ['l' as int, 'o' as int, 'c' as int, 'a' as int, 'l' as int, 'h' as int, 'o' as int, 's' as int, 't' as int]
  const LOCAL: Text := LOCALHOST[..5]
  const LOCALHOST_LOCALDOMAIN: Text :=
    LOCALHOST + [DOT] + LOCAL + ['d' as int, 'o' as int, 'm' as int, 'a' as int, 'i' as int, 'n' as int]
  const BROADCASTHOST: Text :=
    ['b' as int, 'r' as int, 'o' as int, 'a' as int, 'd' as int, 'c' as int, 'a' as int, 's' as int, 't' as int]
    + LOCALHOST[5..]

  predicate LocalName(s: Text) {
    Lower(s) == LOCALHOST || Lower(s) == LOCALHOST_LOCALDOMAIN || Lower(s) == BROADCASTHOST || Lower(s) == LOCAL
  }

  predicate Cosmetic(s: Text) {
    || Contains(s, [HASH, HASH])
    || Contains(s, [HASH, DOLLAR, HASH])
    || Contains(s, [HASH, '@' as int, HASH])
    || Contains(s, [HASH, '?' as int, HASH])
  }

  function CleanDomain(s: Text): Option<Text> {
    if Cosmetic(s) then None
    else
      var domain := Trim(Before(s, HASH));
      if domain == [] then None
      else
        var cleaned := TrimTrailing(LastWord(domain), DOT);
        if cleaned == [] || LocalName(cleaned) then None else Some(cleaned)
  }

  predicate Skipped(line: Text) {
    line == [] || line[0] == BANG || line[0] == HASH
  }

  predicate Slashed(s: Text) {
    s != [] && s[0] == SLASH && s[|s| - 1] == SLASH
  }

  function PatternRule(engine: Engine, pattern: Text, allow: bool): Outcome {
    if engine.compiles(pattern) then Add(Pattern(allow, pattern)) else BadPattern
  }

  function ExactRule(s: Text, allow: bool): Outcome {
    match CleanDomain(s)
    case None => Nothing
    case Some(d) => Add(Exact(allow, Lower(d)))
  }

  function SuffixDomain(s: Text): Text {
    Lower(TrimTrailing(TrimTrailing(Before(TrimLeading(s, BARS), DOLLAR), CARET), DOT))
  }

  function AdBlockOutcome(engine: Engine, line: Text, asAllow: bool): Outcome {
    var allow := asAllow || ATAT <= line;
    var part := TrimLeading(line, ATAT);
    if BARS <= part then
      var domain := SuffixDomain(part);
      if domain == [] then Nothing else Add(Suffix(allow, domain))
    else if Slashed(part) then
      if |part| < 2 then Panic else PatternRule(engine, part[1..|part| - 1], allow)
    else ExactRule(part, allow)
  }

  function LineOutcome(engine: Engine, line: Text, format: ListFormat, asAllow: bool): Outcome {
    var line := Trim(line);
    if Skipped(line) then Nothing
    else if format.Hosts? || format.PiHole? then ExactRule(line, asAllow)
    else AdBlockOutcome(engine, line, asAllow)
  }

  function AutoFormat(line: Text): ListFormat {
    if BARS <= line || ATAT <= line || Slashed(line) then AdBlock else Hosts
  }

  function AutoOutcome(engine: Engine, line: Text, asAllow: bool): Outcome {
    var line := Trim(line);
    if Skipped(line) then Nothing else LineOutcome(engine, line, AutoFormat(line), asAllow)
  }

  function RegexOutcome(engine: Engine, line: Text, asAllow: bool): Outcome {
    var line := Trim(line);
    if Skipped(line) || [DASH, DASH] <= line then Nothing
    else
      var pattern := Trim(BeforeText(line, COMMENT));
      if pattern == [] then Nothing
      else
        var bare := if Slashed(pattern) && |pattern| >= 2 then pattern[1..|pattern| - 1] else pattern;
        if bare == [] then Nothing else PatternRule(engine, bare, asAllow)
  }

  function Read(engine: Engine, source: Source, line: Text): Outcome {
    match source
    case Line(format, asAllow) => LineOutcome(engine, line, format, asAllow)
    case Auto(asAllow) => AutoOutcome(engine, line, asAllow)
    case RegexLine(asAllow) => RegexOutcome(engine, line, asAllow)
    case ManualAllow => Add(Exact(true, TrimTrailing(Lower(line), DOT)))
    case ManualPattern(asAllow) => PatternRule(engine, line, asAllow)
  }

  // ----- what a list can put into the rules

  predicate HasUpper(s: Text) {
    exists b <- s :: 'A' as int <= b <= 'Z' as int
  }

  lemma LowerFixpoint(s: Text)
    ensures !HasUpper(s) <==> Lower(s) == s
    ensures Lower(Lower(s)) == Lower(s)
  {
    hide Lower;
    if !HasUpper(s) {
      forall i | 0 <= i < |s|
        ensures Lower(s)[i] == s[i]
      {
        assert s[i] in s;
      }
    } else {
      var i :| 0 <= i < |s| && 'A' as int <= s[i] <= 'Z' as int;
      assert Lower(s)[i] == s[i] + 32;
    }
    forall i | 0 <= i < |s|
      ensures Lower(Lower(s))[i] == Lower(s)[i]
    {
      assert Lower(Lower(s))[i] == LowerByte(Lower(s)[i]);
    }
  }

  lemma {:induction false} TrimInside(s: Text)
    ensures forall b <- Trim(s) :: b in s
  {
    var t := TrimStart(s);
    assert forall b <- t :: b in s;
  }

  /** Characters an exact entry may hold. */
  predicate Wordy(d: Text) {
    forall b <- d :: !IsSpace(b) && b != HASH
  }

  /**
   An entry of an exact set: a lower-case word, not empty, without comment sign or trailing dot, never a local name.
   */
  ghost predicate ExactShape(d: Text) {
    d != [] && d[|d| - 1] != DOT && !HasUpper(d) && !LocalName(d) && Wordy(d)
  }

  /** An entry of a suffix set: lower case, not empty, without AdBlock options, trailing dot or leading bars. */
  ghost predicate SuffixShape(d: Text) {
    d != [] && d[|d| - 1] != DOT && !HasUpper(d) && DOLLAR !in d && !(BARS <= d)
  }

  ghost predicate RuleShape(engine: Engine, r: Rule) {
    match r
    case Exact(_, d) => ExactShape(d)
    case Suffix(_, d) => SuffixShape(d)
    case Pattern(_, p) => engine.compiles(p)
  }

  lemma LocalNameLower(d: Text)
    ensures LocalName(Lower(d)) == LocalName(d)
  {
    hide Lower;
    LowerFixpoint(d);
  }

  lemma WordyWord(domain: Text)
    requires HASH !in domain
    ensures Wordy(TrimTrailing(LastWord(domain), DOT))
  {
    hide LastWord, TrimTrailing, IsSpace;
    var word := LastWord(domain);
    forall b | b in TrimTrailing(word, DOT)
      ensures !IsSpace(b) && b != HASH
    {
      assert b in word;
      assert b in domain;
    }
  }

  lemma LowerKeepsWordy(d: Text)
    requires Wordy(d)
    ensures Wordy(Lower(d))
  {
    hide Lower;
    forall i | 0 <= i < |d|
      ensures !IsSpace(Lower(d)[i]) && Lower(d)[i] != HASH
    {
      assert d[i] in d;
    }
  }

  lemma CleanDomainShape(s: Text)
    ensures var d := CleanDomain(s); d.Some? ==> ExactShape(Lower(d.value))
  {
    hide Cosmetic, Lower, TrimTrailing, LastWord, Before, Trim, HasUpper, LocalName, IsSpace;
    if CleanDomain(s).Some? {
      var domain := Trim(Before(s, HASH));
      var d := TrimTrailing(LastWord(domain), DOT);
      TrimInside(Before(s, HASH));
      WordyWord(domain);
      LowerKeepsWordy(d);
      LowerFixpoint(Lower(d));
      LowerFixpoint(d);
      LocalNameLower(d);
    }
  }

  lemma LowerKeepsBars(d: Text)
    ensures BARS <= Lower(d) <==> BARS <= d
  {
    hide Lower;
    if |d| >= 2 {
      assert Lower(d)[0] == LowerByte(d[0]) && Lower(d)[1] == LowerByte(d[1]);
    }
  }

  lemma SuffixDomainShape(s: Text)
    ensures SuffixDomain(s) != [] ==> SuffixShape(SuffixDomain(s))
  {
    hide Lower, TrimTrailing, TrimLeading, Before, HasUpper;
    var body := Before(TrimLeading(s, BARS), DOLLAR);
    var mid := TrimTrailing(body, CARET);
    var d := TrimTrailing(mid, DOT);
    LowerFixpoint(d);
    LowerFixpoint(Lower(d));
    forall i | 0 <= i < |d|
      ensures Lower(d)[i] != DOLLAR
    {
      assert d[i] == body[i] && body[i] in body;
    }
    LowerKeepsBars(d);
  }

  /** The source's lines are read as AdBlock syntax when they start with `@@`. */
  predicate ReadsExceptions(source: Source) {
    source.Auto? || (source.Line? && (source.format.AdBlock? || source.format.AdGuard?))
  }

  /**
   Whatever a line of a list says, the rule it adds has the shape its set promises, and it is an allow rule exactly
   when the list is an allow list or the line is marked as an exception.
   */
  lemma ListRuleShape(engine: Engine, source: Source, line: Text)
    requires !source.ManualAllow?
    ensures var o := Read(engine, source, line);
            o.Add? ==>
              && RuleShape(engine, o.rule)
              && (o.rule.allow <==> source.asAllow || (ReadsExceptions(source) && ATAT <= Trim(line)))
  {
    hide Trim, TrimLeading, RuleShape, AdBlockOutcome, ExactRule, RegexOutcome, Slashed;
    var l := Trim(line);
    TrimTwice(line);
    ExactOutcomeShape(engine, l);
    if source.Auto? || source.Line? {
      AdBlockOutcomeShape(engine, l, source.asAllow);
    } else if source.RegexLine? {
      RegexOutcomeShape(engine, line, source.asAllow);
    } else {
      PatternShape(engine, line);
    }
  }

  lemma PatternShape(engine: Engine, p: Text)
    ensures engine.compiles(p) ==> forall allow :: RuleShape(engine, Pattern(allow, p))
  {
  }

  lemma ExactOutcomeShape(engine: Engine, s: Text)
    ensures forall allow :: ExactRule(s, allow).Add? ==>
              RuleShape(engine, ExactRule(s, allow).rule) && ExactRule(s, allow).rule.allow == allow
  {
    hide CleanDomain, ExactShape;
    CleanDomainShape(s);
  }

  lemma AdBlockOutcomeShape(engine: Engine, line: Text, asAllow: bool)
    ensures var o := AdBlockOutcome(engine, line, asAllow);
            o.Add? ==> RuleShape(engine, o.rule) && (o.rule.allow <==> asAllow || ATAT <= line)
  {
    hide SuffixDomain, SuffixShape, ExactShape, TrimLeading, ExactRule, Slashed;
    var part := TrimLeading(line, ATAT);
    SuffixDomainShape(part);
    ExactOutcomeShape(engine, part);
  }

  lemma RegexOutcomeShape(engine: Engine, line: Text, asAllow: bool)
    ensures var o := RegexOutcome(engine, line, asAllow);
            o.Add? ==> RuleShape(engine, o.rule) && o.rule.allow == asAllow
  {
    hide Trim, BeforeText;
  }

  lemma {:induction false} TrimTwice(s: Text)
    ensures Trim(Trim(s)) == Trim(s)
  {
    var t := TrimStart(s);
    var u := TrimEnd(t);
    if u == [] {
    } else {
      assert u[0] == t[0];
    }
  }

  /**
   The program panics on a list line exactly when, blanks and leading `@@` aside, the line is a single slash (and it
   is read as AdBlock syntax or by auto-detection); it never does on hosts, regex or configuration entries.
   */
  lemma PanicsExactlyOnLoneSlash(engine: Engine, source: Source, line: Text)
    ensures Read(engine, source, line) == Panic <==>
            && (source.Auto? || (source.Line? && (source.format.AdBlock? || source.format.AdGuard?)))
            && TrimLeading(Trim(line), ATAT) == [SLASH]
  {
    hide Trim, TrimLeading, AdBlockOutcome, ExactRule, RegexOutcome, Skipped, AutoFormat;
    TrimTwice(line);
    var l := Trim(line);
    ExactNeverPanics(l);
    AdBlockPanics(engine, l, if source.Line? || source.Auto? then source.asAllow else false);
    if TrimLeading(l, ATAT) == [SLASH] {
      LoneSlashIsRead(l);
    }
    if source.RegexLine? {
      RegexNeverPanics(engine, line, source.asAllow);
    }
  }

  lemma ExactNeverPanics(s: Text)
    ensures forall allow :: ExactRule(s, allow) != Panic
  {
  }

  lemma RegexNeverPanics(engine: Engine, line: Text, asAllow: bool)
    ensures RegexOutcome(engine, line, asAllow) != Panic
  {
    hide Trim, BeforeText;
  }

  lemma AdBlockPanics(engine: Engine, line: Text, asAllow: bool)
    ensures AdBlockOutcome(engine, line, asAllow) == Panic <==> TrimLeading(line, ATAT) == [SLASH]
  {
    hide TrimLeading, SuffixDomain, CleanDomain;
    var part := TrimLeading(line, ATAT);
    if Slashed(part) && |part| < 2 {
      assert part == [SLASH];
    }
    assert part == [SLASH] ==> part[0] != BARS[0];
  }

  lemma LoneSlashIsRead(l: Text)
    requires TrimLeading(l, ATAT) == [SLASH]
    ensures !Skipped(l) && AutoFormat(l) == AdBlock
  {
    hide TrimLeading;
    if ATAT <= l {
      assert l[0] == ATAT[0];
    } else {
      NothingToTrim(l);
    }
  }

  lemma NothingToTrim(l: Text)
    requires !(ATAT <= l)
    ensures TrimLeading(l, ATAT) == l
  {
  }

  // ----- every rule can be written

  const ZERO: byte := '0' as int

  /** A rule in the syntax of lists, without the mark of an exception. */
  function Syntax(r: Rule): (s: Text)
    requires r.Suffix? ==> r.domain != []
  {
    match r
    case Exact(_, d) => [ZERO, BLANK] + d
    case Suffix(_, d) => BARS + d + [if d[|d| - 1] == CARET then DOT else CARET]
    case Pattern(_, p) => [SLASH] + p + [SLASH]
  }

  function Written(r: Rule): Text
    requires r.Suffix? ==> r.domain != []
  {
    if r.allow then ATAT + Syntax(r) else Syntax(r)
  }

  lemma TrimNothing(s: Text)
    requires s != [] && !IsSpace(s[0]) && !IsSpace(s[|s| - 1])
    ensures Trim(s) == s
  {
  }

  lemma {:induction false} BeforeAbsent(s: Text, b: byte, rest: Text)
    requires b !in s && (rest == [] || rest[0] == b)
    ensures Before(s + rest, b) == s
  {
    if s == [] {
      assert s + rest == rest;
    } else {
      assert (s + rest)[1..] == s[1..] + rest;
      BeforeAbsent(s[1..], b, rest);
    }
  }

  lemma {:induction false} ContainsNeeds(s: Text, p: Text)
    requires p != [] && p[0] !in s
    ensures !Contains(s, p)
  {
    if s == [] {
    } else {
      ContainsNeeds(s[1..], p);
    }
  }

  lemma LastWordStep(s: Text, b: byte)
    ensures LastWord(s + [b]) == if IsSpace(b) then [] else LastWord(s) + [b]
  {
    assert (s + [b])[..|s|] == s;
  }

  lemma {:induction false} LastWordBehindBlank(s: Text, w: Text)
    requires forall b <- w :: !IsSpace(b)
    ensures LastWord(s + [BLANK] + w) == w
  {
    hide LastWord;
    if w == [] {
      LastWordStep(s, BLANK);
      assert s + [BLANK] + w == s + [BLANK];
    } else {
      var init, last := w[..|w| - 1], w[|w| - 1];
      assert last in w && w == init + [last];
      LastWordBehindBlank(s, init);
      LastWordStep(s + [BLANK] + init, last);
      assert s + [BLANK] + w == s + [BLANK] + init + [last];
    }
  }

  /** The hosts-file form of an exact rule. */
  lemma HostsLineKeeps(d: Text)
    requires ExactShape(d)
    ensures CleanDomain([ZERO, BLANK] + d) == Some(d) && Lower(d) == d
  {
    hide Contains, Before, Trim, LastWord, Lower, LocalName, HasUpper;
    var line := [ZERO, BLANK] + d;
    ContainsNeeds(line, [HASH, HASH]);
    ContainsNeeds(line, [HASH, DOLLAR, HASH]);
    ContainsNeeds(line, [HASH, '@' as int, HASH]);
    ContainsNeeds(line, [HASH, '?' as int, HASH]);
    BeforeAbsent(line, HASH, []);
    assert line + [] == line;
    assert line[0] == ZERO && d[|d| - 1] in d;
    TrimNothing(line);
    assert line == [ZERO] + [BLANK] + d;
    LastWordBehindBlank([ZERO], d);
    DotKept(d);
    LowerFixpoint(d);
  }

  lemma NotBarsWithEnd(d: Text, end: byte)
    requires d != [] && !(BARS <= d) && end != BARS[1]
    ensures !(BARS <= d + [end])
  {
    var body := d + [end];
    assert body[1] == if |d| == 1 then end else d[1];
    assert body[0] == d[0];
  }

  lemma BarsStripped(body: Text)
    requires !(BARS <= body)
    ensures TrimLeading(BARS + body, BARS) == body
  {
    assert (BARS + body)[|BARS|..] == body;
  }

  lemma EndStripped(d: Text, b: byte)
    requires d != [] && d[|d| - 1] != b
    ensures TrimTrailing(d + [b], b) == d && TrimTrailing(d, b) == d
  {
    assert (d + [b])[..|d|] == d;
  }

  lemma DotKept(d: Text)
    requires d != [] && d[|d| - 1] != DOT
    ensures TrimTrailing(d, DOT) == d
  {
  }

  lemma SuffixDomainKeeps(d: Text)
    requires SuffixShape(d)
    ensures SuffixDomain(BARS + d + [if d[|d| - 1] == CARET then DOT else CARET]) == d
  {
    hide Before, Lower, HasUpper, TrimLeading, TrimTrailing;
    var end := if d[|d| - 1] == CARET then DOT else CARET;
    var body := d + [end];
    assert BARS + d + [end] == BARS + body;
    NotBarsWithEnd(d, end);
    BarsStripped(body);
    BeforeAbsent(body, DOLLAR, []);
    assert body + [] == body;
    assert body[|body| - 1] == end;
    if end == DOT {
      EndStripped(body, CARET);
      EndStripped(d, DOT);
    } else {
      EndStripped(d, CARET);
      DotKept(d);
    }
    LowerFixpoint(d);
  }

  lemma ExceptionStripped(part: Text)
    requires !(ATAT <= part)
    ensures TrimLeading(ATAT + part, ATAT) == part && TrimLeading(part, ATAT) == part
  {
    assert (ATAT + part)[|ATAT|..] == part;
  }

  lemma SyntaxEnds(engine: Engine, r: Rule)
    requires RuleShape(engine, r)
    ensures var s := Syntax(r); s != [] && !IsSpace(s[0]) && !IsSpace(s[|s| - 1]) && !Skipped(s) && !(ATAT <= s)
  {
    hide LocalName, HasUpper;
    var s := Syntax(r);
    match r
    case Exact(_, d) => assert s[0] == ZERO && d[|d| - 1] in d;
    case Suffix(_, d) => assert s[0] == BARS[0];
    case Pattern(_, p) => assert s[0] == SLASH;
  }

  lemma SyntaxRead(engine: Engine, r: Rule, line: Text)
    requires RuleShape(engine, r) && TrimLeading(line, ATAT) == Syntax(r) && (ATAT <= line <==> r.allow)
    ensures AdBlockOutcome(engine, line, false) == Add(r)
  {
    hide SuffixDomain, CleanDomain, TrimLeading, Lower, LocalName, HasUpper, ExactRule, ExactShape;
    match r
    case Exact(allow, d) =>
      ExactKept(d, allow);
      ExactMarked(d);
    case Suffix(_, d) =>
      assert BARS <= Syntax(r);
      SuffixDomainKeeps(d);
    case Pattern(_, p) => PatternMarked(p);
  }

  lemma ExactMarked(d: Text)
    ensures var part := [ZERO, BLANK] + d; !(BARS <= part) && !(ATAT <= part) && !Slashed(part)
  {
    var part := [ZERO, BLANK] + d;
    assert part[0] == ZERO;
  }

  lemma ExactKept(d: Text, allow: bool)
    requires ExactShape(d)
    ensures ExactRule([ZERO, BLANK] + d, allow) == Add(Exact(allow, d))
  {
    hide CleanDomain, Lower;
    HostsLineKeeps(d);
  }

  lemma PatternMarked(p: Text)
    ensures var part := [SLASH] + p + [SLASH];
            Slashed(part) && !(BARS <= part) && |part| >= 2 && part[1..|part| - 1] == p
  {
    var part := [SLASH] + p + [SLASH];
    assert part[0] == SLASH;
  }

  lemma WrittenEnds(engine: Engine, r: Rule)
    requires RuleShape(engine, r)
    ensures Trim(Written(r)) == Written(r) && !Skipped(Written(r))
  {
    hide Trim, Syntax;
    SyntaxEnds(engine, r);
    TrimNothing(Written(r));
  }

  lemma SyntaxFormat(engine: Engine, r: Rule)
    requires RuleShape(engine, r)
    ensures r.allow || !r.Exact? ==> AutoFormat(Written(r)) == AdBlock
    ensures !r.allow && r.Exact? ==> ExactRule(Written(r), false) == Add(r) && AutoFormat(Written(r)) == Hosts
  {
    hide CleanDomain, Lower, LocalName, HasUpper, ExactRule;
    match r
    case Exact(_, d) =>
      ExactKept(d, false);
      ExactMarked(d);
    case Suffix(_, d) =>
      assert Syntax(r)[0] == BARS[0] && Syntax(r)[1] == BARS[1];
    case Pattern(_, p) =>
      assert Syntax(r)[0] == SLASH && Syntax(r)[|Syntax(r)| - 1] == SLASH;
  }

  lemma ShapeNotEmpty(engine: Engine, r: Rule)
    ensures RuleShape(engine, r) && r.Suffix? ==> r.domain != []
  {
  }

  lemma AutoReads(engine: Engine, line: Text)
    requires Trim(line) == line && !Skipped(line)
    ensures Read(engine, Auto(false), line) ==
            if AutoFormat(line) == Hosts then ExactRule(line, false) else AdBlockOutcome(engine, line, false)
  {
    hide Trim, Skipped, ExactRule, AdBlockOutcome, Slashed;
  }

  lemma WrittenIsRead(engine: Engine, r: Rule)
    requires RuleShape(engine, r)
    ensures Read(engine, Auto(false), Written(r)) == Add(r)
  {
    hide Read, Trim, AdBlockOutcome, TrimLeading, Syntax, RuleShape, Skipped, ExactRule, AutoFormat;
    ShapeNotEmpty(engine, r);
    WrittenEnds(engine, r);
    SyntaxEnds(engine, r);
    ExceptionStripped(Syntax(r));
    SyntaxRead(engine, r, Written(r));
    SyntaxFormat(engine, r);
    AutoReads(engine, Written(r));
  }

  /**
   The shape is exact: a block list can add a rule, by some line, if and only if the rule has the shape of its set.
   */
  lemma RulesCanBeWritten(engine: Engine, r: Rule)
    ensures (exists line :: Read(engine, Auto(false), line) == Add(r)) <==> RuleShape(engine, r)
  {
    hide Read, RuleShape, Written;
    if RuleShape(engine, r) {
      ShapeNotEmpty(engine, r);
      WrittenIsRead(engine, r);
    }
    forall line | Read(engine, Auto(false), line) == Add(r)
      ensures RuleShape(engine, r)
    {
      ListRuleShape(engine, Auto(false), line);
    }
  }
}
