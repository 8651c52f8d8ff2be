/** What the lines of lists mean, told from their characters. */
module RuleLines {
  import opened Bytes
  import opened Rules

  predicate AllBlank(s: Text) {
    forall b <- s :: IsSpace(b)
  }

  predicate AllOf(s: Text, b: byte) {
    forall c <- s :: c == b
  }

  // ----- blanks around a line

  lemma {:induction false} TrimStartPast(blanks: Text, s: Text)
    requires AllBlank(blanks)
    ensures TrimStart(blanks + s) == TrimStart(s)
  {
    if blanks == [] {
      assert blanks + s == s;
    } else {
      assert blanks[0] in blanks && (blanks + s)[1..] == blanks[1..] + s;
      TrimStartPast(blanks[1..], s);
    }
  }

  lemma {:induction false} TrimEndPast(s: Text, blanks: Text)
    requires AllBlank(blanks)
    ensures TrimEnd(s + blanks) == TrimEnd(s)
  {
    if blanks == [] {
      assert s + blanks == s;
    } else {
      var init := blanks[..|blanks| - 1];
      assert blanks[|blanks| - 1] in blanks && (s + blanks)[..|s + blanks| - 1] == s + init;
      TrimEndPast(s, init);
    }
  }

  lemma {:induction false} TrimStartBefore(s: Text, tail: Text)
    ensures TrimStart(s) != [] ==> TrimStart(s + tail) == TrimStart(s) + tail
    ensures TrimStart(s) == [] ==> AllBlank(s)
  {
    if s == [] {
    } else {
      assert (s + tail)[1..] == s[1..] + tail && s == [s[0]] + s[1..];
      TrimStartBefore(s[1..], tail);
    }
  }

  lemma TrimPast(before: Text, s: Text, after: Text)
    requires AllBlank(before) && AllBlank(after)
    ensures Trim(before + s + after) == Trim(s)
  {
    hide TrimStart, TrimEnd;
    assert before + s + after == before + (s + after);
    TrimStartPast(before, s + after);
    TrimStartBefore(s, after);
    if TrimStart(s) != [] {
      TrimEndPast(TrimStart(s), after);
    } else {
      TrimStartPast(s, after);
      TrimStartPast(after, []);
      assert after + [] == after && TrimStart([]) == [];
    }
  }

  /** Blanks around a line of a list change nothing. */
  lemma BlanksDoNotMatter(engine: Engine, source: Source, before: Text, line: Text, after: Text)
    requires AllBlank(before) && AllBlank(after) && !source.ManualAllow? && !source.ManualPattern?
    ensures Read(engine, source, before + line + after) == Read(engine, source, line)
  {
    hide Trim, AdBlockOutcome, ExactRule, PatternRule, BeforeText;
    TrimPast(before, line, after);
  }

  /** A line without blanks around it that is not empty. */
  predicate Core(line: Text) {
    line != [] && !IsSpace(line[0]) && !IsSpace(line[|line| - 1])
  }

  /** Comments and empty lines add nothing to any list. */
  lemma CommentsAddNothing(engine: Engine, source: Source, line: Text)
    requires line == [] || (Core(line) && (line[0] == '!' as int || line[0] == '#' as int))
    requires !source.ManualAllow? && !source.ManualPattern?
    ensures Read(engine, source, line) == Nothing
  {
    hide Trim, AdBlockOutcome, ExactRule;
    if line == [] {
      TrimPast([], [], []);
      assert Trim([]) == [] by { NothingTrimmed(); }
    } else {
      TrimNothing(line);
    }
  }

  lemma NothingTrimmed()
    ensures Trim([]) == []
  {
  }

  /** Detecting the format of a line changes nothing: it is read as an AdBlock or an AdGuard list would read it. */
  lemma AutoReadsAsAdBlock(engine: Engine, asAllow: bool, line: Text)
    ensures Read(engine, Auto(asAllow), line) == Read(engine, Line(AdBlock, asAllow), line)
    ensures Read(engine, Line(AdGuard, asAllow), line) == Read(engine, Line(AdBlock, asAllow), line)
    ensures Read(engine, Line(PiHole, asAllow), line) == Read(engine, Line(Hosts, asAllow), line)
  {
    hide Trim, ExactRule, TrimLeading, SuffixDomain, Slashed, Skipped;
    TrimTwice(line);
    if !(ATAT <= Trim(line)) {
      NothingToTrim(Trim(line));
    }
  }

  /** A line read as AdBlock, without blanks around it. */
  lemma AdBlockReads(engine: Engine, asAllow: bool, line: Text)
    requires Core(line) && line[0] != '!' as int && line[0] != '#' as int
    ensures Read(engine, Auto(asAllow), line) == AdBlockOutcome(engine, line, asAllow)
    ensures Read(engine, Line(Hosts, asAllow), line) == ExactRule(line, asAllow)
  {
    hide Trim, AdBlockOutcome, ExactRule;
    AutoReadsAsAdBlock(engine, asAllow, line);
    TrimNothing(line);
  }

  // ----- suffix lines with options

  lemma {:induction false} RunTrimmed(s: Text, run: Text, b: byte)
    requires AllOf(run, b) && (s == [] || s[|s| - 1] != b)
    ensures TrimTrailing(s + run, b) == s
  {
    if run == [] {
      assert s + run == s;
    } else {
      var init := run[..|run| - 1];
      assert run[|run| - 1] in run && forall c <- init :: c in run;
      assert (s + run)[..|s + run| - 1] == s + init;
      RunTrimmed(s, init, b);
    }
  }

  lemma NotBars(x: Text, rest: Text)
    requires x != [] && !(BARS <= x) && (rest == [] || rest[0] != BARS[1])
    ensures !(BARS <= x + rest)
  {
    var whole := x + rest;
    assert whole[0] == x[0];
    assert |x| > 1 ==> whole[1] == x[1];
    assert |x| == 1 && rest != [] ==> whole[1] == rest[0];
  }

  lemma NotBarsMarked(x: Text, dots: Text, carets: Text, options: Text)
    requires x != [] && !(BARS <= x)
    requires AllOf(dots, DOT) && AllOf(carets, CARET) && (options == [] || options[0] == DOLLAR)
    ensures !(BARS <= x + dots + carets + options)
  {
    var rest := dots + carets + options;
    assert x + dots + carets + options == x + rest;
    assert rest != [] ==> rest[0] in dots || rest[0] in carets || rest[0] == DOLLAR;
    NotBars(x, rest);
  }

  lemma NoDollar(x: Text, dots: Text, carets: Text)
    requires DOLLAR !in x && AllOf(dots, DOT) && AllOf(carets, CARET)
    ensures DOLLAR !in x + dots + carets
  {
    forall b | b in x + dots + carets
      ensures b != DOLLAR
    {
      assert b in x || b in dots || b in carets;
    }
  }

  lemma LastOfRun(x: Text, dots: Text)
    requires x != [] && x[|x| - 1] != CARET && AllOf(dots, DOT)
    ensures (x + dots)[|x + dots| - 1] != CARET
  {
    assert dots != [] ==> dots[|dots| - 1] in dots;
  }

  lemma StrippedInOrder(body: Text, kept: Text, bare: Text, d: Text)
    requires !(BARS <= body) && Before(body, DOLLAR) == kept
    requires TrimTrailing(kept, CARET) == bare && TrimTrailing(bare, DOT) == d
    ensures SuffixDomain(BARS + body) == Lower(d)
  {
    hide Before, Lower, TrimLeading, TrimTrailing;
    BarsStripped(body);
  }

  /** A suffix with its dots, carets and options: the options go first, then the carets, then the dots. */
  lemma SuffixStripped(x: Text, dots: Text, carets: Text, options: Text)
    requires x != [] && !(BARS <= x) && DOLLAR !in x && x[|x| - 1] != CARET && x[|x| - 1] != DOT
    requires AllOf(dots, DOT) && AllOf(carets, CARET) && (options == [] || options[0] == DOLLAR)
    ensures SuffixDomain(BARS + (x + dots + carets + options)) == Lower(x)
  {
    hide *;
    NotBarsMarked(x, dots, carets, options);
    RunsTrimmed(x, dots, carets);
    NoDollar(x, dots, carets);
    BeforeAbsent(x + dots + carets, DOLLAR, options);
    StrippedInOrder(x + dots + carets + options, x + dots + carets, x + dots, x);
  }

  lemma RunsTrimmed(x: Text, dots: Text, carets: Text)
    requires x != [] && x[|x| - 1] != CARET && x[|x| - 1] != DOT && AllOf(dots, DOT) && AllOf(carets, CARET)
    ensures TrimTrailing(x + dots + carets, CARET) == x + dots && TrimTrailing(x + dots, DOT) == x
  {
    hide TrimTrailing, AllOf;
    LastOfRun(x, dots);
    RunTrimmed(x + dots, carets, CARET);
    RunTrimmed(x, dots, DOT);
  }

  /**
   What an AdBlock suffix line adds, with any options: `||x...^^^$options`, behind `@@` or not, adds the suffix x in
   lower case, as an allow rule behind `@@` and on allow lists.
   */
  lemma SuffixLineReads(engine: Engine, asAllow: bool, excepted: bool, x: Text, dots: Text, carets: Text, options: Text)
    requires SuffixShape(Lower(x)) && x[|x| - 1] != CARET
    requires AllOf(dots, DOT) && AllOf(carets, CARET) && (options == [] || options[0] == DOLLAR)
    requires !IsSpace((x + dots + carets + options)[|x + dots + carets + options| - 1])
    ensures var line := BARS + (x + dots + carets + options);
            Read(engine, Auto(asAllow), if excepted then ATAT + line else line) ==
            Add(Suffix(asAllow || excepted, Lower(x)))
  {
    hide Lower, SuffixDomain, TrimLeading, HasUpper, Read, Trim;
    var body := x + dots + carets + options;
    var line := BARS + body;
    var whole := if excepted then ATAT + line else line;
    PlainOctets(x);
    SuffixStripped(x, dots, carets, options);
    assert line[0] == BARS[0] && line[1] == BARS[1] && line[|line| - 1] == body[|body| - 1];
    assert whole[0] == if excepted then ATAT[0] else BARS[0];
    assert whole[|whole| - 1] == line[|line| - 1];
    AdBlockReads(engine, asAllow, whole);
    ExceptionStripped(line);
    assert BARS <= line;
  }

  /** Lowering changes none of the marks of the syntax. */
  lemma PlainOctets(x: Text)
    requires SuffixShape(Lower(x))
    ensures x != [] && x[|x| - 1] != DOT && DOLLAR !in x && !(BARS <= x)
  {
    hide Lower, HasUpper;
    assert LowerByte(x[|x| - 1]) == Lower(x)[|x| - 1];
    forall i | 0 <= i < |x|
      ensures x[i] != DOLLAR
    {
      assert LowerByte(x[i]) == Lower(x)[i] && Lower(x)[i] in Lower(x);
    }
    LowerKeepsBars(x);
  }

  /** A pattern between slashes, behind `@@` or not, is added if it compiles. */
  lemma PatternLineReads(engine: Engine, asAllow: bool, excepted: bool, p: Text)
    ensures var line := [SLASH] + p + [SLASH];
            Read(engine, Auto(asAllow), if excepted then ATAT + line else line) ==
            if engine.compiles(p) then Add(Pattern(asAllow || excepted, p)) else BadPattern
  {
    hide TrimLeading, Read, Trim;
    var line := [SLASH] + p + [SLASH];
    var whole := if excepted then ATAT + line else line;
    PatternMarked(p);
    assert line[0] == SLASH && line[|line| - 1] == SLASH && whole[|whole| - 1] == SLASH;
    assert whole[0] == if excepted then ATAT[0] else SLASH;
    AdBlockReads(engine, asAllow, whole);
    ExceptionStripped(line);
  }

  /** A manual pattern is added as it stands, if it compiles. */
  lemma ManualPatternReads(engine: Engine, allow: bool, p: Text)
    ensures Read(engine, ManualPattern(allow), p) ==
            if engine.compiles(p) then Add(Pattern(allow, p)) else BadPattern
  {
  }

  lemma LowerKeepsDots(x: Text, dots: Text)
    requires AllOf(dots, DOT)
    ensures Lower(x + dots) == Lower(x) + dots
    ensures x != [] && x[|x| - 1] != DOT ==> Lower(x)[|x| - 1] != DOT
  {
    hide Lower;
    forall i | 0 <= i < |x + dots|
      ensures Lower(x + dots)[i] == (Lower(x) + dots)[i]
    {
      assert Lower(x + dots)[i] == LowerByte((x + dots)[i]);
      if i < |x| {
        assert Lower(x)[i] == LowerByte(x[i]);
      } else {
        assert dots[i - |x|] in dots;
      }
    }
    assert x != [] ==> LowerByte(x[|x| - 1]) == Lower(x)[|x| - 1];
  }

  /** A manual allow entry is taken whole, in lower case, without trailing dots. */
  lemma ManualAllowReads(engine: Engine, x: Text, dots: Text)
    requires AllOf(dots, DOT) && (x == [] || x[|x| - 1] != DOT)
    ensures Read(engine, ManualAllow, x + dots) == Add(Exact(true, Lower(x)))
  {
    hide Lower, TrimTrailing, AllOf, LineOutcome, AutoOutcome, RegexOutcome, PatternRule;
    LowerKeepsDots(x, dots);
    RunTrimmed(Lower(x), dots, DOT);
  }

  // ----- bare domains

  predicate Occurs(s: Text, p: Text, i: nat) {
    i + |p| <= |s| && s[i..i + |p|] == p
  }

  lemma {:induction false} ContainsOccurs(s: Text, p: Text)
    ensures Contains(s, p) <==> exists i: nat :: Occurs(s, p, i)
  {
    if p <= s {
      assert Occurs(s, p, 0);
    } else if s == [] {
    } else {
      ContainsOccurs(s[1..], p);
      forall i: nat
        ensures Occurs(s[1..], p, i) <==> Occurs(s, p, i + 1)
      {
        assert i + |p| <= |s[1..]| ==> s[1..][i..i + |p|] == s[i + 1..i + 1 + |p|];
      }
      assert !Occurs(s, p, 0);
      assert forall i: nat :: Occurs(s, p, i) ==> i > 0 && Occurs(s[1..], p, i - 1);
      assert forall i: nat :: Occurs(s[1..], p, i) ==> Occurs(s, p, i + 1);
    }
  }

  /** One of `##`, `#$#`, `#@#`, `#?#` occurs in the line. */
  ghost predicate Marked(s: Text) {
    || Holds(s, ['#' as int, '#' as int])
    || Holds(s, ['#' as int, '$' as int, '#' as int])
    || Holds(s, ['#' as int, '@' as int, '#' as int])
    || Holds(s, ['#' as int, '?' as int, '#' as int])
  }

  ghost predicate Holds(s: Text, p: Text) {
    exists i: nat :: Occurs(s, p, i)
  }

  lemma CosmeticIs(s: Text)
    ensures Cosmetic(s) <==> Marked(s)
  {
    hide Contains, Occurs;
    ContainsOccurs(s, [HASH, HASH]);
    ContainsOccurs(s, [HASH, DOLLAR, HASH]);
    ContainsOccurs(s, [HASH, '@' as int, HASH]);
    ContainsOccurs(s, [HASH, '?' as int, HASH]);
  }

  /** The last word of the line before its comment, without its trailing dots. */
  ghost predicate WordOf(s: Text, w: Text) {
    exists before, dots, blanks, comment :: Parted(s, before, w, dots, blanks, comment)
  }

  ghost predicate Parted(s: Text, before: Text, w: Text, dots: Text, blanks: Text, comment: Text) {
    && s == before + w + dots + blanks + comment
    && HASH !in before && (before == [] || IsSpace(before[|before| - 1]))
    && w != [] && w[|w| - 1] != DOT && Wordy(w)
    && AllOf(dots, DOT) && AllBlank(blanks) && (comment == [] || comment[0] == HASH)
  }

  lemma {:induction false} LastWordIs(before: Text, w: Text)
    requires (before == [] || IsSpace(before[|before| - 1])) && forall b <- w :: !IsSpace(b)
    ensures LastWord(before + w) == w
  {
    if w == [] {
      assert before + w == before;
    } else {
      var init := w[..|w| - 1];
      assert w[|w| - 1] in w && (before + w)[..|before + w| - 1] == before + init && w == init + [w[|w| - 1]];
      LastWordIs(before, init);
    }
  }

  lemma Associative(a: Text, b: Text, c: Text)
    ensures a + b + c == a + (b + c)
  {
  }

  lemma NoLastWord(s: Text)
    ensures s == [] || IsSpace(s[|s| - 1]) ==> LastWord(s) == []
  {
  }

  lemma OneMoreSplits(before: Text, init: Text, last: byte)
    requires init == before + LastWord(init) && !IsSpace(last)
    ensures init + [last] == before + LastWord(init + [last])
  {
    hide LastWord, IsSpace;
    LastWordStep(init, last);
    Associative(before, LastWord(init), [last]);
  }

  lemma {:induction false} LastWordSplits(s: Text) returns (before: Text)
    ensures s == before + LastWord(s) && (before == [] || IsSpace(before[|before| - 1]))
  {
    hide LastWord, IsSpace;
    NoLastWord(s);
    if s == [] || IsSpace(s[|s| - 1]) {
      before := s;
    } else {
      var init, last := s[..|s| - 1], s[|s| - 1];
      before := LastWordSplits(init);
      assert s == init + [last];
      OneMoreSplits(before, init, last);
    }
  }

  lemma {:induction false} BeforeSplits(s: Text, b: byte) returns (rest: Text)
    ensures s == Before(s, b) + rest && (rest == [] || rest[0] == b)
  {
    if s == [] || s[0] == b {
      rest := s;
    } else {
      rest := BeforeSplits(s[1..], b);
      assert s == [s[0]] + s[1..];
    }
  }

  lemma {:induction false} TrimTrailingSplits(s: Text, b: byte) returns (run: Text)
    ensures s == TrimTrailing(s, b) + run && AllOf(run, b)
  {
    if s != [] && s[|s| - 1] == b {
      run := TrimTrailingSplits(s[..|s| - 1], b);
      run := run + [b];
      assert s == s[..|s| - 1] + [b];
    } else {
      run := [];
    }
  }

  lemma {:induction false} TrimStartSplits(s: Text) returns (blanks: Text)
    ensures s == blanks + TrimStart(s) && AllBlank(blanks)
  {
    hide IsSpace;
    if s != [] && IsSpace(s[0]) {
      blanks := TrimStartSplits(s[1..]);
      assert s == [s[0]] + s[1..] == [s[0]] + blanks + TrimStart(s[1..]);
      blanks := [s[0]] + blanks;
    } else {
      blanks := [];
    }
  }

  lemma {:induction false} TrimEndSplits(s: Text) returns (blanks: Text)
    ensures s == TrimEnd(s) + blanks && AllBlank(blanks)
  {
    if s != [] && IsSpace(s[|s| - 1]) {
      blanks := TrimEndSplits(s[..|s| - 1]);
      blanks := blanks + [s[|s| - 1]];
      assert s == s[..|s| - 1] + [s[|s| - 1]];
    } else {
      blanks := [];
    }
  }

  lemma CleanDomainIs(s: Text)
    ensures var domain := Trim(Before(s, HASH));
            var cleaned := TrimTrailing(LastWord(domain), DOT);
            CleanDomain(s) ==
            if Cosmetic(s) || domain == [] || cleaned == [] || LocalName(cleaned) then None else Some(cleaned)
  {
    hide Before, Trim, LastWord, TrimTrailing, Cosmetic, LocalName;
  }

  lemma WordWithDots(w: Text, dots: Text)
    requires Wordy(w) && AllOf(dots, DOT)
    ensures forall b <- w + dots :: !IsSpace(b)
  {
    forall b | b in w + dots
      ensures !IsSpace(b)
    {
      assert b in w || b in dots;
    }
  }

  lemma LeadOf(before: Text) returns (gap: Text, lead: Text)
    requires before == [] || IsSpace(before[|before| - 1])
    ensures before == gap + lead && AllBlank(gap) && (lead == [] || !IsSpace(lead[0]))
    ensures lead == [] || IsSpace(lead[|lead| - 1])
  {
    hide TrimStart;
    gap := TrimStartSplits(before);
    lead := TrimStart(before);
    assert lead != [] ==> lead[|lead| - 1] == before[|before| - 1];
  }

  lemma PartedIsClean(s: Text, before: Text, w: Text, dots: Text, blanks: Text, comment: Text)
    requires Parted(s, before, w, dots, blanks, comment)
    ensures CleanDomain(s) == if Cosmetic(s) || LocalName(w) then None else Some(w)
  {
    hide CleanDomain, Before, Trim, LastWord, TrimTrailing, Cosmetic, LocalName, IsSpace, AllOf, AllBlank, Wordy;
    var body, wd := before + w + dots + blanks, w + dots;
    NoHash(before, w, dots, blanks);
    BeforeAbsent(body, HASH, comment);
    WordWithDots(w, dots);
    var gap, lead := LeadOf(before);
    TrimOfWords(gap, lead, wd, blanks);
    assert body == gap + (lead + wd) + blanks;
    LastWordIs(lead, wd);
    RunTrimmed(w, dots, DOT);
    CleanDomainIs(s);
  }

  lemma NoHash(before: Text, w: Text, dots: Text, blanks: Text)
    requires HASH !in before && Wordy(w) && AllOf(dots, DOT) && AllBlank(blanks)
    ensures HASH !in before + w + dots + blanks
  {
    forall b | b in before + w + dots + blanks
      ensures b != HASH
    {
      assert b in before || b in w || b in dots || b in blanks;
    }
  }

  lemma TrimOfWords(gap: Text, lead: Text, word: Text, blanks: Text)
    requires AllBlank(gap) && AllBlank(blanks) && word != [] && forall b <- word :: !IsSpace(b)
    requires lead == [] || !IsSpace(lead[0])
    ensures Trim(gap + (lead + word) + blanks) == lead + word
  {
    hide TrimStart, TrimEnd;
    TrimPast(gap, lead + word, blanks);
    assert word[0] in word && word[|word| - 1] in word;
    assert (lead + word)[|lead + word| - 1] == word[|word| - 1];
    assert (lead + word)[0] == if lead == [] then word[0] else lead[0];
    TrimNothing(lead + word);
  }

  lemma TrimSplits(s: Text) returns (gap: Text, blanks: Text)
    ensures s == gap + Trim(s) + blanks && AllBlank(gap) && AllBlank(blanks)
  {
    hide TrimStart, TrimEnd, AllBlank;
    gap := TrimStartSplits(s);
    blanks := TrimEndSplits(TrimStart(s));
    assert s == gap + (TrimEnd(TrimStart(s)) + blanks);
  }

  lemma EndsBlank(gap: Text, lead: Text)
    requires AllBlank(gap) && (lead == [] || IsSpace(lead[|lead| - 1]))
    ensures gap + lead == [] || IsSpace((gap + lead)[|gap + lead| - 1])
  {
    assert lead == [] && gap != [] ==> gap[|gap| - 1] in gap;
  }

  lemma DomainParts(domain: Text) returns (lead: Text, dots: Text)
    ensures domain == lead + (TrimTrailing(LastWord(domain), DOT) + dots)
    ensures (lead == [] || IsSpace(lead[|lead| - 1])) && AllOf(dots, DOT)
  {
    hide LastWord, TrimTrailing, AllOf, IsSpace;
    lead := LastWordSplits(domain);
    dots := TrimTrailingSplits(LastWord(domain), DOT);
  }

  lemma Assembled(gap: Text, lead: Text, w: Text, dots: Text, blanks: Text, comment: Text)
    requires AllBlank(gap) && AllBlank(blanks) && AllOf(dots, DOT) && Wordy(w) && w != [] && w[|w| - 1] != DOT
    requires lead == [] || IsSpace(lead[|lead| - 1])
    requires HASH !in gap + (lead + (w + dots)) + blanks && (comment == [] || comment[0] == HASH)
    ensures Parted(gap + (lead + (w + dots)) + blanks + comment, gap + lead, w, dots, blanks, comment)
  {
    hide AllBlank, AllOf, Wordy, IsSpace;
    Associative(gap, lead, w + dots);
    Associative(gap + lead, w, dots);
    EndsBlank(gap, lead);
    assert forall b <- gap + lead :: b in gap + lead + (w + dots + blanks);
  }

  lemma WithoutHash(gap: Text, domain: Text, blanks: Text)
    requires HASH !in gap + domain + blanks
    ensures HASH !in domain
  {
    assert forall b <- domain :: b in gap + domain + blanks;
  }

  lemma CleanIsParted(s: Text)
    requires CleanDomain(s).Some?
    ensures WordOf(s, CleanDomain(s).value)
  {
    hide CleanDomain, Before, Trim, LastWord, TrimTrailing, Cosmetic, LocalName, IsSpace, AllOf, AllBlank, Wordy,
      Parted;
    CleanDomainIs(s);
    var domain := Trim(Before(s, HASH));
    var comment := BeforeSplits(s, HASH);
    var gap, blanks := TrimSplits(Before(s, HASH));
    var lead, dots := DomainParts(domain);
    WithoutHash(gap, domain, blanks);
    WordyWord(domain);
    Assembled(gap, lead, CleanDomain(s).value, dots, blanks, comment);
  }

  /**
   What a bare line stands for: a word exactly if the line bears none of the marks of cosmetic rules and that is the
   last word before its comment, trailing dots aside, and no local name.
   */
  lemma BareLineReads(s: Text, w: Text)
    ensures CleanDomain(s) == Some(w) <==> !Marked(s) && WordOf(s, w) && !LocalName(w)
  {
    hide CleanDomain, Cosmetic, Marked, Parted, LocalName;
    CosmeticIs(s);
    if CleanDomain(s) == Some(w) {
      CleanIsParted(s);
      var before, dots, blanks, comment :| Parted(s, before, w, dots, blanks, comment);
      PartedIsClean(s, before, w, dots, blanks, comment);
    }
    if WordOf(s, w) {
      var before, dots, blanks, comment :| Parted(s, before, w, dots, blanks, comment);
      PartedIsClean(s, before, w, dots, blanks, comment);
    }
  }

  lemma PlainAdBlock(engine: Engine, asAllow: bool, line: Text)
    requires !(ATAT <= line) && !(BARS <= line) && !Slashed(line)
    ensures AdBlockOutcome(engine, line, asAllow) == ExactRule(line, asAllow)
  {
    hide TrimLeading, SuffixDomain, ExactRule, Slashed;
    NothingToTrim(line);
  }

  /** A line of a hosts list, or an AdBlock line without marks, adds exactly the word it stands for, in lower case. */
  lemma BareLineAdds(engine: Engine, asAllow: bool, line: Text, d: Text)
    requires Core(line) && line[0] != '!' as int && line[0] != '#' as int
    ensures var exact := exists w :: !Marked(line) && WordOf(line, w) && !LocalName(w) && Lower(w) == d;
            && (Read(engine, Line(Hosts, asAllow), line) == Add(Exact(asAllow, d)) <==> exact)
            && (!(ATAT <= line) && !(BARS <= line) && !Slashed(line) ==>
                  (Read(engine, Auto(asAllow), line) == Add(Exact(asAllow, d)) <==> exact))
  {
    hide CleanDomain, Marked, WordOf, LocalName, Lower, AdBlockOutcome, Slashed, Read;
    AdBlockReads(engine, asAllow, line);
    forall w
      ensures CleanDomain(line) == Some(w) <==> !Marked(line) && WordOf(line, w) && !LocalName(w)
    {
      BareLineReads(line, w);
    }
    if !(ATAT <= line) && !(BARS <= line) && !Slashed(line) {
      PlainAdBlock(engine, asAllow, line);
    }
  }

  lemma PlainException(engine: Engine, asAllow: bool, x: Text)
    requires !(ATAT <= x) && !(BARS <= x) && !Slashed(x)
    ensures AdBlockOutcome(engine, ATAT + x, asAllow) == ExactRule(x, true)
  {
    hide TrimLeading, SuffixDomain, ExactRule, Slashed;
    ExceptionStripped(x);
  }

  /** The same behind `@@`, as an allow rule on any list. */
  lemma ExceptedLineAdds(engine: Engine, asAllow: bool, x: Text, d: Text)
    requires x != [] && !IsSpace(x[|x| - 1]) && !(ATAT <= x) && !(BARS <= x) && !Slashed(x)
    ensures Read(engine, Auto(asAllow), ATAT + x) == Add(Exact(true, d)) <==>
            exists w :: !Marked(x) && WordOf(x, w) && !LocalName(w) && Lower(w) == d
  {
    hide CleanDomain, Marked, WordOf, LocalName, Lower, Slashed, Read, AdBlockOutcome;
    AdBlockReads(engine, asAllow, ATAT + x);
    PlainException(engine, asAllow, x);
    forall w
      ensures CleanDomain(x) == Some(w) <==> !Marked(x) && WordOf(x, w) && !LocalName(w)
    {
      BareLineReads(x, w);
    }
  }

  /** So a cosmetic line, whatever domain it is for, adds nothing. */
  lemma CosmeticLineAddsNothing(engine: Engine, asAllow: bool, line: Text)
    requires Core(line) && !(ATAT <= line) && !(BARS <= line) && !Slashed(line) && Marked(line)
    ensures Read(engine, Auto(asAllow), line) == Nothing
  {
    hide Marked, Cosmetic, AdBlockOutcome, Slashed, Read, Trim;
    CosmeticIs(line);
    PlainAdBlock(engine, asAllow, line);
    if line[0] == '!' as int || line[0] == '#' as int {
      CommentsAddNothing(engine, Auto(asAllow), line);
    } else {
      AdBlockReads(engine, asAllow, line);
    }
  }

  // ----- regular expressions

  lemma {:induction false} BeforeTextSplits(s: Text, rest: Text, p: Text)
    requires p != [] && (rest == [] || p <= rest)
    requires forall i :: 0 <= i < |s| ==> !(p <= (s + rest)[i..])
    ensures BeforeText(s + rest, p) == s
  {
    if s == [] {
      assert s + rest == rest;
    } else {
      var whole := s + rest;
      assert whole[0..] == whole && !(p <= whole);
      assert whole[1..] == s[1..] + rest;
      forall i | 0 <= i < |s[1..]|
        ensures !(p <= (s[1..] + rest)[i..])
      {
        assert (s[1..] + rest)[i..] == whole[i + 1..];
      }
      BeforeTextSplits(s[1..], rest, p);
    }
  }

  /** The pattern of a text: what stands between its slashes if it starts and ends with one. */
  function Unslashed(t: Text): Text {
    if |t| >= 2 && t[0] == SLASH && t[|t| - 1] == SLASH then t[1..|t| - 1] else t
  }

  /**
   A line of a regex list: a text, blanks, and possibly a comment that starts at the first ` -- `. The text without its
   slashes is added if it compiles.
   */
  lemma RegexLineReads(engine: Engine, asAllow: bool, t: Text, blanks: Text, comment: Text)
    requires Core(t) && Core(t + blanks + comment) && AllBlank(blanks)
    requires t[0] != '!' as int && t[0] != '#' as int && !(['-' as int, '-' as int] <= t + blanks + comment)
    requires comment == [] || [' ' as int, '-' as int, '-' as int, ' ' as int] <= comment
    requires forall i :: 0 <= i < |t + blanks| ==>
               !([' ' as int, '-' as int, '-' as int, ' ' as int] <= (t + blanks + comment)[i..])
    ensures Read(engine, RegexLine(asAllow), t + blanks + comment) ==
            if Unslashed(t) == [] then Nothing
            else if engine.compiles(Unslashed(t)) then Add(Pattern(asAllow, Unslashed(t)))
            else BadPattern
  {
    hide Trim, BeforeText;
    var line := t + blanks + comment;
    assert line[0] == t[0];
    TrimNothing(line);
    BeforeTextSplits(t + blanks, comment, COMMENT);
    TrimPast([], t, blanks);
    assert [] + t + blanks == t + blanks;
    TrimNothing(t);
  }
}
