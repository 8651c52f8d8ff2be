/** The file name of a cached list: a readable prefix and the 64-bit FNV-1a hash of its URL. */
module FileName {
  import opened Bytes

  /** A URL or a file name as its UTF-8 octets. */
  type Octets = seq<byte>
  type u64 = x: int | 0 <= x < 0x1_0000_0000_0000_0000

  const BASIS: u64 := 0xcbf29ce484222325
  const PREFIX_LIMIT := 100

  /** Bitwise exclusive or. */
  function Xor(a: nat, b: nat): nat
    decreases a + b
  {
    if a == 0 && b == 0 then 0
    else (if a % 2 != b % 2 then 1 else 0) + 2 * Xor(a / 2, b / 2)
  }

  function Pow2(k: nat): nat {
    if k == 0 then 1 else 2 * Pow2(k - 1)
  }

  lemma Pow2Plus8(k: nat)
    ensures Pow2(k + 8) == 0x100 * Pow2(k)
  {
    assert Pow2(k + 8) == 2 * Pow2(k + 7) == 4 * Pow2(k + 6) == 8 * Pow2(k + 5) == 16 * Pow2(k + 4);
    assert Pow2(k + 4) == 2 * Pow2(k + 3) == 4 * Pow2(k + 2) == 8 * Pow2(k + 1) == 16 * Pow2(k);
  }

  lemma Pow2At64()
    ensures Pow2(64) == 0x1_0000_0000_0000_0000
  {
    Pow2Plus8(0);
    Pow2Plus8(8);
    Pow2Plus8(16);
    Pow2Plus8(24);
    Pow2Plus8(32);
    Pow2Plus8(40);
    Pow2Plus8(48);
    Pow2Plus8(56);
  }

  lemma {:induction false} XorBound(a: nat, b: nat, k: nat)
    requires a < Pow2(k) && b < Pow2(k)
    ensures Xor(a, b) < Pow2(k)
  {
    if k == 0 {
    } else {
      XorBound(a / 2, b / 2, k - 1);
    }
  }

  lemma {:induction false} XorTwice(a: nat, b: nat)
    ensures Xor(Xor(a, b), b) == a
    decreases a + b
  {
    if a != 0 || b != 0 {
      XorTwice(a / 2, b / 2);
      var x := Xor(a, b);
      assert x / 2 == Xor(a / 2, b / 2);
      if x == 0 && b == 0 {
        XorZero(a);
      }
    }
  }

  lemma {:induction false} XorZero(a: nat)
    ensures Xor(a, 0) == a
  {
    if a != 0 {
      XorZero(a / 2);
    }
  }

  function Xor64(h: u64, b: byte): u64 {
    assert Xor(h, b) < 0x1_0000_0000_0000_0000 by {
      Pow2At64();
      XorBound(h, b, 64);
    }
    Xor(h, b)
  }

  /** Wrapping multiplication by the FNV prime. */
  function TimesPrime(h: u64): u64 {
    h * 0x100_0000_01b3 % 0x1_0000_0000_0000_0000
  }

  /** Wrapping multiplication by the inverse of the FNV prime modulo 2^64. */
  function TimesInverse(h: u64): u64 {
    h * 0xce96_5057_aff6_957b % 0x1_0000_0000_0000_0000
  }

  lemma Wrapped(x: u64, t: int)
    ensures (x + 0x1_0000_0000_0000_0000 * t) % 0x1_0000_0000_0000_0000 == x
  {
  }

  lemma PrimeUndone(h: u64)
    ensures TimesInverse(TimesPrime(h)) == h && TimesPrime(TimesInverse(h)) == h
  {
    var q := h * 0x100_0000_01b3 / 0x1_0000_0000_0000_0000;
    Wrapped(h, 887285111055 * h - q * 0xce96_5057_aff6_957b);
    assert TimesPrime(h) * 0xce96_5057_aff6_957b
        == h + 0x1_0000_0000_0000_0000 * (887285111055 * h - q * 0xce96_5057_aff6_957b);
    var q' := h * 0xce96_5057_aff6_957b / 0x1_0000_0000_0000_0000;
    Wrapped(h, 887285111055 * h - q' * 0x100_0000_01b3);
    assert TimesInverse(h) * 0x100_0000_01b3
        == h + 0x1_0000_0000_0000_0000 * (887285111055 * h - q' * 0x100_0000_01b3);
  }

  // ----- FNV-1a

  function Step(h: u64, b: byte): u64 {
    TimesPrime(Xor64(h, b))
  }

  function StepBack(h: u64, b: byte): u64 {
    Xor64(TimesInverse(h), b)
  }

  function HashFrom(h: u64, url: Octets): u64
    decreases |url|
  {
    if url == [] then h else HashFrom(Step(h, url[0]), url[1..])
  }

  function Fnv1a(url: Octets): u64 {
    HashFrom(BASIS, url)
  }

  /** Each step is a bijection on 64-bit values: it is undone on both sides. */
  lemma StepReversible(h: u64, b: byte)
    ensures StepBack(Step(h, b), b) == h
    ensures Step(StepBack(h, b), b) == h
  {
    hide TimesPrime, TimesInverse;
    PrimeUndone(Xor64(h, b));
    PrimeUndone(h);
    XorTwice(h, b);
    XorTwice(TimesInverse(h), b);
  }

  lemma {:induction false} HashConcat(h: u64, u: Octets, v: Octets)
    ensures HashFrom(h, u + v) == HashFrom(HashFrom(h, u), v)
    decreases |u|
  {
    hide Step;
    if u == [] {
      assert u + v == v;
    } else {
      assert (u + v)[1..] == u[1..] + v;
      HashConcat(Step(h, u[0]), u[1..], v);
    }
  }

  lemma {:induction false} HashInjective(g: u64, h: u64, suffix: Octets)
    requires g != h
    ensures HashFrom(g, suffix) != HashFrom(h, suffix)
    decreases |suffix|
  {
    hide Step, StepBack;
    if suffix == [] {
    } else {
      StepReversible(g, suffix[0]);
      StepReversible(h, suffix[0]);
      HashInjective(Step(g, suffix[0]), Step(h, suffix[0]), suffix[1..]);
    }
  }

  /** A common suffix neither creates nor removes a collision. */
  lemma SuffixKeepsCollisions(u: Octets, v: Octets, suffix: Octets)
    ensures Fnv1a(u + suffix) == Fnv1a(v + suffix) <==> Fnv1a(u) == Fnv1a(v)
  {
    HashConcat(BASIS, u, suffix);
    HashConcat(BASIS, v, suffix);
    if Fnv1a(u) != Fnv1a(v) {
      HashInjective(Fnv1a(u), Fnv1a(v), suffix);
    }
  }

  lemma StepSeparates(h: u64, a: byte, b: byte)
    requires a != b
    ensures Step(h, a) != Step(h, b)
  {
    hide TimesPrime, TimesInverse;
    PrimeUndone(Xor64(h, a));
    PrimeUndone(Xor64(h, b));
    XorCancels(h, a);
    XorCancels(h, b);
  }

  /** Exclusive or with a fixed left operand is undone by itself, too. */
  lemma {:induction false} XorCancels(a: nat, b: nat)
    ensures Xor(a, Xor(a, b)) == b
    decreases a + b
  {
    if a != 0 || b != 0 {
      XorCancels(a / 2, b / 2);
      var x := Xor(a, b);
      assert x / 2 == Xor(a / 2, b / 2);
      if a == 0 && x == 0 {
        XorZeroLeft(b);
      }
    }
  }

  lemma {:induction false} XorZeroLeft(b: nat)
    ensures Xor(0, b) == b
  {
    if b != 0 {
      XorZeroLeft(b / 2);
    }
  }

  /** URLs of one length that differ in exactly one octet never collide. */
  lemma OneOctetSeparates(before: Octets, a: byte, b: byte, after: Octets)
    requires a != b
    ensures Fnv1a(before + [a] + after) != Fnv1a(before + [b] + after)
  {
    hide Step;
    var h := Fnv1a(before);
    HashConcat(BASIS, before, [a]);
    HashConcat(BASIS, before, [b]);
    assert HashFrom(h, [a]) == HashFrom(Step(h, a), [a][1..]);
    assert HashFrom(h, [b]) == HashFrom(Step(h, b), [b][1..]);
    StepSeparates(h, a, b);
    SuffixKeepsCollisions(before + [a], before + [b], after);
  }

  // ----- the file name

  const HTTPS: Octets := [0x68, 0x74, 0x74, 0x70, 0x73, 0x3A, 0x2F, 0x2F]
  const HTTP: Octets := [0x68, 0x74, 0x74, 0x70, 0x3A, 0x2F, 0x2F]
  const UNDERSCORE: byte := 0x5F
  const TXT: Octets := [0x2E, 0x74, 0x78, 0x74]

  function WithoutScheme(url: Octets): Octets {
    if HTTPS <= url then url[|HTTPS|..]
    else if HTTP <= url then url[|HTTP|..]
    else url
  }

  predicate Alphanumeric(b: byte) {
    0x30 <= b <= 0x39 || 0x41 <= b <= 0x5A || 0x61 <= b <= 0x7A
  }

  predicate Readable(b: byte) {
    Alphanumeric(b) || b == 0x2E || b == UNDERSCORE || b == 0x2D
  }

  /** One output octet per character: a character's continuation octets contribute nothing of their own. */
  function Sanitized(s: Octets): Octets {
    if s == [] then []
    else (if Readable(s[0]) then [s[0]] else if Continuation(s[0]) then [] else [UNDERSCORE]) + Sanitized(s[1..])
  }

  function Prefix(url: Octets): (p: Octets)
    ensures |p| <= PREFIX_LIMIT
  {
    var s := Sanitized(WithoutScheme(url));
    if |s| > PREFIX_LIMIT then s[..PREFIX_LIMIT] else s
  }

  function HexDigit(n: int): byte
    requires 0 <= n < 16
  {
    if n < 10 then 0x30 + n else 0x61 + (n - 10)
  }

  /** Exactly `w` lower-case hexadecimal digits. */
  function Hex(n: nat, w: nat): (s: Octets)
    ensures |s| == w
  {
    if w == 0 then [] else Hex(n / 16, w - 1) + [HexDigit(n % 16)]
  }

  function UrlFile(url: Octets): Octets {
    Prefix(url) + ([UNDERSCORE] + Hex(Fnv1a(url), 16) + TXT)
  }

  lemma StepIs(h: u64, b: byte)
    ensures Step(h, b) == TimesPrime(Xor64(h, b))
  {
  }

  method UrlToFilename(url: Octets) returns (name: Octets)
    ensures name == UrlFile(url)
  {
    hide Step, Hex, Prefix;
    var h := BASIS;
    for i := 0 to |url|
      invariant HashFrom(h, url[i..]) == Fnv1a(url)
    {
      assert url[i..][1..] == url[i + 1..];
      StepIs(h, url[i]);
      h := Xor64(h, url[i]);
      h := TimesPrime(h);
    }
    name := Prefix(url) + ([UNDERSCORE] + Hex(h, 16) + TXT);
  }

  lemma {:induction false} HexInjective(m: nat, n: nat, w: nat)
    requires m < Pow2(4 * w) && n < Pow2(4 * w) && Hex(m, w) == Hex(n, w)
    ensures m == n
  {
    if w == 0 {
    } else {
      var a, b := Hex(m / 16, w - 1), Hex(n / 16, w - 1);
      assert a == Hex(m, w)[..w - 1] == b;
      assert Hex(m, w)[w - 1] == HexDigit(m % 16) && Hex(n, w)[w - 1] == HexDigit(n % 16);
      Pow2Plus4(4 * (w - 1));
      HexInjective(m / 16, n / 16, w - 1);
    }
  }

  lemma Pow2Plus4(k: nat)
    ensures Pow2(k + 4) == 16 * Pow2(k)
  {
    assert Pow2(k + 4) == 2 * Pow2(k + 3) == 4 * Pow2(k + 2) == 8 * Pow2(k + 1) == 16 * Pow2(k);
  }

  /** Two URLs share a file exactly when both their readable prefixes and their hashes agree. */
  lemma SameFile(u: Octets, v: Octets)
    ensures UrlFile(u) == UrlFile(v) <==> Prefix(u) == Prefix(v) && Fnv1a(u) == Fnv1a(v)
  {
    hide Prefix, Hex, Fnv1a;
    if UrlFile(u) == UrlFile(v) {
      var p, q := Prefix(u), Prefix(v);
      var x, y := [UNDERSCORE] + Hex(Fnv1a(u), 16) + TXT, [UNDERSCORE] + Hex(Fnv1a(v), 16) + TXT;
      assert |p| == |q|;
      assert p == (p + x)[..|p|] && q == (q + y)[..|q|];
      assert x == (p + x)[|p|..] && y == (q + y)[|q|..];
      assert Hex(Fnv1a(u), 16) == x[1..17] && Hex(Fnv1a(v), 16) == y[1..17];
      Pow2At64();
      HexInjective(Fnv1a(u), Fnv1a(v), 16);
    }
  }

  lemma {:induction false} HexReadable(n: nat, w: nat)
    ensures forall b <- Hex(n, w) :: Readable(b)
  {
    if w == 0 {
    } else {
      HexReadable(n / 16, w - 1);
    }
  }

  lemma {:induction false} SanitizedReadable(s: Octets)
    ensures forall b <- Sanitized(s) :: Readable(b)
  {
    if s == [] {
    } else {
      SanitizedReadable(s[1..]);
    }
  }

  /** A file name holds only letters, digits, dots, underscores and hyphens, so it names a file of its own directory. */
  lemma FileIsReadable(url: Octets)
    ensures forall b <- UrlFile(url) :: Readable(b)
    ensures 21 <= |UrlFile(url)| <= PREFIX_LIMIT + 21
  {
    hide Fnv1a, Hex, Sanitized;
    SanitizedReadable(WithoutScheme(url));
    HexReadable(Fnv1a(url), 16);
  }

  /** So lists whose URLs have one length and differ in one octet are never cached in one file. */
  lemma OneOctetSeparatesFiles(before: Octets, a: byte, b: byte, after: Octets)
    requires a != b
    ensures UrlFile(before + [a] + after) != UrlFile(before + [b] + after)
  {
    OneOctetSeparates(before, a, b, after);
    SameFile(before + [a] + after, before + [b] + after);
  }

  // ----- the name, character by character

  lemma XorStep(a: nat, b: nat)
    ensures Xor(a, b) == (if a % 2 != b % 2 then 1 else 0) + 2 * Xor(a / 2, b / 2)
  {
    if a == 0 && b == 0 {
      assert Xor(0, 0) == 0;
    }
  }

  lemma Halved(p: nat, r: nat)
    ensures (2 * p + r) / 2 == p + r / 2 && (2 * p + r) % 2 == r % 2
  {
  }

  /** Above the bits of `b`, exclusive or changes nothing. */
  lemma {:induction false} XorAbove(q: nat, r: nat, b: nat, k: nat)
    requires r < Pow2(k) && b < Pow2(k)
    ensures Xor(Pow2(k) * q + r, b) == Pow2(k) * q + Xor(r, b)
  {
    hide Xor;
    if k == 0 {
      assert Pow2(0) * q + r == q;
      XorZero(q);
      XorZero(0);
    } else {
      var p := Pow2(k - 1) * q;
      assert Pow2(k) * q == 2 * p;
      XorAbove(q, r / 2, b / 2, k - 1);
      Halved(p, r);
      XorStep(2 * p + r, b);
      XorStep(r, b);
    }
  }

  lemma XorLow(q: nat, r: byte, b: byte)
    ensures Xor(0x100 * q + r as int, b) == 0x100 * q + Xor(r, b)
  {
    hide Xor;
    Pow2Plus8(0);
    assert Pow2(0) == 1;
    XorAbove(q, r, b, 8);
  }

  lemma XorOfA()
    ensures Xor(0x25, 0x61) == 0x44
  {
    hide Xor;
    XorStep(0x25, 0x61);
    XorStep(0x12, 0x30);
    XorStep(0x9, 0x18);
    XorStep(0x4, 0xC);
    XorStep(0x2, 0x6);
    XorStep(0x1, 0x3);
    XorStep(0x0, 0x1);
    XorZero(0);
  }

  /** The hash is the published one: its values for the empty string and for "a". */
  lemma KnownHashes()
    ensures Fnv1a([]) == 0xcbf29ce484222325 && Fnv1a([0x61]) == 0xaf63dc4c8601ec8c
  {
    hide Xor, Pow2;
    XorLow(0xcbf29ce4842223, 0x25, 0x61);
    XorOfA();
    StepIs(BASIS, 0x61);
    assert Xor64(BASIS, 0x61) == 0xcbf29ce484222344;
    OneStep(0x61);
  }

  lemma OneStep(b: byte)
    ensures Fnv1a([b]) == Step(BASIS, b)
  {
    hide Step;
    assert HashFrom(BASIS, [b]) == HashFrom(Step(BASIS, b), [b][1..]);
  }

  function HexDigitValue(b: byte): int {
    if b <= 0x39 then b - 0x30 else b - 0x61 + 10
  }

  function HexValue(s: Octets): int {
    if s == [] then 0 else HexValue(s[..|s| - 1]) * 16 + HexDigitValue(s[|s| - 1])
  }

  lemma {:induction false} HexReads(n: nat, w: nat)
    requires n < Pow2(4 * w)
    ensures HexValue(Hex(n, w)) == n
  {
    if w == 0 {
    } else {
      Pow2Plus4(4 * (w - 1));
      HexReads(n / 16, w - 1);
      assert Hex(n, w)[..w - 1] == Hex(n / 16, w - 1);
    }
  }

  /**
   A character's place in the name: itself if it is a letter, a digit, a dot, an underscore or a hyphen, else an
   underscore.
   */
  function Shown(c: nat): byte {
    if c < 0x80 && Readable(c) then c else UNDERSCORE
  }

  lemma {:induction false} SanitizedConcat(a: Octets, b: Octets)
    ensures Sanitized(a + b) == Sanitized(a) + Sanitized(b)
  {
    if a == [] {
      assert a + b == b;
    } else {
      assert (a + b)[1..] == a[1..] + b;
      SanitizedConcat(a[1..], b);
    }
  }

  lemma OneCharacter(c: nat)
    requires Scalar(c)
    ensures Sanitized(Encoded(c)) == [Shown(c)]
  {
    hide Sanitized, Encoded, Readable;
    var s := Encoded(c);
    EncodedStarts(c);
    OneOctet(s[0]);
    SanitizedConcat([s[0]], s[1..]);
    assert s == [s[0]] + s[1..];
    ContinuationsVanish(s[1..]);
  }

  lemma EncodedStarts(c: nat)
    requires Scalar(c)
    ensures var s := Encoded(c);
            && s != [] && !Continuation(s[0]) && (forall i :: 0 <= i < |s[1..]| ==> Continuation(s[1..][i]))
            && (if c < 0x80 then s[0] == c else !Readable(s[0]))
  {
  }

  lemma OneOctet(b: byte)
    ensures Sanitized([b]) == if Readable(b) then [b] else if Continuation(b) then [] else [UNDERSCORE]
  {
    assert Sanitized([b][1..]) == [];
  }

  lemma {:induction false} ContinuationsVanish(s: Octets)
    requires forall i :: 0 <= i < |s| ==> Continuation(s[i])
    ensures Sanitized(s) == []
  {
    if s == [] {
    } else {
      ContinuationsVanish(s[1..]);
    }
  }

  lemma {:induction false} SanitizedReads(cs: seq<nat>)
    requires Scalars(cs)
    ensures |Sanitized(Encoding(cs))| == |cs|
    ensures forall i :: 0 <= i < |cs| ==> Sanitized(Encoding(cs))[i] == Shown(cs[i])
  {
    hide Encoded, Shown;
    if cs == [] {
    } else {
      assert cs[0] in cs && forall c <- cs[1..] :: c in cs;
      SanitizedReads(cs[1..]);
      OneCharacter(cs[0]);
      SanitizedConcat(Encoded(cs[0]), Encoding(cs[1..]));
    }
  }

  /**
   The file name of a URL: its first hundred characters behind `https://` or `http://`, with an underscore for each that
   is unsafe, an underscore, the hash in sixteen hexadecimal digits, and `.txt`.
   */
  lemma UrlFileReads(url: Octets, scheme: Octets, cs: seq<nat>)
    requires Scalars(cs) && url == scheme + Encoding(cs)
    requires scheme == HTTPS || scheme == HTTP || (scheme == [] && !(HTTPS <= url) && !(HTTP <= url))
    ensures var name, n := UrlFile(url), if |cs| < 100 then |cs| else 100;
            && |name| == n + 21
            && (forall i :: 0 <= i < n ==> name[i] == Shown(cs[i]))
            && name[n] == UNDERSCORE && HexValue(name[n + 1..n + 17]) == Fnv1a(url) && name[n + 17..] == TXT
  {
    hide Fnv1a, Hex, HexValue, Shown, Encoding, Scalars, Prefix, UrlFile;
    var name := UrlFile(url);
    PrefixReads(url, scheme, cs);
    Hash64Reads(Fnv1a(url));
    NameParts(url);
  }

  lemma PrefixReads(url: Octets, scheme: Octets, cs: seq<nat>)
    requires Scalars(cs) && url == scheme + Encoding(cs)
    requires scheme == HTTPS || scheme == HTTP || (scheme == [] && !(HTTPS <= url) && !(HTTP <= url))
    ensures |Prefix(url)| == if |cs| < 100 then |cs| else 100
    ensures forall i :: 0 <= i < |Prefix(url)| ==> Prefix(url)[i] == Shown(cs[i])
  {
    hide Sanitized, Shown, Encoding, WithoutScheme;
    assert [] + Encoding(cs) == Encoding(cs);
    SchemeStripped(scheme, Encoding(cs));
    SanitizedReads(cs);
  }

  lemma Hash64Reads(h: u64)
    ensures HexValue(Hex(h, 16)) == h
  {
    hide Hex, HexValue, Pow2;
    Pow2At64();
    HexReads(h, 16);
  }

  lemma NameParts(url: Octets)
    ensures var p, name := Prefix(url), UrlFile(url);
            && |name| == |p| + 21 && (forall i :: 0 <= i < |p| ==> name[i] == p[i])
            && name[|p|] == UNDERSCORE && name[|p| + 1..|p| + 17] == Hex(Fnv1a(url), 16) && name[|p| + 17..] == TXT
  {
    hide Fnv1a, Hex, Prefix;
  }

  lemma SchemeStripped(scheme: Octets, rest: Octets)
    requires scheme == HTTPS || scheme == HTTP || (scheme == [] && !(HTTPS <= rest) && !(HTTP <= rest))
    ensures WithoutScheme(scheme + rest) == rest
  {
    if scheme == HTTP {
      assert (scheme + rest)[4] == HTTP[4] != HTTPS[4];
    }
    assert scheme == [] ==> scheme + rest == rest;
  }
}
