/** Octets, fixed-width big-endian integers, UTF-8 and the result types shared by every module. */
module Bytes {

  type byte = x: int | 0 <= x < 0x100
  type u16 = x: int | 0 <= x < 0x1_0000
  type u32 = x: int | 0 <= x < 0x1_0000_0000

  datatype Option<+T> = None | Some(value: T)

  /** A fallible result; `:-` plays the part of Rust's `?`. */
  datatype Result<+T, +E> = Ok(value: T) | Err(error: E) {

    predicate IsFailure() {
      Err?
    }

    function PropagateFailure<U>(): Result<U, E>
      requires Err?
    {
      Err(error)
    }

    function Extract(): T
      requires Ok?
    {
      value
    }

    function ToOption(): Option<T> {
      if Ok? then Some(value) else None
    }
  }

  // ----- big-endian integers

  function U16Bytes(n: u16): (b: seq<byte>)
    ensures |b| == 2
  {
    [n / 0x100, n % 0x100]
  }

  function U32Bytes(n: u32): (b: seq<byte>)
    ensures |b| == 4
  {
    U16Bytes(n / 0x1_0000) + U16Bytes(n % 0x1_0000)
  }

  function U16At(data: seq<byte>, pos: nat): u16
    requires pos + 2 <= |data|
  {
    data[pos] as int * 0x100 + data[pos + 1] as int
  }

  function U32At(data: seq<byte>, pos: nat): u32
    requires pos + 4 <= |data|
  {
    U16At(data, pos) as int * 0x1_0000 + U16At(data, pos + 2) as int
  }

  // ----- occurrences of one octet string inside another

  /** `w` occurs in `data` at offset `pos`. */
  predicate At(data: seq<byte>, pos: nat, w: seq<byte>) {
    pos + |w| <= |data| && data[pos..pos + |w|] == w
  }

  lemma AtConcat(data: seq<byte>, pos: nat, a: seq<byte>, b: seq<byte>)
    ensures At(data, pos, a + b) <==> At(data, pos, a) && At(data, pos + |a|, b)
  {
    if At(data, pos, a + b) {
      assert data[pos..pos + |a|] == data[pos..pos + |a + b|][..|a|] == a;
      assert data[pos + |a|..pos + |a| + |b|] == data[pos..pos + |a + b|][|a|..] == b;
    }
    if At(data, pos, a) && At(data, pos + |a|, b) {
      assert data[pos..pos + |a + b|] == data[pos..pos + |a|] + data[pos + |a|..pos + |a| + |b|];
    }
  }

  lemma AtIndex(data: seq<byte>, pos: nat, w: seq<byte>, i: nat)
    requires At(data, pos, w) && i < |w|
    ensures data[pos + i] == w[i]
  {
    assert data[pos..pos + |w|][i] == w[i];
  }

  lemma AtSlice(data: seq<byte>, pos: nat, w: seq<byte>, i: nat, j: nat)
    requires At(data, pos, w) && i <= j <= |w|
    ensures data[pos + i..pos + j] == w[i..j]
  {
    forall k | i <= k < j
      ensures data[pos + k] == w[k]
    {
      AtIndex(data, pos, w, k);
    }
  }

  lemma AtU16(data: seq<byte>, pos: nat, n: u16)
    requires At(data, pos, U16Bytes(n))
    ensures U16At(data, pos) == n
  {
    AtIndex(data, pos, U16Bytes(n), 0);
    AtIndex(data, pos, U16Bytes(n), 1);
  }

  lemma AtU32(data: seq<byte>, pos: nat, n: u32)
    requires At(data, pos, U32Bytes(n))
    ensures U32At(data, pos) == n
  {
    AtConcat(data, pos, U16Bytes(n / 0x1_0000), U16Bytes(n % 0x1_0000));
    AtU16(data, pos, n / 0x1_0000);
    AtU16(data, pos + 2, n % 0x1_0000);
  }

  // ----- UTF-8 (the well-formed sequences of table 3-7 of the Unicode Standard)

  predicate Continuation(b: byte) {
    0x80 <= b <= 0xBF
  }

  /** Length of the well-formed character at the head of `s`, 0 when there is none. */
  function CharLen(s: seq<byte>): (n: nat)
    ensures n <= |s|
  {
    if s == [] then 0
    else if s[0] < 0x80 then 1
    else if 0xC2 <= s[0] <= 0xDF && |s| >= 2 && Continuation(s[1]) then 2
    else if 0xE0 <= s[0] <= 0xEF && |s| >= 3 && Continuation(s[1]) && Continuation(s[2])
      && (s[0] == 0xE0 ==> s[1] >= 0xA0) && (s[0] == 0xED ==> s[1] <= 0x9F) then 3
    else if 0xF0 <= s[0] <= 0xF4 && |s| >= 4
      && Continuation(s[1]) && Continuation(s[2]) && Continuation(s[3])
      && (s[0] == 0xF0 ==> s[1] >= 0x90) && (s[0] == 0xF4 ==> s[1] <= 0x8F) then 4
    else 0
  }

  predicate ValidUtf8(s: seq<byte>) {
    s == [] || (CharLen(s) > 0 && ValidUtf8(s[CharLen(s)..]))
  }

  /** Text splits at an ASCII separator exactly into text: no character straddles it. */
  lemma {:induction false} Utf8SplitsAtAscii(a: seq<byte>, sep: byte, b: seq<byte>)
    requires sep < 0x80
    ensures ValidUtf8(a + [sep] + b) <==> ValidUtf8(a) && ValidUtf8(b)
    decreases |a|
  {
    var whole := a + [sep] + b;
    if a == [] {
      assert whole[1..] == b;
    } else {
      assert whole[|a|] == sep;
      assert forall i :: 0 <= i < |a| ==> whole[i] == a[i];
      var n := CharLen(whole);
      assert n == CharLen(a);
      if n > 0 {
        assert whole[n..] == a[n..] + [sep] + b;
        Utf8SplitsAtAscii(a[n..], sep, b);
      }
    }
  }

  // ----- what UTF-8 encodes

  /** A Unicode scalar value: a code point that is no surrogate. */
  predicate Scalar(c: nat) {
    c < 0xD800 || 0xE000 <= c < 0x11_0000
  }

  function Encoded(c: nat): (s: seq<byte>)
    requires Scalar(c)
    ensures s != []
  {
    if c < 0x80 then [c]
    else if c < 0x800 then [0xC0 + c / 0x40, 0x80 + c % 0x40]
    else if c < 0x1_0000 then [0xE0 + c / 0x1000, 0x80 + c / 0x40 % 0x40, 0x80 + c % 0x40]
    else [0xF0 + c / 0x4_0000, 0x80 + c / 0x1000 % 0x40, 0x80 + c / 0x40 % 0x40, 0x80 + c % 0x40]
  }

  predicate Scalars(cs: seq<nat>) {
    forall c <- cs :: Scalar(c)
  }

  function Encoding(cs: seq<nat>): seq<byte>
    requires Scalars(cs)
  {
    if cs == [] then []
    else
      assert cs[0] in cs && forall c <- cs[1..] :: c in cs;
      Encoded(cs[0]) + Encoding(cs[1..])
  }

  lemma HighLow(hi: int, lo: int)
    requires 0 <= lo < 0x40
    ensures (hi * 0x40 + lo) / 0x40 == hi && (hi * 0x40 + lo) % 0x40 == lo
  {
  }

  lemma SixBits(c: nat)
    ensures 0 <= c % 0x40 < 0x40 && c == c / 0x40 * 0x40 + c % 0x40
    ensures c / 0x1000 == c / 0x40 / 0x40 && c / 0x4_0000 == c / 0x40 / 0x40 / 0x40
  {
  }

  lemma CharLenIs(s: seq<byte>, n: nat)
    requires n == 2 || n == 3 || n == 4
    requires |s| >= n && forall i :: 1 <= i < n ==> Continuation(s[i])
    requires n == 2 ==> 0xC2 <= s[0] <= 0xDF
    requires n == 3 ==> 0xE0 <= s[0] <= 0xEF && (s[0] == 0xE0 ==> s[1] >= 0xA0) && (s[0] == 0xED ==> s[1] <= 0x9F)
    requires n == 4 ==> 0xF0 <= s[0] <= 0xF4 && (s[0] == 0xF0 ==> s[1] >= 0x90) && (s[0] == 0xF4 ==> s[1] <= 0x8F)
    ensures CharLen(s) == n
  {
  }

  lemma EncodedIsChar(c: nat, rest: seq<byte>)
    requires Scalar(c)
    ensures CharLen(Encoded(c) + rest) == |Encoded(c)|
  {
    var s := Encoded(c) + rest;
    assert forall i :: 0 <= i < |Encoded(c)| ==> s[i] == Encoded(c)[i];
    if c >= 0x80 {
      hide CharLen;
      SixBits(c);
      SixBits(c / 0x40);
      CharLenIs(s, |Encoded(c)|);
    }
  }

  lemma TwoIsEncoded(a: byte, b: byte)
    requires 0xC2 <= a <= 0xDF && Continuation(b)
    ensures var c := (a as int - 0xC0) * 0x40 + (b as int - 0x80); Scalar(c) && Encoded(c) == [a, b]
  {
    HighLow(a as int - 0xC0, b as int - 0x80);
  }

  lemma ThreeIsEncoded(a: byte, b: byte, d: byte)
    requires 0xE0 <= a <= 0xEF && Continuation(b) && Continuation(d)
    requires (a == 0xE0 ==> b >= 0xA0) && (a == 0xED ==> b <= 0x9F)
    ensures var c := ((a as int - 0xE0) * 0x40 + (b as int - 0x80)) * 0x40 + (d as int - 0x80);
            Scalar(c) && Encoded(c) == [a, b, d]
  {
    var high := (a as int - 0xE0) * 0x40 + (b as int - 0x80);
    HighLow(a as int - 0xE0, b as int - 0x80);
    HighLow(high, d as int - 0x80);
    SixBits(high * 0x40 + (d as int - 0x80));
  }

  lemma FourIsEncoded(a: byte, b: byte, d: byte, e: byte)
    requires 0xF0 <= a <= 0xF4 && Continuation(b) && Continuation(d) && Continuation(e)
    requires (a == 0xF0 ==> b >= 0x90) && (a == 0xF4 ==> b <= 0x8F)
    ensures var c := (((a as int - 0xF0) * 0x40 + (b as int - 0x80)) * 0x40 + (d as int - 0x80)) * 0x40
              + (e as int - 0x80);
            Scalar(c) && Encoded(c) == [a, b, d, e]
  {
    var high := (a as int - 0xF0) * 0x40 + (b as int - 0x80);
    var mid := high * 0x40 + (d as int - 0x80);
    HighLow(a as int - 0xF0, b as int - 0x80);
    HighLow(high, d as int - 0x80);
    HighLow(mid, e as int - 0x80);
    SixBits(mid * 0x40 + (e as int - 0x80));
  }

  lemma CharIsEncoded(s: seq<byte>) returns (c: nat)
    requires CharLen(s) > 0
    ensures Scalar(c) && Encoded(c) == s[..CharLen(s)]
  {
    var n := CharLen(s);
    if n == 1 {
      c := s[0];
    } else if n == 2 {
      hide Encoded, Scalar;
      TwoIsEncoded(s[0], s[1]);
      c := (s[0] as int - 0xC0) * 0x40 + (s[1] as int - 0x80);
    } else if n == 3 {
      hide Encoded, Scalar;
      ThreeIsEncoded(s[0], s[1], s[2]);
      c := ((s[0] as int - 0xE0) * 0x40 + (s[1] as int - 0x80)) * 0x40 + (s[2] as int - 0x80);
    } else {
      hide Encoded, Scalar;
      FourIsEncoded(s[0], s[1], s[2], s[3]);
      c := (((s[0] as int - 0xF0) * 0x40 + (s[1] as int - 0x80)) * 0x40 + (s[2] as int - 0x80)) * 0x40
        + (s[3] as int - 0x80);
    }
  }

  lemma {:induction false} EncodingIsText(cs: seq<nat>)
    requires Scalars(cs)
    ensures ValidUtf8(Encoding(cs))
  {
    hide CharLen, Encoded;
    if cs == [] {
    } else {
      assert cs[0] in cs && forall c <- cs[1..] :: c in cs;
      EncodingIsText(cs[1..]);
      EncodedIsChar(cs[0], Encoding(cs[1..]));
      assert Encoding(cs)[|Encoded(cs[0])|..] == Encoding(cs[1..]);
    }
  }

  lemma {:induction false} TextIsEncoding(s: seq<byte>) returns (cs: seq<nat>)
    requires ValidUtf8(s)
    ensures Scalars(cs) && Encoding(cs) == s
    decreases |s|
  {
    hide CharLen, Encoded;
    if s == [] {
      cs := [];
    } else {
      var c := CharIsEncoded(s);
      var rest := TextIsEncoding(s[CharLen(s)..]);
      cs := [c] + rest;
      assert cs[1..] == rest && s == s[..CharLen(s)] + s[CharLen(s)..];
    }
  }

  /** Text is exactly what the UTF-8 encodings of scalar values come to. */
  lemma TextIsEncoded(s: seq<byte>)
    ensures ValidUtf8(s) <==> exists cs :: Scalars(cs) && Encoding(cs) == s
  {
    if ValidUtf8(s) {
      var cs := TextIsEncoding(s);
    }
    forall cs | Scalars(cs) && Encoding(cs) == s
      ensures ValidUtf8(s)
    {
      EncodingIsText(cs);
    }
  }
}
