/** `constantTimeStringEqual`: a byte-wise compare of two encoded strings. */
module Utf8 {
  import opened JsStrings

  type Scalar = c: nat | c < 0xD800 || 0xE000 <= c < 0x11_0000

  const REPLACEMENT: Scalar := 0xFFFD

  predicate IsHigh(u: CodeUnit) { 0xD800 <= u < 0xDC00 }

  predicate IsLow(u: CodeUnit) { 0xDC00 <= u < 0xE000 }

  predicate StartsPair(s: JsString) { |s| >= 2 && IsHigh(s[0]) && IsLow(s[1]) }

  /** A string is well formed when every surrogate is half of a pair. */
  predicate WellFormed(s: JsString) {
    if s == [] then true
    else if StartsPair(s) then WellFormed(s[2..])
    else !IsHigh(s[0]) && !IsLow(s[0]) && WellFormed(s[1..])
  }

  function PairScalar(high: int, low: int): (c: Scalar)
    requires 0xD800 <= high < 0xDC00 && 0xDC00 <= low < 0xE000
    ensures c >= 0x1_0000
  {
    0x1_0000 + (high - 0xD800) * 0x400 + (low - 0xDC00)
  }

  /** The code points an encoder sees; a lone surrogate becomes U+FFFD. */
  function Scalars(s: JsString): seq<Scalar> {
    if s == [] then []
    else if StartsPair(s) then
      [PairScalar(s[0], s[1])] + Scalars(s[2..])
    else if IsHigh(s[0]) || IsLow(s[0]) then [REPLACEMENT] + Scalars(s[1..])
    else [s[0]] + Scalars(s[1..])
  }

  type Byte = b: nat | b < 0x100

  /** One code point, by the table of section 3 of RFC 3629. */
  function EncodeScalar(c: Scalar): seq<Byte> {
    if c < 0x80 then [c]
    else if c < 0x800 then [0xC0 + c / 0x40, 0x80 + c % 0x40]
    else if c < 0x1_0000 then [0xE0 + c / 0x1000, 0x80 + c / 0x40 % 0x40, 0x80 + c % 0x40]
    else [0xF0 + c / 0x4_0000, 0x80 + c / 0x1000 % 0x40, 0x80 + c / 0x40 % 0x40, 0x80 + c % 0x40]
  }

  function Encode(cs: seq<Scalar>): seq<Byte> {
    if cs == [] then [] else EncodeScalar(cs[0]) + Encode(cs[1..])
  }

  /** `Buffer.from(s)`. */
  function Buffer(s: JsString): seq<Byte> { Encode(Scalars(s)) }

  /** The length of the sequence a leading byte announces. */
  function SequenceLength(lead: Byte): nat {
    if lead < 0x80 then 1 else if lead < 0xE0 then 2 else if lead < 0xF0 then 3 else 4
  }

  function DecodeScalar(b: seq<int>): int
    requires 1 <= |b| <= 4
  {
    if |b| == 1 then b[0]
    else if |b| == 2 then (b[0] - 0xC0) * 0x40 + (b[1] - 0x80)
    else if |b| == 3 then (b[0] - 0xE0) * 0x1000 + (b[1] - 0x80) * 0x40 + (b[2] - 0x80)
    else (b[0] - 0xF0) * 0x4_0000 + (b[1] - 0x80) * 0x1000 + (b[2] - 0x80) * 0x40 + (b[3] - 0x80)
  }

  lemma ScalarRoundTrip(c: Scalar)
    ensures EncodeScalar(c) != [] && |EncodeScalar(c)| == SequenceLength(EncodeScalar(c)[0])
    ensures DecodeScalar(EncodeScalar(c)) == c
  {
    assert c / 0x40 / 0x40 == c / 0x1000;
    assert c / 0x1000 / 0x40 == c / 0x4_0000;
  }

  /** No two code point sequences share an encoding. */
  lemma {:induction false} EncodeInjective(a: seq<Scalar>, b: seq<Scalar>)
    requires Encode(a) == Encode(b)
    ensures a == b
  {
    if a != [] { ScalarRoundTrip(a[0]); }
    if b != [] { ScalarRoundTrip(b[0]); }
    if a != [] && b != [] {
      var x, y := EncodeScalar(a[0]), EncodeScalar(b[0]);
      assert x[0] == Encode(a)[0] == Encode(b)[0] == y[0];
      assert x == Encode(a)[..|x|] == Encode(b)[..|y|] == y;
      assert Encode(a[1..]) == Encode(a)[|x|..] == Encode(b)[|y|..] == Encode(b[1..]);
      EncodeInjective(a[1..], b[1..]);
      assert a == [a[0]] + a[1..] && b == [b[0]] + b[1..];
    }
  }

  /** On well-formed strings the code points determine the code units. */
  lemma {:induction false} ScalarsInjective(a: JsString, b: JsString)
    requires WellFormed(a) && WellFormed(b) && Scalars(a) == Scalars(b)
    ensures a == b
  {
    if a != [] && b != [] {
      assert Scalars(a)[0] == Scalars(b)[0];
      if StartsPair(a) {
        assert Scalars(a)[1..] == Scalars(a[2..]) && Scalars(b)[1..] == Scalars(b[2..]);
        ScalarsInjective(a[2..], b[2..]);
        assert a == [a[0], a[1]] + a[2..] && b == [b[0], b[1]] + b[2..];
      } else {
        assert Scalars(a)[1..] == Scalars(a[1..]) && Scalars(b)[1..] == Scalars(b[1..]);
        ScalarsInjective(a[1..], b[1..]);
        assert a == [a[0]] + a[1..] && b == [b[0]] + b[1..];
      }
    }
  }

  /** Bitwise exclusive or, lowest bit last. */
  function Xor(x: nat, y: nat): nat {
    if x == 0 && y == 0 then 0 else 2 * Xor(x / 2, y / 2) + (x + y) % 2
  }

  /** Bitwise or, lowest bit last. */
  function Or(x: nat, y: nat): nat {
    if x == 0 && y == 0 then 0 else 2 * Or(x / 2, y / 2) + if x % 2 == 1 || y % 2 == 1 then 1 else 0
  }

  lemma {:induction false} XorZero(x: nat, y: nat)
    ensures Xor(x, y) == 0 <==> x == y
  {
    if x != 0 || y != 0 {
      XorZero(x / 2, y / 2);
    }
  }

  lemma {:induction false} OrZero(x: nat, y: nat)
    ensures Or(x, y) == 0 <==> x == 0 && y == 0
  {
    if x != 0 || y != 0 {
      OrZero(x / 2, y / 2);
    }
  }

  /** The library's byte compare: differences accumulate, no early exit. */
  method TimingSafeEqual(a: seq<Byte>, b: seq<Byte>) returns (same: bool)
    requires |a| == |b|
    ensures same <==> a == b
  {
    var diff := 0;
    for i := 0 to |a|
      invariant diff == 0 <==> a[..i] == b[..i]
    {
      XorZero(a[i], b[i]);
      OrZero(diff, Xor(a[i], b[i]));
      assert a[..i + 1] == a[..i] + [a[i]] && b[..i + 1] == b[..i] + [b[i]];
      diff := Or(diff, Xor(a[i], b[i]));
    }
    assert a[..|a|] == a && b[..|b|] == b;
    same := diff == 0;
  }

  /** Equal exactly when both strings have the same code points, lone surrogates
      read as U+FFFD; on well-formed strings, exactly when they are equal. */
  method ConstantTimeStringEqual(a: JsString, b: JsString) returns (same: bool)
    ensures same <==> Scalars(a) == Scalars(b)
    ensures WellFormed(a) && WellFormed(b) ==> (same <==> a == b)
  {
    var ba, bb := Buffer(a), Buffer(b);
    if ba == bb {
      EncodeInjective(Scalars(a), Scalars(b));
      if WellFormed(a) && WellFormed(b) {
        ScalarsInjective(a, b);
      }
    }
    if |ba| != |bb| {
      return false;
    }
    same := TimingSafeEqual(ba, bb);
  }

  /** Outside well-formed strings the check can accept two different strings. */
  lemma LoneSurrogateAliases()
    ensures [0xD800] != [0xFFFD] && Scalars([0xD800]) == Scalars([0xFFFD])
  {}

  /** U+1F600 is one code point and four bytes. */
  lemma PairEncodes()
    ensures Scalars([0xD83D, 0xDE00]) == [0x1F600] && Buffer([0xD83D, 0xDE00]) == [0xF0, 0x9F, 0x98, 0x80]
  {
    var tail: JsString := [0xD83D, 0xDE00][2..];
    assert tail == [] && Scalars(tail) == [];
    assert Scalars([0xD83D, 0xDE00]) == [0x1F600] + [];
    assert Encode([0x1F600]) == EncodeScalar(0x1F600) + Encode([]);
  }
}
