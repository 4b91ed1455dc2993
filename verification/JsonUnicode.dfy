/**
 The numbers of the JSON string parser and the code points of module Utf8: what the parser writes
 for a number is the UTF-8 of section 3 of RFC 3629.
 */
module JsonUnicode {
  import opened Bytes
  import opened Json
  import Utf8

  /** The characters of a C string as bytes. */
  predicate AreBytes(s: string, b: bytes) {
    |s| == |b| && forall i :: 0 <= i < |s| ==> s[i] as int == b[i] as int
  }

  // ----- six bits at a time, as words and as numbers -----------------------------------------------

  /** The fifteen low bits of v and then the six of b. */
  function Cat(v: bv32, b: byte): bv32 { ((v << 6) & 0x1F_FFC0) | (b as bv32 & 0x3F) }

  lemma CatIs(v: bv32, b: byte)
    ensures Cat(v, b) == ((v << 6) & 0x1F_FFC0) | (b as bv32 & 0x3F)
  {
  }

  lemma Disjoint(v: bv32, b: bv32)
    ensures (((v << 6) & 0x1F_FFC0) | (b & 0x3F)) as int == ((v << 6) & 0x1F_FFC0) as int + (b & 0x3F) as int
  {
  }

  lemma HighInt(v: bv32)
    requires v < 0x8000
    ensures ((v << 6) & 0x1F_FFC0) as int == v as int * 0x40
  {
  }

  lemma SixInt(b: byte)
    requires b < 0x40
    ensures (b as bv32 & 0x3F) as int == b as int
  {
  }

  lemma CatInt(v: bv32, b: byte)
    requires v < 0x8000 && b < 0x40
    ensures Cat(v, b) as int == v as int * 0x40 + b as int
  {
    hide Cat;
    CatIs(v, b);
    Disjoint(v, b as bv32);
    HighInt(v);
    SixInt(b);
  }

  lemma CatBound(v: bv32, b: byte)
    requires v < 0x8000 && b < 0x40
    ensures (v < 8 ==> Cat(v, b) < 0x200) && (v < 0x200 ==> Cat(v, b) < 0x8000) && Cat(v, b) < 0x20_0000
  {
  }

  function Right(v: bv32): bv32 { v >> 6 }

  function Low(v: bv32): (b: byte)
    ensures b < 0x40
  {
    (v & 0x3F) as byte
  }

  lemma Parts(v: bv32)
    requires v < 0x20_0000
    ensures Right(v) < 0x8000 && Cat(Right(v), Low(v)) == v
  {
  }

  lemma LowInt(b: byte)
    requires b < 0x40
    ensures b as int < 0x40
  {
  }

  lemma IntParts(x: int, q: int, r: int)
    requires x == q * 0x40 + r && 0 <= r < 0x40
    ensures q == x / 0x40 && r == x % 0x40
  {
  }

  lemma Divided(v: bv32)
    requires v < 0x20_0000
    ensures Right(v) as int == v as int / 0x40 && Low(v) as int == v as int % 0x40 && Right(v) < 0x20_0000
  {
    hide *;
    Parts(v);
    CatInt(Right(v), Low(v));
    LowInt(Low(v));
    IntParts(v as int, Right(v) as int, Low(v) as int);
  }

  // ----- the word of a number -----------------------------------------------------------------------

  function Digit(n: nat): (b: byte)
    requires n < 0x40
    ensures b as int == n
  {
    n as byte
  }

  lemma DigitBound(b: byte)
    requires b as int < 0x40
    ensures b < 0x40 && (b as bv32) as int == b as int && (b as int < 8 ==> b as bv32 < 8)
  {
  }

  lemma Split(uc: nat)
    requires uc < 0x20_0000
    ensures uc / 0x40000 < 8
    ensures uc == ((uc / 0x40000 * 0x40 + uc / 0x1000 % 0x40) * 0x40 + uc / 0x40 % 0x40) * 0x40 + uc % 0x40
  {
  }

  lemma Push(v: bv32, n: nat) returns (w: bv32)
    requires n < 0x40 && v < 0x8000
    ensures w as int == v as int * 0x40 + n
    ensures (v < 8 ==> w < 0x200) && (v < 0x200 ==> w < 0x8000) && w < 0x20_0000
  {
    hide *;
    DigitBound(Digit(n));
    w := Cat(v, Digit(n));
    CatInt(v, Digit(n));
    CatBound(v, Digit(n));
  }

  /** Every number that an escape can stand for is that of a word. */
  lemma WordOf(uc: nat) returns (v: bv32)
    requires uc < 0x20_0000
    ensures v as int == uc && v < 0x20_0000
  {
    hide *;
    Split(uc);
    DigitBound(Digit(uc / 0x40000));
    v := Digit(uc / 0x40000) as bv32;
    v := Push(v, uc / 0x1000 % 0x40);
    v := Push(v, uc / 0x40 % 0x40);
    v := Push(v, uc % 0x40);
  }

  // ----- UTF-8 ------------------------------------------------------------------------------------------

  lemma Marked(b: byte)
    requires b < 0x40
    ensures (0x80 | b) as int == 0x80 + b as int
  {
  }

  lemma LeadC0(r: bv32)
    requires r < 0x20
    ensures (0xC0 | r as byte) as int == 0xC0 + r as int
  {
  }

  lemma LeadE0(r: bv32)
    requires r < 0x10
    ensures (0xE0 | r as byte) as int == 0xE0 + r as int
  {
  }

  lemma LeadF0(r: bv32)
    requires r < 0x08
    ensures (0xF0 | r as byte) as int == 0xF0 + r as int
  {
  }

  lemma Narrow(v: bv32)
    requires v < 0x100
    ensures (v as byte) as int == v as int
  {
  }

  lemma Encode2Parts(v: bv32)
    requires 0x80 <= v < 0x800
    ensures Right(v) < 0x20 && Utf8.Encode2(v) == (0xC0 | Right(v) as byte, 0x80 | Low(v))
  {
  }

  lemma Encode3Parts(v: bv32)
    requires 0x800 <= v < 0x10000
    ensures Right(Right(v)) < 0x10
    ensures Utf8.Encode3(v) == (0xE0 | Right(Right(v)) as byte, 0x80 | Low(Right(v)), 0x80 | Low(v))
  {
  }

  lemma Encode4Parts(v: bv32)
    requires 0x10000 <= v <= 0x10FFFF
    ensures Right(Right(Right(v))) < 0x08
    ensures Utf8.Encode4(v) ==
      (0xF0 | Right(Right(Right(v))) as byte, 0x80 | Low(Right(Right(v))), 0x80 | Low(Right(v)), 0x80 | Low(v))
  {
  }

  lemma EncodeCases(v: bv32)
    requires Utf8.IsScalar(v)
    ensures v <= 0x7F ==> Utf8.Encode(v) == [v as byte]
    ensures 0x80 <= v <= 0x7FF ==> var (a, b) := Utf8.Encode2(v); Utf8.Encode(v) == [a, b]
    ensures 0x800 <= v <= 0xFFFF ==> var (a, b, c) := Utf8.Encode3(v); Utf8.Encode(v) == [a, b, c]
    ensures 0x10000 <= v ==> v <= 0x10FFFF && var (a, b, c, d) := Utf8.Encode4(v); Utf8.Encode(v) == [a, b, c, d]
  {
    hide Utf8.Encode2, Utf8.Encode3, Utf8.Encode4;
  }

  /** A word and its number lie in the same range. */
  lemma SameRange(v: bv32)
    ensures v < 0x80 <==> v as int < 0x80
    ensures v < 0x800 <==> v as int < 0x800
    ensures v < 0x10000 <==> v as int < 0x10000
    ensures v <= 0x10FFFF <==> v as int <= 0x10FFFF
  {
  }

  lemma Utf8Cases(uc: nat)
    requires 0 < uc < 0x20_0000
    ensures uc < 0x80 ==> Utf8Chars(uc) == [uc as char]
    ensures 0x80 <= uc < 0x800 ==> Utf8Chars(uc) == [(0xC0 + uc / 0x40) as char, (0x80 + uc % 0x40) as char]
    ensures 0x800 <= uc < 0x10000 ==>
      Utf8Chars(uc) == [(0xE0 + uc / 0x40 / 0x40) as char, (0x80 + uc / 0x40 % 0x40) as char, (0x80 + uc % 0x40) as char]
    ensures 0x10000 <= uc ==>
      Utf8Chars(uc) == [(0xF0 + uc / 0x40 / 0x40 / 0x40) as char, (0x80 + uc / 0x40 / 0x40 % 0x40) as char,
                        (0x80 + uc / 0x40 % 0x40) as char, (0x80 + uc % 0x40) as char]
  {
    assert uc / 0x1000 == uc / 0x40 / 0x40 && uc / 0x40000 == uc / 0x40 / 0x40 / 0x40;
  }

  lemma Two(v: bv32)
    requires 0x80 <= v < 0x800
    ensures var n, (a, b) := v as int, Utf8.Encode2(v); a as int == 0xC0 + n / 0x40 && b as int == 0x80 + n % 0x40
  {
    hide *;
    Encode2Parts(v);
    Divided(v);
    Narrow(Right(v));
    LeadC0(Right(v));
    Marked(Low(v));
  }

  /** The bytes of a character of three, as numbers. */
  predicate AreThree(n: nat, a: int, b: int, c: int) {
    a == 0xE0 + n / 0x40 / 0x40 && b == 0x80 + n / 0x40 % 0x40 && c == 0x80 + n % 0x40
  }

  lemma Three(v: bv32)
    requires 0x800 <= v < 0x10000
    ensures var (a, b, c) := Utf8.Encode3(v); AreThree(v as int, a as int, b as int, c as int)
  {
    hide Utf8.Encode3, Right, Low;
    Encode3Parts(v);
    Divided(v);
    Divided(Right(v));
    Narrow(Right(Right(v)));
    LeadE0(Right(Right(v)));
    Marked(Low(Right(v)));
    Marked(Low(v));
  }

  /** The bytes of a character of four, as numbers. */
  predicate AreFour(n: nat, a: int, b: int, c: int, d: int) {
    && a == 0xF0 + n / 0x40 / 0x40 / 0x40 && b == 0x80 + n / 0x40 / 0x40 % 0x40
    && c == 0x80 + n / 0x40 % 0x40 && d == 0x80 + n % 0x40
  }

  lemma Four(v: bv32)
    requires 0x10000 <= v <= 0x10FFFF
    ensures var (a, b, c, d) := Utf8.Encode4(v); AreFour(v as int, a as int, b as int, c as int, d as int)
  {
    hide Utf8.Encode4, Right, Low;
    Encode4Parts(v);
    Divided(v);
    Divided(Right(v));
    Divided(Right(Right(v)));
    Narrow(Right(Right(Right(v))));
    LeadF0(Right(Right(Right(v))));
    Marked(Low(Right(Right(v))));
    Marked(Low(Right(v)));
    Marked(Low(v));
  }

  lemma WrittenOne(v: bv32, n: nat)
    requires 0 < v < 0x80 && Utf8.IsScalar(v) && n == v as int
    ensures 0 < n < 0x20_0000 && AreBytes(Utf8Chars(n), Utf8.Encode(v))
  {
    hide *;
    SameRange(v);
    Utf8Cases(n);
    EncodeCases(v);
    Narrow(v);
    One(Utf8Chars(n), Utf8.Encode(v));
  }

  lemma WrittenTwo(v: bv32, n: nat)
    requires 0x80 <= v < 0x800 && Utf8.IsScalar(v) && n == v as int
    ensures 0 < n < 0x20_0000 && AreBytes(Utf8Chars(n), Utf8.Encode(v))
  {
    hide *;
    SameRange(v);
    Utf8Cases(n);
    EncodeCases(v);
    Two(v);
    Pairs(Utf8Chars(n), Utf8.Encode(v));
  }

  lemma WrittenThree(v: bv32, n: nat)
    requires 0x800 <= v < 0x10000 && Utf8.IsScalar(v) && n == v as int
    ensures 0 < n < 0x20_0000 && AreBytes(Utf8Chars(n), Utf8.Encode(v))
  {
    hide *;
    SameRange(v);
    ThreeChars(n);
    Three(v);
    EncodeCases(v);
    SameThree(n, Utf8Chars(n), Utf8.Encode(v));
  }

  lemma ThreeChars(n: nat)
    requires 0x800 <= n < 0x10000
    ensures var s := Utf8Chars(n); |s| == 3 && AreThree(n, s[0] as int, s[1] as int, s[2] as int)
  {
    hide Utf8Chars;
    Utf8Cases(n);
  }

  lemma FourChars(n: nat)
    requires 0x10000 <= n <= 0x10FFFF
    ensures var s := Utf8Chars(n); |s| == 4 && AreFour(n, s[0] as int, s[1] as int, s[2] as int, s[3] as int)
  {
    hide Utf8Chars;
    Utf8Cases(n);
  }

  lemma WrittenFour(v: bv32, n: nat)
    requires 0x10000 <= v <= 0x10FFFF && Utf8.IsScalar(v) && n == v as int
    ensures 0 < n < 0x20_0000 && AreBytes(Utf8Chars(n), Utf8.Encode(v))
  {
    hide *;
    SameRange(v);
    FourChars(n);
    Four(v);
    EncodeCases(v);
    SameFour(n, Utf8Chars(n), Utf8.Encode(v));
  }

  lemma SameThree(n: nat, s: string, b: bytes)
    requires |s| == |b| == 3 && AreThree(n, s[0] as int, s[1] as int, s[2] as int)
    requires AreThree(n, b[0] as int, b[1] as int, b[2] as int)
    ensures AreBytes(s, b)
  {
  }

  lemma SameFour(n: nat, s: string, b: bytes)
    requires |s| == |b| == 4 && AreFour(n, s[0] as int, s[1] as int, s[2] as int, s[3] as int)
    requires AreFour(n, b[0] as int, b[1] as int, b[2] as int, b[3] as int)
    ensures AreBytes(s, b)
  {
  }

  /** What the parser writes for a scalar value other than NUL is the UTF-8 of that value. */
  lemma WrittenIsUtf8(v: bv32, n: nat)
    requires Utf8.IsScalar(v) && n == v as int && n > 0
    ensures n < 0x20_0000 && AreBytes(Utf8Chars(n), Utf8.Encode(v))
  {
    ScalarBound(v);
    hide *;
    SameRange(v);
    if n < 0x80 {
      NotZero(v);
      WrittenOne(v, n);
    } else if n < 0x800 {
      WrittenTwo(v, n);
    } else if n < 0x10000 {
      WrittenThree(v, n);
    } else {
      WrittenFour(v, n);
    }
  }

  lemma NotZero(v: bv32)
    requires v as int > 0
    ensures v > 0
  {
  }

  lemma ScalarBound(v: bv32)
    requires Utf8.IsScalar(v)
    ensures v <= 0x10FFFF
  {
  }

  lemma One(s: string, b: bytes)
    requires |s| == |b| == 1 && s[0] as int == b[0] as int
    ensures AreBytes(s, b)
  {
  }

  lemma Pairs(s: string, b: bytes)
    requires |s| == |b| == 2 && s[0] as int == b[0] as int && s[1] as int == b[1] as int
    ensures AreBytes(s, b)
  {
  }

  lemma ScalarRange(v: bv32)
    ensures v < 0xD800 <==> v as int < 0xD800
    ensures v <= 0xDFFF <==> v as int <= 0xDFFF
  {
  }

  lemma ScalarIff(v: bv32)
    ensures Utf8.IsScalar(v) <==> v as int <= 0x10FFFF && !(0xD800 <= v as int <= 0xDFFF)
  {
    SameRange(v);
    ScalarRange(v);
  }

  predicate IsWordOf(v: bv32, n: nat) { v as int == n }

  /** The C string is the UTF-8 of the code point uc. */
  ghost predicate StandsFor(s: string, uc: nat) {
    exists v: bv32 :: IsWordOf(v, uc) && Utf8.IsScalar(v) && AreBytes(s, Utf8.Encode(v))
  }

  lemma StandsForIff(s: string, uc: nat)
    requires 0 < uc <= 0x10FFFF && !(0xD800 <= uc <= 0xDFFF)
    ensures StandsFor(s, uc) <==> s == Utf8Chars(uc)
  {
    hide Utf8Chars, Utf8.IsScalar, Utf8.Encode, AreBytes;
    var v := WordOf(uc);
    ScalarIff(v);
    WrittenIsUtf8(v, uc);
    assert IsWordOf(v, uc);
    if StandsFor(s, uc) {
      var w: bv32 :| IsWordOf(w, uc) && Utf8.IsScalar(w) && AreBytes(s, Utf8.Encode(w));
      WrittenIsUtf8(w, uc);
      SameBytes(s, Utf8Chars(uc), Utf8.Encode(w));
    }
  }

  lemma SameBytes(r: string, s: string, b: bytes)
    requires AreBytes(r, b) && AreBytes(s, b)
    ensures r == s
  {
    forall i | 0 <= i < |r| ensures r[i] == s[i] {
      assert r[i] as int == b[i] as int == s[i] as int;
    }
  }
}
