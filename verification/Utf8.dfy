/**
 The table-driven UTF-8 validator (websocketpp/utf8_validator.hpp), proved against the
 UTF8-octets grammar of section 4 of RFC 3629 and the bit layout of its section 3.
 */
module Utf8 {
  import opened Bytes

  const ACCEPT: nat := 0
  const REJECT: nat := 1

  // ----- the automaton ------------------------------------------------------------

  /** The first 256 table entries: the class of a byte. */
  function ByteClass(b: byte): (t: nat)
    ensures t < 12
  {
    if b < 0x80 then 0
    else if b < 0x90 then 1
    else if b < 0xA0 then 9
    else if b < 0xC0 then 7
    else if b < 0xC2 then 8
    else if b < 0xE0 then 2
    else if b == 0xE0 then 10
    else if b == 0xED then 4
    else if b < 0xF0 then 3
    else if b == 0xF0 then 11
    else if b < 0xF4 then 6
    else if b == 0xF4 then 5
    else 8
  }

  /** The remaining entries, sixteen to a state. */
  function Row(state: nat): (r: seq<nat>)
    requires ValidState(state)
    ensures |r| == 16
  {
    match state
    case 0 => [0, 1, 2, 3, 5, 8, 7, 1, 1, 1, 4, 6, 1, 1, 1, 1]
    case 1 => [1, 1, 1, 1, 1, 1, 1, 1, 1, 1, 1, 1, 1, 1, 1, 1]
    case 2 => [1, 0, 1, 1, 1, 1, 1, 0, 1, 0, 1, 1, 1, 1, 1, 1]
    case 3 => [1, 2, 1, 1, 1, 1, 1, 2, 1, 2, 1, 1, 1, 1, 1, 1]
    case 4 => [1, 1, 1, 1, 1, 1, 1, 2, 1, 1, 1, 1, 1, 1, 1, 1]
    case 5 => [1, 2, 1, 1, 1, 1, 1, 1, 1, 2, 1, 1, 1, 1, 1, 1]
    case 6 => [1, 1, 1, 1, 1, 1, 1, 3, 1, 3, 1, 1, 1, 1, 1, 1]
    case 7 => [1, 3, 1, 1, 1, 1, 1, 3, 1, 3, 1, 1, 1, 1, 1, 1]
    case 8 => [1, 3, 1, 1, 1, 1, 1, 1, 1, 1, 1, 1, 1, 1, 1, 1]
  }

  datatype Decoder = Decoder(state: nat, codep: bv32)

  predicate ValidState(s: nat) { s < 9 }

  function NextState(state: nat, b: byte): (r: nat)
    requires ValidState(state)
  {
    Row(state)[ByteClass(b)]
  }

  function NextCodep(d: Decoder, b: byte): bv32 {
    if d.state != ACCEPT then ((b & 0x3F) as bv32) | (d.codep << 6)
    else ((0xFF as bv32) >> ByteClass(b)) & (b as bv32)
  }

  /** The row lookup in closed form: what each state accepts next. */
  lemma NextStateCases(state: nat, b: byte)
    requires ValidState(state)
    ensures NextState(state, b) ==
      if state == 0 then
        if b < 0x80 then 0 else if b < 0xC2 then 1 else if b < 0xE0 then 2
        else if b == 0xE0 then 4 else if b == 0xED then 5 else if b < 0xF0 then 3
        else if b == 0xF0 then 6 else if b < 0xF4 then 7 else if b == 0xF4 then 8 else 1
      else if state == 1 || !Tail(b) then 1
      else if state == 2 then 0
      else if state == 3 then 2
      else if state == 4 then if b >= 0xA0 then 2 else 1
      else if state == 5 then if b < 0xA0 then 2 else 1
      else if state == 6 then if b >= 0x90 then 3 else 1
      else if state == 7 then 3
      else if b < 0x90 then 3 else 1
  {
  }

  lemma LeadBits(cp: bv32, b: byte)
    requires b < 0x80 || 0xC2 <= b <= 0xF4
    ensures NextCodep(Decoder(ACCEPT, cp), b) ==
      if b < 0x80 then b as bv32
      else if b < 0xE0 then (b & 0x1F) as bv32
      else if b < 0xF0 then (b & 0x0F) as bv32
      else (b & 0x07) as bv32
  {
  }

  /** decode: one byte advances the state and the code point. */
  function Step(d: Decoder, b: byte): (r: Decoder)
    requires ValidState(d.state)
    ensures ValidState(r.state)
  {
    NextStateCases(d.state, b);
    Decoder(NextState(d.state, b), NextCodep(d, b))
  }

  function Run(d: Decoder, s: bytes): (r: Decoder)
    requires ValidState(d.state)
    ensures ValidState(r.state)
    decreases |s|
  {
    if s == [] then d else Run(Step(d, s[0]), s[1..])
  }

  lemma {:induction false} RunAppend(d: Decoder, a: bytes, b: bytes)
    requires ValidState(d.state)
    ensures Run(d, a + b) == Run(Run(d, a), b)
    decreases |a|
  {
    if a == [] {
      assert a + b == b;
    } else {
      assert (a + b)[0] == a[0] && (a + b)[1..] == a[1..] + b;
      RunAppend(Step(d, a[0]), a[1..], b);
    }
  }

  lemma {:induction false} RejectAbsorbs(d: Decoder, s: bytes)
    requires d.state == REJECT
    ensures Run(d, s).state == REJECT
    decreases |s|
  {
    if s != [] {
      RejectAbsorbs(Step(d, s[0]), s[1..]);
    }
  }

  // ----- the grammar --------------------------------------------------------------

  predicate Tail(b: byte) { 0x80 <= b <= 0xBF }

  /** UTF8-1 / UTF8-2 / UTF8-3 / UTF8-4 of section 4 of RFC 3629. */
  predicate IsChar(c: bytes) {
    || (|c| == 1 && c[0] <= 0x7F)
    || (|c| == 2 && 0xC2 <= c[0] <= 0xDF && Tail(c[1]))
    || (|c| == 3 && c[0] == 0xE0 && 0xA0 <= c[1] <= 0xBF && Tail(c[2]))
    || (|c| == 3 && 0xE1 <= c[0] <= 0xEC && Tail(c[1]) && Tail(c[2]))
    || (|c| == 3 && c[0] == 0xED && 0x80 <= c[1] <= 0x9F && Tail(c[2]))
    || (|c| == 3 && 0xEE <= c[0] <= 0xEF && Tail(c[1]) && Tail(c[2]))
    || (|c| == 4 && c[0] == 0xF0 && 0x90 <= c[1] <= 0xBF && Tail(c[2]) && Tail(c[3]))
    || (|c| == 4 && 0xF1 <= c[0] <= 0xF3 && Tail(c[1]) && Tail(c[2]) && Tail(c[3]))
    || (|c| == 4 && c[0] == 0xF4 && 0x80 <= c[1] <= 0x8F && Tail(c[2]) && Tail(c[3]))
  }

  /** UTF8-octets: any number of characters one after the other. */
  ghost predicate IsUtf8(s: bytes)
    decreases |s|
  {
    s == [] || exists k :: 1 <= k <= |s| && IsChar(s[..k]) && IsUtf8(s[k..])
  }

  predicate IsScalar(v: bv32) { v <= 0x10FFFF && !(0xD800 <= v <= 0xDFFF) }

  /** The bit layout of section 3 of RFC 3629. */
  function Encode(v: bv32): (c: bytes)
    requires IsScalar(v)
  {
    if v <= 0x7F then [v as byte]
    else if v <= 0x7FF then var (a, b) := Encode2(v); [a, b]
    else if v <= 0xFFFF then var (a, b, c) := Encode3(v); [a, b, c]
    else var (a, b, c, d) := Encode4(v); [a, b, c, d]
  }

  /** Reading a character byte by byte, without the recursion. */
  lemma RunUnfold(d: Decoder, c: bytes)
    requires ValidState(d.state) && 1 <= |c|
    ensures |c| == 1 ==> Run(d, c) == Step(d, c[0])
    ensures |c| == 2 ==> Run(d, c) == Step(Step(d, c[0]), c[1])
    ensures |c| == 3 ==> Run(d, c) == Step(Step(Step(d, c[0]), c[1]), c[2])
    ensures |c| == 4 ==> Run(d, c) == Step(Step(Step(Step(d, c[0]), c[1]), c[2]), c[3])
    decreases |c|
  {
    if 2 <= |c| <= 4 {
      RunUnfold(Step(d, c[0]), c[1..]);
    }
  }

  // ----- one character: the automaton, the grammar and the bit layout agree -------

  function Low6(b: byte): bv32 { (b & 0x3F) as bv32 }

  function Assemble2(a: byte, b: byte): bv32 { Low6(b) | (((a & 0x1F) as bv32) << 6) }

  function Assemble3(a: byte, b: byte, c: byte): bv32 {
    Low6(c) | ((Low6(b) | (((a & 0x0F) as bv32) << 6)) << 6)
  }

  function Assemble4(a: byte, b: byte, c: byte, d: byte): bv32 {
    Low6(d) | ((Low6(c) | ((Low6(b) | (((a & 0x07) as bv32) << 6)) << 6)) << 6)
  }

  /** The code point spelt by the payload bits of a character. */
  function Assemble(c: bytes): bv32
    requires IsChar(c)
  {
    if |c| == 1 then c[0] as bv32
    else if |c| == 2 then Assemble2(c[0], c[1])
    else if |c| == 3 then Assemble3(c[0], c[1], c[2])
    else Assemble4(c[0], c[1], c[2], c[3])
  }

  function Encode2(v: bv32): (byte, byte)
    requires v <= 0x7FF
  {
    (0xC0 | ((v >> 6) as byte), 0x80 | ((v & 0x3F) as byte))
  }

  function Encode3(v: bv32): (byte, byte, byte)
    requires v <= 0xFFFF
  {
    (0xE0 | ((v >> 12) as byte), 0x80 | (((v >> 6) & 0x3F) as byte), 0x80 | ((v & 0x3F) as byte))
  }

  function Encode4(v: bv32): (byte, byte, byte, byte)
    requires v <= 0x10FFFF
  {
    (0xF0 | ((v >> 18) as byte), 0x80 | (((v >> 12) & 0x3F) as byte),
     0x80 | (((v >> 6) & 0x3F) as byte), 0x80 | ((v & 0x3F) as byte))
  }

  lemma Layout1(v: bv32)
    requires v <= 0x7F
    ensures (v as byte) as bv32 == v && v as byte <= 0x7F
  {
  }

  lemma Layout2(v: bv32)
    requires 0x80 <= v <= 0x7FF
    ensures var (a, b) := Encode2(v); Assemble2(a, b) == v && 0xC2 <= a <= 0xDF && Tail(b)
  {
  }

  lemma Layout3(v: bv32)
    requires 0x800 <= v <= 0xFFFF && IsScalar(v)
    ensures var (a, b, c) := Encode3(v);
            Assemble3(a, b, c) == v && 0xE0 <= a <= 0xEF && Tail(b) && Tail(c) &&
            (a == 0xE0 ==> 0xA0 <= b) && (a == 0xED ==> b <= 0x9F)
  {
  }

  lemma Layout4(v: bv32)
    requires 0x10000 <= v <= 0x10FFFF
    ensures var (a, b, c, d) := Encode4(v);
            Assemble4(a, b, c, d) == v && 0xF0 <= a <= 0xF4 && Tail(b) && Tail(c) && Tail(d) &&
            (a == 0xF0 ==> 0x90 <= b) && (a == 0xF4 ==> b <= 0x8F)
  {
  }

  lemma Unlayout2(a: byte, b: byte)
    requires 0xC2 <= a <= 0xDF && Tail(b)
    ensures 0x80 <= Assemble2(a, b) <= 0x7FF && Encode2(Assemble2(a, b)) == (a, b)
  {
  }

  lemma Unlayout3(a: byte, b: byte, c: byte)
    requires 0xE0 <= a <= 0xEF && Tail(b) && Tail(c)
    requires (a == 0xE0 ==> 0xA0 <= b) && (a == 0xED ==> b <= 0x9F)
    ensures 0x800 <= Assemble3(a, b, c) <= 0xFFFF && IsScalar(Assemble3(a, b, c))
    ensures Encode3(Assemble3(a, b, c)) == (a, b, c)
  {
  }

  lemma Fields4(a: byte, b: byte, c: byte, d: byte)
    requires 0xF0 <= a <= 0xF4
    ensures Assemble4(a, b, c, d) >> 18 == (a & 0x07) as bv32
    ensures (Assemble4(a, b, c, d) >> 12) & 0x3F == Low6(b)
    ensures (Assemble4(a, b, c, d) >> 6) & 0x3F == Low6(c)
    ensures Assemble4(a, b, c, d) & 0x3F == Low6(d)
  {
  }

  lemma Range4(a: byte, b: byte, c: byte, d: byte)
    requires 0xF0 <= a <= 0xF4 && Tail(b)
    requires (a == 0xF0 ==> 0x90 <= b) && (a == 0xF4 ==> b <= 0x8F)
    ensures 0x10000 <= Assemble4(a, b, c, d) <= 0x10FFFF
  {
  }

  lemma Marks(a: byte, b: byte)
    requires 0xF0 <= a <= 0xF4 && Tail(b)
    ensures 0xF0 | (((a & 0x07) as bv32) as byte) == a && 0x80 | (Low6(b) as byte) == b
  {
  }

  lemma Unlayout4(a: byte, b: byte, c: byte, d: byte)
    requires 0xF0 <= a <= 0xF4 && Tail(b) && Tail(c) && Tail(d)
    requires (a == 0xF0 ==> 0x90 <= b) && (a == 0xF4 ==> b <= 0x8F)
    ensures 0x10000 <= Assemble4(a, b, c, d) <= 0x10FFFF
    ensures Encode4(Assemble4(a, b, c, d)) == (a, b, c, d)
  {
    hide Assemble4, Low6, Tail;
    Fields4(a, b, c, d);
    Range4(a, b, c, d);
    Marks(a, b);
    Marks(a, c);
    Marks(a, d);
  }

  lemma AssembleInvertsEncode(v: bv32)
    requires IsScalar(v)
    ensures IsChar(Encode(v)) && Assemble(Encode(v)) == v
  {
    if v <= 0x7F {
      Layout1(v);
      assert Encode(v) == [v as byte];
    } else if v <= 0x7FF {
      Layout2(v);
      var (a, b) := Encode2(v);
      assert Encode(v) == [a, b];
    } else if v <= 0xFFFF {
      Layout3(v);
      var (a, b, c) := Encode3(v);
      assert Encode(v) == [a, b, c];
    } else {
      Layout4(v);
      var (a, b, c, d) := Encode4(v);
      assert Encode(v) == [a, b, c, d];
    }
  }

  lemma EncodeInvertsAssemble(c: bytes)
    requires IsChar(c)
    ensures IsScalar(Assemble(c)) && Encode(Assemble(c)) == c
  {
    if |c| == 1 {
    } else if |c| == 2 {
      Unlayout2(c[0], c[1]);
    } else if |c| == 3 {
      Unlayout3(c[0], c[1], c[2]);
    } else {
      Unlayout4(c[0], c[1], c[2], c[3]);
    }
  }

  lemma CharState(cp: bv32, c: bytes)
    requires IsChar(c)
    ensures Run(Decoder(ACCEPT, cp), c).state == ACCEPT
  {
    var d := Decoder(ACCEPT, cp);
    RunUnfold(d, c);
    NextStateCases(ACCEPT, c[0]);
    if |c| >= 2 {
      var d1 := Step(d, c[0]);
      NextStateCases(d1.state, c[1]);
      if |c| >= 3 {
        var d2 := Step(d1, c[1]);
        NextStateCases(d2.state, c[2]);
        if |c| >= 4 {
          NextStateCases(Step(d2, c[2]).state, c[3]);
        }
      }
    }
  }

  lemma ContinuationBits(d: Decoder, b: byte)
    requires ValidState(d.state) && d.state != ACCEPT
    ensures Step(d, b).codep == Low6(b) | (d.codep << 6)
  {
  }

  /** Inside a character the automaton is in no accepting state. */
  lemma InsideChar(d: Decoder, c: bytes)
    requires IsChar(c) && d.state == ACCEPT
    ensures |c| >= 2 ==> Step(d, c[0]).state != ACCEPT
    ensures |c| >= 3 ==> Step(Step(d, c[0]), c[1]).state != ACCEPT
    ensures |c| >= 4 ==> Step(Step(Step(d, c[0]), c[1]), c[2]).state != ACCEPT
  {
    NextStateCases(ACCEPT, c[0]);
    if |c| >= 3 {
      var d1 := Step(d, c[0]);
      NextStateCases(d1.state, c[1]);
      if |c| >= 4 {
        NextStateCases(Step(d1, c[1]).state, c[2]);
      }
    }
  }

  /** The payload bits of the first byte of a character. */
  function Lead(c: bytes): bv32
    requires c != []
  {
    if |c| == 1 then c[0] as bv32
    else if |c| == 2 then (c[0] & 0x1F) as bv32
    else if |c| == 3 then (c[0] & 0x0F) as bv32
    else (c[0] & 0x07) as bv32
  }

  function More(v: bv32, b: byte): bv32 { Low6(b) | (v << 6) }

  lemma AssembleIs(c: bytes)
    requires IsChar(c)
    ensures |c| == 1 ==> Assemble(c) == Lead(c)
    ensures |c| == 2 ==> Assemble(c) == More(Lead(c), c[1])
    ensures |c| == 3 ==> Assemble(c) == More(More(Lead(c), c[1]), c[2])
    ensures |c| == 4 ==> Assemble(c) == More(More(More(Lead(c), c[1]), c[2]), c[3])
  {
    hide Low6;
  }

  lemma LeadStep(d: Decoder, c: bytes)
    requires IsChar(c) && d.state == ACCEPT
    ensures Step(d, c[0]).codep == Lead(c)
  {
    hide NextState, NextCodep, Row, ByteClass;
    LeadBits(d.codep, c[0]);
  }

  lemma MoreStep(d: Decoder, b: byte)
    requires ValidState(d.state) && d.state != ACCEPT
    ensures Step(d, b).codep == More(d.codep, b)
  {
    ContinuationBits(d, b);
  }

  lemma CharLength(c: bytes)
    requires IsChar(c)
    ensures 1 <= |c| <= 4
  {
  }

  lemma CharCodep(cp: bv32, c: bytes)
    requires IsChar(c)
    ensures Run(Decoder(ACCEPT, cp), c).codep == Assemble(c)
  {
    var d := Decoder(ACCEPT, cp);
    CharLength(c);
    hide Run, Step, Assemble, Lead, More, IsChar;
    AssembleIs(c);
    RunUnfold(d, c);
    LeadStep(d, c);
    InsideChar(d, c);
    if |c| >= 2 {
      MoreStep(Step(d, c[0]), c[1]);
    }
    if |c| >= 3 {
      MoreStep(Step(Step(d, c[0]), c[1]), c[2]);
    }
    if |c| == 4 {
      MoreStep(Step(Step(Step(d, c[0]), c[1]), c[2]), c[3]);
    }
  }

  /** From the accepting state a character leads back to it, with its own code point. */
  lemma CharAccepted(cp: bv32, c: bytes)
    requires IsChar(c)
    ensures var r := Run(Decoder(ACCEPT, cp), c);
            r.state == ACCEPT && IsScalar(r.codep) && Encode(r.codep) == c
  {
    CharState(cp, c);
    CharCodep(cp, c);
    EncodeInvertsAssemble(c);
  }

  lemma EncodeAccepted(cp: bv32, v: bv32)
    requires IsScalar(v)
    ensures IsChar(Encode(v)) && Run(Decoder(ACCEPT, cp), Encode(v)) == Decoder(ACCEPT, v)
  {
    AssembleInvertsEncode(v);
    CharState(cp, Encode(v));
    CharCodep(cp, Encode(v));
  }

  // ----- whole strings -------------------------------------------------------------

  /** What has been read of the current character in each state. */
  predicate CharPrefix(state: nat, c: bytes) {
    if c == [] then state == ACCEPT
    else if state == ACCEPT then IsChar(c)
    else if state == 2 then Open2(c) || Open3(c) || Open4(c)
    else if state == 3 then (|c| == 1 && (0xE1 <= c[0] <= 0xEC || 0xEE <= c[0] <= 0xEF)) || Mid4(c)
    else if state == 4 then c == [0xE0]
    else if state == 5 then c == [0xED]
    else if state == 6 then c == [0xF0]
    else if state == 7 then |c| == 1 && 0xF1 <= c[0] <= 0xF3
    else state == 8 && c == [0xF4]
  }

  predicate Open2(c: bytes) { |c| == 1 && 0xC2 <= c[0] <= 0xDF }

  predicate Open3(c: bytes) { |c| == 2 && IsChar(c + [0x80]) }

  predicate Mid4(c: bytes) { |c| == 2 && IsChar(c + [0x80, 0x80]) }

  predicate Open4(c: bytes) { |c| == 3 && IsChar(c + [0x80]) }

  lemma CharPrefixStep(state: nat, c: bytes, b: byte)
    requires ValidState(state) && CharPrefix(state, c) && (c == [] || state != ACCEPT)
    ensures var r := NextState(state, b); r == REJECT || CharPrefix(r, c + [b])
  {
    NextStateCases(state, b);
  }

  lemma RunCons(d: Decoder, s: bytes)
    requires ValidState(d.state)
    ensures s == [] ==> Run(d, s) == d
    ensures s != [] ==> Run(d, s) == Run(Step(d, s[0]), s[1..]) && Step(d, s[0]).state == NextState(d.state, s[0])
  {
    hide NextState, NextCodep;
  }

  lemma PrefixShape(state: nat, c: bytes)
    ensures ACCEPT != REJECT && (state == ACCEPT && c != [] && CharPrefix(state, c) ==> IsChar(c))
    ensures ValidState(state) <==> state < 9
  {
  }

  /** Input that takes a started character (or none) to acceptance begins with its rest. */
  lemma {:induction false} CharCompletes(d: Decoder, c: bytes, s: bytes) returns (k: nat)
    requires ValidState(d.state) && CharPrefix(d.state, c)
    requires if c == [] then s != [] else d.state != ACCEPT
    requires Run(d, s).state == ACCEPT
    ensures 1 <= k <= |s| && IsChar(c + s[..k])
    decreases |s|
  {
    hide *;
    RunCons(d, s);
    PrefixShape(d.state, c);
    CharPrefixStep(d.state, c, s[0]);
    var next := Step(d, s[0]);
    PrefixShape(next.state, c + [s[0]]);
    if next.state == REJECT {
      RejectAbsorbs(next, s[1..]);
    } else if next.state == ACCEPT {
      k := 1;
      assert s[..1] == [s[0]];
    } else {
      var rest := CharCompletes(next, c + [s[0]], s[1..]);
      k := rest + 1;
      assert c + s[..k] == c + [s[0]] + s[1..][..rest];
    }
  }

  lemma {:induction false} AcceptedIsUtf8(cp: bv32, s: bytes)
    requires Run(Decoder(ACCEPT, cp), s).state == ACCEPT
    ensures IsUtf8(s)
    decreases |s|
  {
    if s != [] {
      var k := CharCompletes(Decoder(ACCEPT, cp), [], s);
      assert [] + s[..k] == s[..k];
      assert s == s[..k] + s[k..];
      RunAppend(Decoder(ACCEPT, cp), s[..k], s[k..]);
      CharState(cp, s[..k]);
      AcceptedIsUtf8(Run(Decoder(ACCEPT, cp), s[..k]).codep, s[k..]);
    }
  }

  lemma {:induction false} Utf8IsAccepted(cp: bv32, s: bytes)
    requires IsUtf8(s)
    ensures Run(Decoder(ACCEPT, cp), s).state == ACCEPT
    decreases |s|
  {
    if s != [] {
      var k :| 1 <= k <= |s| && IsChar(s[..k]) && IsUtf8(s[k..]);
      assert s == s[..k] + s[k..];
      RunAppend(Decoder(ACCEPT, cp), s[..k], s[k..]);
      CharState(cp, s[..k]);
      Utf8IsAccepted(Run(Decoder(ACCEPT, cp), s[..k]).codep, s[k..]);
    }
  }

  /** No accepted string holds the byte 0xFF, whatever state it is read from. */
  lemma {:induction false} AcceptedHasNoFF(d: Decoder, s: bytes)
    requires ValidState(d.state) && Run(d, s).state == ACCEPT
    ensures 0xFF !in s
    decreases |s|
  {
    if s != [] {
      NextStateCases(d.state, s[0]);
      if s[0] == 0xFF {
        RejectAbsorbs(Step(d, s[0]), s[1..]);
      }
      AcceptedHasNoFF(Step(d, s[0]), s[1..]);
    }
  }

  /** Section 3: the octets C0, C1 and F5 to FF never appear. */
  lemma {:induction false} NeverAppear(d: Decoder, s: bytes, i: nat)
    requires ValidState(d.state) && Run(d, s).state == ACCEPT && i < |s|
    ensures s[i] != 0xC0 && s[i] != 0xC1 && s[i] < 0xF5
    decreases |s|
  {
    NextStateCases(d.state, s[0]);
    if i > 0 {
      NeverAppear(Step(d, s[0]), s[1..], i - 1);
    } else if Step(d, s[0]).state == REJECT {
      RejectAbsorbs(Step(d, s[0]), s[1..]);
    }
  }

  /** The characters of section 7. */
  lemma Section7()
    ensures Encode(0x2262) == [0xE2, 0x89, 0xA2] && Encode(0x0391) == [0xCE, 0x91]
    ensures Encode(0xD55C) == [0xED, 0x95, 0x9C] && Encode(0x65E5) == [0xE6, 0x97, 0xA5]
    ensures Encode(0xFEFF) == [0xEF, 0xBB, 0xBF] && Encode(0x233B4) == [0xF0, 0xA3, 0x8E, 0xB4]
  {
  }

  /** The sequences of section 10 that a decoder must not take: an overlong one, inside a path too, and a pair of surrogates. */
  lemma Section10()
    ensures !IsUtf8([0xC0, 0x80]) && !IsUtf8([0x2F, 0xC0, 0xAE, 0x2E, 0x2F])
    ensures !IsUtf8([0xED, 0xA1, 0x8C, 0xED, 0xBE, 0xB4])
  {
    NoOverlong([0xC0, 0x80], 0);
    NoOverlong([0x2F, 0xC0, 0xAE, 0x2E, 0x2F], 1);
    var t: bytes := [0xED, 0xA1, 0x8C, 0xED, 0xBE, 0xB4];
    if IsUtf8(t) {
      Utf8IsAccepted(0, t);
      NextStateCases(0, 0xED);
      NextStateCases(5, 0xA1);
      var d := Step(Step(Decoder(ACCEPT, 0), 0xED), 0xA1);
      assert t[1..][1..] == t[2..];
      RejectAbsorbs(d, t[2..]);
    }
  }

  lemma NoOverlong(s: bytes, i: nat)
    requires i < |s| && s[i] == 0xC0
    ensures !IsUtf8(s)
  {
    if IsUtf8(s) {
      Utf8IsAccepted(0, s);
      NeverAppear(Decoder(ACCEPT, 0), s, i);
    }
  }

  ghost predicate AllScalar(vs: seq<bv32>) { forall i :: 0 <= i < |vs| ==> IsScalar(vs[i]) }

  function EncodeAll(vs: seq<bv32>): (s: bytes)
    requires forall i :: 0 <= i < |vs| ==> IsScalar(vs[i])
  {
    if vs == [] then [] else Encode(vs[0]) + EncodeAll(vs[1..])
  }

  /** After the encoding of a run of scalar values the code point read is the last of them. */
  lemma {:induction false} RunEncodeAll(cp: bv32, vs: seq<bv32>)
    requires AllScalar(vs)
    ensures Run(Decoder(ACCEPT, cp), EncodeAll(vs)) ==
            Decoder(ACCEPT, if vs == [] then cp else vs[|vs| - 1])
    decreases |vs|
  {
    if vs != [] {
      EncodeAccepted(cp, vs[0]);
      RunAppend(Decoder(ACCEPT, cp), Encode(vs[0]), EncodeAll(vs[1..]));
      RunEncodeAll(vs[0], vs[1..]);
    }
  }

  lemma EncodeAllCons(v: bv32, vs: seq<bv32>)
    requires IsScalar(v) && AllScalar(vs)
    ensures AllScalar([v] + vs) && EncodeAll([v] + vs) == Encode(v) + EncodeAll(vs)
  {
    hide IsScalar, Encode;
    assert ([v] + vs)[1..] == vs;
  }

  lemma EncodeNone()
    ensures AllScalar([]) && EncodeAll([]) == []
  {
  }

  lemma FirstChar(s: bytes) returns (k: nat)
    requires IsUtf8(s) && s != []
    ensures 1 <= k <= |s| && IsChar(s[..k]) && IsUtf8(s[k..])
  {
    hide IsChar;
    k :| 1 <= k <= |s| && IsChar(s[..k]) && IsUtf8(s[k..]);
  }

  /** Every string of the grammar is the encoding of scalar values. */
  lemma {:induction false} Utf8IsEncoding(s: bytes) returns (vs: seq<bv32>)
    requires IsUtf8(s)
    ensures AllScalar(vs) && EncodeAll(vs) == s
    decreases |s|
  {
    hide *;
    EncodeNone();
    vs := [];
    if s != [] {
      var k := FirstChar(s);
      EncodeInvertsAssemble(s[..k]);
      var rest := Utf8IsEncoding(s[k..]);
      vs := [Assemble(s[..k])] + rest;
      EncodeAllCons(Assemble(s[..k]), rest);
      assert s == s[..k] + s[k..];
    }
  }

  // ----- the validator object -------------------------------------------------------

  class Validator {
    var state: nat
    var codepoint: bv32

    ghost predicate Valid()
      reads this
    {
      ValidState(state)
    }

    ghost function Decoded(): Decoder
      reads this
    {
      Decoder(state, codepoint)
    }

    constructor ()
      ensures Valid() && Decoded() == Decoder(ACCEPT, 0)
    {
      state, codepoint := ACCEPT, 0;
    }

    method Consume(b: byte) returns (ok: bool)
      requires Valid()
      modifies this
      ensures Valid() && Decoded() == Step(old(Decoded()), b)
      ensures ok <==> state != REJECT
    {
      var d := Step(Decoder(state, codepoint), b);
      state, codepoint := d.state, d.codep;
      ok := state != REJECT;
    }

    /** Stops at the first rejected byte; the state is then the one the whole input leads to. */
    method Decode(s: bytes) returns (ok: bool)
      requires Valid()
      modifies this
      ensures Valid() && state == Run(old(Decoded()), s).state
      ensures ok <==> s == [] || state != REJECT
      ensures ok ==> Decoded() == Run(old(Decoded()), s)
    {
      var i := 0;
      while i < |s|
        invariant i <= |s| && Valid()
        invariant Run(old(Decoded()), s) == Run(Decoded(), s[i..])
        invariant i > 0 ==> state != REJECT
      {
        var d := Step(Decoder(state, codepoint), s[i]);
        assert s[i..][1..] == s[i + 1..];
        state, codepoint := d.state, d.codep;
        if state == REJECT {
          RejectAbsorbs(d, s[i + 1..]);
          return false;
        }
        i := i + 1;
      }
      return true;
    }

    method Complete() returns (r: bool)
      ensures r <==> state == ACCEPT
    {
      r := state == ACCEPT;
    }

    method Reset()
      modifies this
      ensures Valid() && Decoded() == Decoder(ACCEPT, 0)
    {
      state, codepoint := ACCEPT, 0;
    }
  }

  method Validate(s: bytes) returns (ok: bool)
    ensures ok <==> IsUtf8(s)
  {
    var v := new Validator();
    var clean := v.Decode(s);
    if Run(Decoder(ACCEPT, 0), s).state == ACCEPT {
      AcceptedIsUtf8(0, s);
    }
    if IsUtf8(s) {
      Utf8IsAccepted(0, s);
    }
    if !clean {
      return false;
    }
    ok := v.Complete();
  }

  /** The decoder behind one more chunk; once it has rejected, its code point does not matter. */
  lemma ChunkRead(chunks: seq<bytes>, i: nat, d: Decoder)
    requires i < |chunks| && ValidState(d.state)
    requires var all := Run(Decoder(ACCEPT, 0), Flatten(chunks[..i])); d.state == all.state && (d.state == REJECT || d == all)
    ensures var all := Run(Decoder(ACCEPT, 0), Flatten(chunks[..i + 1]));
            Run(d, chunks[i]).state == all.state && (d.state == REJECT || Run(d, chunks[i]) == all)
  {
    hide Run, Flatten;
    var before := Flatten(chunks[..i]);
    assert chunks[..i + 1] == chunks[..i] + [chunks[i]];
    FlattenSnoc(chunks[..i], chunks[i]);
    RunAppend(Decoder(ACCEPT, 0), before, chunks[i]);
    if d.state == REJECT {
      RejectAbsorbs(d, chunks[i]);
      RejectAbsorbs(Run(Decoder(ACCEPT, 0), before), chunks[i]);
    }
  }

  /** Feeding the input in pieces gives the verdict of the whole. */
  method ValidateChunks(chunks: seq<bytes>) returns (ok: bool)
    ensures ok <==> IsUtf8(Flatten(chunks))
  {
    var v := new Validator();
    var i := 0;
    assert chunks[..0] == [];
    NothingRun();
    hide Run, Flatten, IsUtf8;
    while i < |chunks|
      invariant i <= |chunks| && v.Valid() && fresh(v)
      invariant v.state == Run(Decoder(ACCEPT, 0), Flatten(chunks[..i])).state
      invariant v.state != REJECT ==> v.Decoded() == Run(Decoder(ACCEPT, 0), Flatten(chunks[..i]))
    {
      ChunkRead(chunks, i, v.Decoded());
      if v.state == REJECT {
        RejectAbsorbs(v.Decoded(), chunks[i]);
      }
      var clean := v.Decode(chunks[i]);
      i := i + 1;
    }
    assert chunks[..i] == chunks;
    ok := v.Complete();
    if ok {
      AcceptedIsUtf8(0, Flatten(chunks));
    }
    if IsUtf8(Flatten(chunks)) {
      Utf8IsAccepted(0, Flatten(chunks));
    }
  }

  lemma NothingRun()
    ensures Run(Decoder(ACCEPT, 0), Flatten([])) == Decoder(ACCEPT, 0)
  {
  }
}
