/** base64 as websocketpp/base64/base64.hpp encodes and decodes it, and section 4 of RFC 4648. */
module Base64 {
  import opened Bytes

  type sextet = x: int | 0 <= x < 64

  // ----- the alphabet -----------------------------------------------------------------------

  /** base64_chars */
  function Letter(v: sextet): char {
    if v < 26 then (v + 65) as char
    else if v < 52 then (v + 71) as char
    else if v < 62 then (v - 4) as char
    else if v == 62 then '+'
    else '/'
  }

  predicate IsBase64(c: char) {
    c as int == 43 || 47 <= c as int <= 57 || 65 <= c as int <= 90 || 97 <= c as int <= 122
  }

  /** The place of a character in base64_chars; what npos leaves in a byte when it has none. */
  function Find(c: char): octet {
    if 'A' <= c <= 'Z' then c as int - 65
    else if 'a' <= c <= 'z' then c as int - 71
    else if '0' <= c <= '9' then c as int + 4
    else if c == '+' then 62
    else if c == '/' then 63
    else 255
  }

  lemma FindLetter(v: sextet)
    ensures Find(Letter(v)) == v && IsBase64(Letter(v)) && Letter(v) != '='
  {
  }

  lemma FindIff(c: char)
    ensures IsBase64(c) <==> Find(c) < 64
    ensures IsBase64(c) ==> Letter(Find(c)) == c
  {
  }

  // ----- section 4 of RFC 4648 ----------------------------------------------------------------

  /** The n-th six bits of a 24-bit group, from the left. */
  function Six(group: nat, n: nat): sextet
    requires group < 0x100_0000 && n < 4
  {
    group / (if n == 0 then 0x4_0000 else if n == 1 then 0x1000 else if n == 2 then 0x40 else 1) % 64
  }

  /** Three bytes as one 24-bit group. */
  function Group(a: octet, b: octet, c: octet): (g: nat)
    ensures g < 0x100_0000
  {
    0x1_0000 * a + 0x100 * b + c
  }

  function Four(g: nat): (s: string)
    requires g < 0x100_0000
    ensures |s| == 4
  {
    [Letter(Six(g, 0)), Letter(Six(g, 1)), Letter(Six(g, 2)), Letter(Six(g, 3))]
  }

  /** 24 bits at a time as four letters; at the end, zero bits to whole letters and then padding. */
  function Rfc4648(x: octets): string
    decreases |x|
  {
    if x == [] then ""
    else if |x| == 1 then Four(Group(x[0], 0, 0))[..2] + "=="
    else if |x| == 2 then Four(Group(x[0], x[1], 0))[..3] + "="
    else Four(Group(x[0], x[1], x[2])) + Rfc4648(x[3..])
  }

  lemma {:induction false} RfcLength(x: octets)
    ensures |Rfc4648(x)| == 4 * ((|x| + 2) / 3)
    decreases |x|
  {
    hide Four, Group;
    if |x| >= 3 {
      RfcLength(x[3..]);
    }
  }

  lemma {:induction false} RfcAppend(a: octets, b: octets)
    requires |a| % 3 == 0
    ensures Rfc4648(a + b) == Rfc4648(a) + Rfc4648(b)
    decreases |a|
  {
    hide Four, Group;
    if a == [] {
      assert a + b == b;
    } else {
      assert (a + b)[0] == a[0] && (a + b)[1] == a[1] && (a + b)[2] == a[2] && (a + b)[3..] == a[3..] + b;
      RfcAppend(a[3..], b);
    }
  }

  // ----- the tables and examples of RFC 4648 --------------------------------------------------

  /** Table 1, the letter of each value. */
  lemma Table1(v: sextet)
    ensures v < 26 ==> Letter(v) == "ABCDEFGHIJKLMNOPQRSTUVWXYZ"[v]
    ensures 26 <= v < 52 ==> Letter(v) == "abcdefghijklmnopqrstuvwxyz"[v - 26]
    ensures 52 <= v < 62 ==> Letter(v) == "0123456789"[v - 52]
    ensures Letter(62) == '+' && Letter(63) == '/'
  {
    Capital(v);
    Small(v);
    Digit(v);
  }

  lemma Capital(v: sextet)
    ensures v < 26 ==> Letter(v) == "ABCDEFGHIJKLMNOPQRSTUVWXYZ"[v]
  {
  }

  lemma Small(v: sextet)
    ensures 26 <= v < 52 ==> Letter(v) == "abcdefghijklmnopqrstuvwxyz"[v - 26]
  {
  }

  lemma Digit(v: sextet)
    ensures 52 <= v < 62 ==> Letter(v) == "0123456789"[v - 52]
  {
  }

  /** The number that six-bit pieces make, the first one highest. */
  function Bits(v: seq<sextet>): nat {
    if v == [] then 0 else 64 * Bits(v[..|v| - 1]) + v[|v| - 1]
  }

  lemma BitsAre(a: sextet, b: sextet, c: sextet, d: sextet)
    ensures Bits([a, b]) == 64 * a + b && Bits([a, b, c]) == 0x1000 * a + 64 * b + c
    ensures Bits([a, b, c, d]) == 0x4_0000 * a + 0x1000 * b + 64 * c + d
  {
    assert [a, b, c, d][..3] == [a, b, c] && [a, b, c][..2] == [a, b] && [a, b][..1] == [a] && [a][..0] == [];
    assert Bits([a]) == a;
  }

  lemma Quotients(a: sextet, b: sextet, c: sextet, d: sextet)
    ensures var g := 0x4_0000 * a + 0x1000 * b + 64 * c + d;
            g / 0x4_0000 == a && g / 0x1000 == 64 * a + b && g / 64 == 64 * (64 * a + b) + c && g == 64 * (64 * (64 * a + b) + c) + d
  {
  }

  lemma SixBack(a: sextet, b: sextet, c: sextet, d: sextet)
    ensures var g := 0x4_0000 * a + 0x1000 * b + 64 * c + d;
            g < 0x100_0000 && Six(g, 0) == a && Six(g, 1) == b && Six(g, 2) == c && Six(g, 3) == d
  {
    var g := 0x4_0000 * a + 0x1000 * b + 64 * c + d;
    Quotients(a, b, c, d);
    Mod64(0, a);
    Mod64(a, b);
    Mod64(64 * a + b, c);
    Mod64(64 * (64 * a + b) + c, d);
    SixIs(g);
  }

  lemma SixIs(g: nat)
    requires g < 0x100_0000
    ensures Six(g, 0) == g / 0x4_0000 % 64 && Six(g, 1) == g / 0x1000 % 64 && Six(g, 2) == g / 64 % 64 && Six(g, 3) == g % 64
  {
  }

  /** A quantum of 24 bits is written as the four letters whose six bits make it. */
  lemma WholeIs(x: octet, y: octet, z: octet, v: seq<sextet>)
    requires |v| == 4 && Bits(v) == 0x1_0000 * x + 0x100 * y + z
    ensures Rfc4648([x, y, z]) == [Letter(v[0]), Letter(v[1]), Letter(v[2]), Letter(v[3])]
  {
    hide Letter, Six;
    assert v == [v[0], v[1], v[2], v[3]];
    BitsAre(v[0], v[1], v[2], v[3]);
    SixBack(v[0], v[1], v[2], v[3]);
    assert [x, y, z][3..] == [];
  }

  /** One byte and four zero bits are two letters, with two characters of padding. */
  lemma OneByteIs(x: octet, v: seq<sextet>)
    requires |v| == 2 && Bits(v) == 0x10 * x
    ensures Rfc4648([x]) == [Letter(v[0]), Letter(v[1]), '=', '=']
  {
    hide Letter, Six;
    assert v == [v[0], v[1]];
    BitsAre(v[0], v[1], 0, 0);
    SixBack(v[0], v[1], 0, 0);
  }

  /** Two bytes and two zero bits are three letters, with one. */
  lemma TwoBytesAre(x: octet, y: octet, v: seq<sextet>)
    requires |v| == 3 && Bits(v) == 4 * (0x100 * x + y)
    ensures Rfc4648([x, y]) == [Letter(v[0]), Letter(v[1]), Letter(v[2]), '=']
  {
    hide Letter, Six;
    assert v == [v[0], v[1], v[2]];
    BitsAre(v[0], v[1], v[2], 0);
    SixBack(v[0], v[1], v[2], 0);
  }

  /** The text of section 10, "foobar", and its beginnings. */
  lemma Section10()
    ensures Rfc4648([]) == "" && Rfc4648([102]) == "Zg==" && Rfc4648([102, 111]) == "Zm8="
    ensures Rfc4648([102, 111, 111]) == "Zm9v" && Rfc4648([102, 111, 111, 98]) == "Zm9vYg=="
    ensures Rfc4648([102, 111, 111, 98, 97]) == "Zm9vYmE=" && Rfc4648([102, 111, 111, 98, 97, 114]) == "Zm9vYmFy"
  {
    hide Letter, Rfc4648;
    Section10Letters();
    BitsAre(25, 32, 0, 0);
    OneByteIs(102, [25, 32]);
    BitsAre(25, 38, 60, 0);
    TwoBytesAre(102, 111, [25, 38, 60]);
    BitsAre(25, 38, 61, 47);
    WholeIs(102, 111, 111, [25, 38, 61, 47]);
    BitsAre(24, 32, 0, 0);
    OneByteIs(98, [24, 32]);
    BitsAre(24, 38, 4, 0);
    TwoBytesAre(98, 97, [24, 38, 4]);
    BitsAre(24, 38, 5, 50);
    WholeIs(98, 97, 114, [24, 38, 5, 50]);
    RfcNone();
    var foo: octets := [102, 111, 111];
    RfcAppend(foo, [98]);
    RfcAppend(foo, [98, 97]);
    RfcAppend(foo, [98, 97, 114]);
    assert foo + [98] == [102, 111, 111, 98] && foo + [98, 97] == [102, 111, 111, 98, 97];
    assert foo + [98, 97, 114] == [102, 111, 111, 98, 97, 114];
  }

  lemma Section10Letters()
    ensures Letter(25) == 'Z' && Letter(32) == 'g' && Letter(38) == 'm' && Letter(60) == '8' && Letter(61) == '9'
    ensures Letter(47) == 'v' && Letter(24) == 'Y' && Letter(4) == 'E' && Letter(5) == 'F' && Letter(50) == 'y'
  {
  }

  // ----- base64_encode -------------------------------------------------------------------------

  /** char_array_4 from char_array_3: the masks and shifts. */
  function Split(a: octet, b: octet, c: octet, n: nat): sextet
    requires n < 4
  {
    if n == 0 then a / 4
    else if n == 1 then a % 4 * 16 + b / 16
    else if n == 2 then b % 16 * 4 + c / 64
    else c % 64
  }

  lemma FirstSix(a: octet, b: octet, c: octet)
    ensures Six(Group(a, b, c), 0) == a / 4
  {
    var r := 0x1_0000 * (a % 4) + 0x100 * b + c;
    assert Group(a, b, c) == 0x4_0000 * (a / 4) + r && 0 <= r < 0x4_0000;
  }

  lemma Mod64(x: nat, y: nat)
    requires y < 64
    ensures (64 * x + y) % 64 == y
  {
  }

  lemma SecondSix(a: octet, b: octet, c: octet)
    ensures Six(Group(a, b, c), 1) == a % 4 * 16 + b / 16
  {
    var q, r := 64 * (a / 4) + (a % 4 * 16 + b / 16), 0x100 * (b % 16) + c;
    assert Group(a, b, c) == 0x1000 * q + r && 0 <= r < 0x1000;
    assert Group(a, b, c) / 0x1000 == q;
    hide *;
    Mod64(a / 4, a % 4 * 16 + b / 16);
  }

  lemma ThirdSix(a: octet, b: octet, c: octet)
    ensures Six(Group(a, b, c), 2) == b % 16 * 4 + c / 64
  {
    var q, r := 64 * (16 * a + b / 16) + (b % 16 * 4 + c / 64), c % 64;
    assert Group(a, b, c) == 64 * q + r;
    assert Group(a, b, c) / 64 == q;
  }

  lemma FourthSix(a: octet, b: octet, c: octet)
    ensures Six(Group(a, b, c), 3) == c % 64
  {
    assert Group(a, b, c) == 64 * (0x400 * a + 4 * b) + c;
  }

  lemma SplitIsSix(a: octet, b: octet, c: octet, n: nat)
    requires n < 4
    ensures Split(a, b, c, n) == Six(Group(a, b, c), n)
  {
    hide Six, Group;
    FirstSix(a, b, c);
    SecondSix(a, b, c);
    ThirdSix(a, b, c);
    FourthSix(a, b, c);
  }

  method PutLetters(charArray3: array<octet>, count: nat, ret: string) returns (out: string)
    requires charArray3.Length == 3 && count <= 4
    ensures out == ret + Four(Group(charArray3[0], charArray3[1], charArray3[2]))[..count]
  {
    hide Letter, Six, Split, Group;
    ghost var four := Four(Group(charArray3[0], charArray3[1], charArray3[2]));
    out := ret;
    for j := 0 to count
      invariant out == ret + four[..j]
    {
      SplitIsSix(charArray3[0], charArray3[1], charArray3[2], j);
      out := out + [Letter(Split(charArray3[0], charArray3[1], charArray3[2], j))];
    }
  }

  method Encode(input: octets) returns (ret: string)
    ensures ret == Rfc4648(input) && |ret| == 4 * ((|input| + 2) / 3)
  {
    hide Letter, Six, Split, Four, Group, Rfc4648;
    RfcNone();
    ret := "";
    var charArray3 := new octet[3](_ => 0);
    var i, k: nat := 0, 0;
    while k < |input|
      invariant i <= k <= |input| && i < 3 && (k - i) % 3 == 0
      invariant ret == Rfc4648(input[..k - i]) && charArray3[..i] == input[k - i..k]
    {
      charArray3[i] := input[k];
      i, k := i + 1, k + 1;
      assert charArray3[..i] == input[k - i..k];
      if i == 3 {
        WholeGroup(input, k, charArray3[..]);
        ret := PutLetters(charArray3, 4, ret);
        i := 0;
      }
    }
    assert input[..k] == input;
    RfcLength(input);
    if i != 0 {
      for j := i to 3
        invariant charArray3[..i] == input[k - i..k] && forall n :: i <= n < j ==> charArray3[n] == 0
      {
        charArray3[j] := 0;
      }
      LastGroup(input[..k - i], input[k - i..], charArray3[..]);
      assert input == input[..k - i] + input[k - i..];
      ret := PutLetters(charArray3, i + 1, ret);
      ghost var letters := ret;
      ghost var from := i;
      while i < 3
        invariant from <= i <= 3 && ret == letters + Pad(i - from)
      {
        ret := ret + "=";
        i := i + 1;
      }
    }
  }

  lemma RfcNone()
    ensures Rfc4648([]) == ""
  {
  }

  function Pad(n: nat): string { seq(n, _ => '=') }

  lemma WholeGroup(input: octets, k: nat, three: octets)
    requires 3 <= k <= |input| && (k - 3) % 3 == 0 && three == input[k - 3..k]
    ensures Rfc4648(input[..k]) == Rfc4648(input[..k - 3]) + Four(Group(three[0], three[1], three[2]))[..4]
  {
    hide Four, Group;
    assert input[..k] == input[..k - 3] + three;
    RfcAppend(input[..k - 3], three);
    assert three[3..] == [];
  }

  lemma LastGroup(first: octets, last: octets, three: octets)
    requires |first| % 3 == 0 && 0 < |last| < 3 == |three|
    requires three[..|last|] == last && forall n :: |last| <= n < 3 ==> three[n] == 0
    ensures Rfc4648(first + last) ==
      Rfc4648(first) + Four(Group(three[0], three[1], three[2]))[..|last| + 1] + Pad(3 - |last|)
  {
    hide *;
    RfcAppend(first, last);
    LastShape(last, three);
    Assoc(Rfc4648(first), Four(Group(three[0], three[1], three[2]))[..|last| + 1], Pad(3 - |last|));
  }

  lemma LastShape(last: octets, three: octets)
    requires 0 < |last| < 3 == |three| && three[..|last|] == last && forall n :: |last| <= n < 3 ==> three[n] == 0
    ensures Rfc4648(last) == Four(Group(three[0], three[1], three[2]))[..|last| + 1] + Pad(3 - |last|)
  {
    hide *;
    RfcShort(last);
    assert last[0] == three[0] && (|last| == 2 ==> last[1] == three[1]);
  }

  lemma RfcShort(x: octets)
    requires 1 <= |x| <= 2
    ensures Rfc4648(x) == Four(Group(x[0], if |x| > 1 then x[1] else 0, 0))[..|x| + 1] + Pad(3 - |x|)
  {
    hide Four, Group;
    assert Pad(2) == "==" && Pad(1) == "=";
  }

  // ----- base64_decode ---------------------------------------------------------------------------

  /** char_array_3 from the four bytes that find gave, each sum cut to a byte. */
  function Join(a: octet, b: octet, c: octet, d: octet): (s: octets)
    ensures |s| == 3
  {
    [(a * 4 + b / 16 % 4) % 256, (b % 16 * 16 + c / 4 % 16) % 256, (c % 4 * 64 + d) % 256]
  }

  /** How far decoding reads: up to padding or any other character that is no letter. */
  function Letters(t: string): (n: nat)
    ensures n <= |t|
    decreases |t|
  {
    if t == "" || !IsBase64(t[0]) then 0 else 1 + Letters(t[1..])
  }

  /** Four letters at a time; k letters at the end give k - 1 bytes. */
  function DecodeLetters(s: string): octets
    decreases |s|
  {
    if |s| >= 4 then Join(Find(s[0]), Find(s[1]), Find(s[2]), Find(s[3])) + DecodeLetters(s[4..])
    else if |s| <= 1 then []
    else Join(Find(s[0]), Find(s[1]), if |s| > 2 then Find(s[2]) else 255, 255)[..|s| - 1]
  }

  function Decoded(t: string): octets { DecodeLetters(t[..Letters(t)]) }

  lemma {:induction false} DecodeAppend(a: string, b: string)
    requires |a| % 4 == 0
    ensures DecodeLetters(a + b) == DecodeLetters(a) + DecodeLetters(b)
    decreases |a|
  {
    hide Find, Join;
    if a == "" {
      assert a + b == b;
    } else {
      assert (a + b)[0] == a[0] && (a + b)[1] == a[1] && (a + b)[2] == a[2] && (a + b)[3] == a[3] && (a + b)[4..] == a[4..] + b;
      DecodeAppend(a[4..], b);
    }
  }

  method PutBytes(charArray4: array<octet>, count: nat, ret: octets) returns (out: octets)
    requires charArray4.Length == 4 && count <= 3
    ensures out == ret + Join(charArray4[0], charArray4[1], charArray4[2], charArray4[3])[..count]
  {
    hide Join;
    var charArray3 := Join(charArray4[0], charArray4[1], charArray4[2], charArray4[3]);
    out := ret;
    for j := 0 to count
      invariant out == ret + charArray3[..j]
    {
      out := out + [charArray3[j]];
    }
  }

  lemma {:induction false} LettersAt(t: string, n: nat)
    requires n <= |t| && forall i :: 0 <= i < n ==> IsBase64(t[i])
    requires n < |t| ==> !IsBase64(t[n])
    ensures Letters(t) == n
    decreases n
  {
    if n > 0 {
      LettersAt(t[1..], n - 1);
    }
  }

  method Decode(input: string) returns (ret: octets)
    ensures ret == Decoded(input)
  {
    hide Find, Join, IsBase64, DecodeLetters;
    ret := [];
    var charArray4 := new char[4](_ => NUL);
    var i, in_: nat := 0, 0;
    DecodeNone();
    while in_ < |input| && input[in_] != '=' && IsBase64(input[in_])
      invariant i <= in_ <= |input| && i < 4 && (in_ - i) % 4 == 0
      invariant forall k :: 0 <= k < in_ ==> IsBase64(input[k])
      invariant ret == DecodeLetters(input[..in_ - i]) && charArray4[..i] == input[in_ - i..in_]
    {
      charArray4[i] := input[in_];
      i, in_ := i + 1, in_ + 1;
      assert charArray4[..i] == input[in_ - i..in_];
      if i == 4 {
        var found := FindAll(charArray4);
        WholeQuantum(input, in_, charArray4[..]);
        ret := PutBytes(found, 3, ret);
        i := 0;
      }
    }
    PaddingIsNoLetter();
    LettersAt(input, in_);
    if i != 0 {
      for j := i to 4
        invariant charArray4[..i] == input[in_ - i..in_] && forall n :: i <= n < j ==> charArray4[n] == NUL
      {
        charArray4[j] := NUL;
      }
      var found := FindAll(charArray4);
      LastQuantum(input[..in_ - i], input[in_ - i..in_], charArray4[..]);
      assert input[..in_] == input[..in_ - i] + input[in_ - i..in_];
      ret := PutBytes(found, i - 1, ret);
    }
  }

  const NUL: char := '\0'

  /** find for each of the four; NUL is not in the alphabet. */
  method FindAll(charArray4: array<char>) returns (found: array<octet>)
    requires charArray4.Length == 4
    ensures found.Length == 4 && fresh(found) && forall n :: 0 <= n < 4 ==> found[n] == Find(charArray4[n])
  {
    found := new octet[4](n requires 0 <= n < 4 reads charArray4 => Find(charArray4[n]));
  }

  lemma DecodeNone()
    ensures DecodeLetters("") == []
  {
  }

  lemma PaddingIsNoLetter()
    ensures !IsBase64('=')
  {
  }

  lemma WholeQuantum(input: string, k: nat, four: string)
    requires 4 <= k <= |input| && (k - 4) % 4 == 0 && four == input[k - 4..k]
    ensures DecodeLetters(input[..k]) ==
      DecodeLetters(input[..k - 4]) + Join(Find(four[0]), Find(four[1]), Find(four[2]), Find(four[3]))[..3]
  {
    hide Find, Join;
    assert input[..k] == input[..k - 4] + four;
    DecodeAppend(input[..k - 4], four);
    assert four[4..] == "";
  }

  lemma LastQuantum(first: string, last: string, four: string)
    requires |first| % 4 == 0 && 0 < |last| < 4 == |four|
    requires four[..|last|] == last && forall n :: |last| <= n < 4 ==> four[n] == NUL
    ensures DecodeLetters(first + last) ==
      DecodeLetters(first) + Join(Find(four[0]), Find(four[1]), Find(four[2]), Find(four[3]))[..|last| - 1]
  {
    hide *;
    DecodeAppend(first, last);
    QuantumShape(last, four);
  }

  lemma QuantumShape(last: string, four: string)
    requires 0 < |last| < 4 == |four| && four[..|last|] == last && forall n :: |last| <= n < 4 ==> four[n] == NUL
    ensures DecodeLetters(last) == Join(Find(four[0]), Find(four[1]), Find(four[2]), Find(four[3]))[..|last| - 1]
  {
    assert Find(NUL) == 255;
    hide *;
    DecodeShort(last);
    assert last[0] == four[0] && (|last| > 1 ==> last[1] == four[1]) && (|last| > 2 ==> last[2] == four[2]);
  }

  lemma DecodeShort(s: string)
    requires 1 <= |s| <= 3
    ensures |s| == 1 ==> DecodeLetters(s) == []
    ensures |s| > 1 ==> DecodeLetters(s) == Join(Find(s[0]), Find(s[1]), if |s| > 2 then Find(s[2]) else 255, 255)[..|s| - 1]
  {
    hide Find, Join;
  }

  // ----- both ways ----------------------------------------------------------------------------------

  lemma Split1Parts(a: octet, b: octet)
    ensures (a % 4 * 16 + b / 16) / 16 == a % 4 && (a % 4 * 16 + b / 16) % 16 == b / 16
  {
  }

  lemma Split2Parts(b: octet, c: octet)
    ensures (b % 16 * 4 + c / 64) / 4 == b % 16 && (b % 16 * 4 + c / 64) % 4 == c / 64
  {
  }

  lemma JoinSplit(a: octet, b: octet, c: octet)
    ensures Join(Split(a, b, c, 0), Split(a, b, c, 1), Split(a, b, c, 2), Split(a, b, c, 3)) == [a, b, c]
    ensures b == c == 0 ==> Join(Split(a, b, c, 0), Split(a, b, c, 1), 255, 255)[..1] == [a]
    ensures c == 0 ==> Join(Split(a, b, c, 0), Split(a, b, c, 1), Split(a, b, c, 2), 255)[..2] == [a, b]
  {
    Split1Parts(a, b);
    Split2Parts(b, c);
    var s0, s1, s2, s3 := Split(a, b, c, 0), Split(a, b, c, 1), Split(a, b, c, 2), Split(a, b, c, 3);
    assert s1 / 16 % 4 == a % 4 && s1 % 16 == b / 16 && s2 / 4 % 16 == b % 16 && s2 % 4 == c / 64;
    assert s0 == a / 4 && s3 == c % 64;
    hide Split;
  }

  lemma FourBack(a: octet, b: octet, c: octet, n: nat)
    requires n < 4
    ensures IsBase64(Four(Group(a, b, c))[n]) && Find(Four(Group(a, b, c))[n]) == Split(a, b, c, n)
  {
    hide Split, Group;
    SplitIsSix(a, b, c, n);
    hide Find, IsBase64, Letter;
    FindLetter(Split(a, b, c, n));
  }

  /** The letters of an encoding: how many there are and what they decode to. */
  predicate Reads(text: string, n: nat, x: octets) {
    && n <= |text| && (forall i :: 0 <= i < n ==> IsBase64(text[i])) && (n < |text| ==> text[n] == '=')
    && DecodeLetters(text[..n]) == x
  }

  lemma FoursBack(a: octet, b: octet, c: octet)
    ensures var four := Four(Group(a, b, c));
            (forall i :: 0 <= i < 4 ==> IsBase64(four[i])) &&
            Join(Find(four[0]), Find(four[1]), Find(four[2]), Find(four[3])) == [a, b, c] &&
            (b == c == 0 ==> Join(Find(four[0]), Find(four[1]), 255, 255)[..1] == [a]) &&
            (c == 0 ==> Join(Find(four[0]), Find(four[1]), Find(four[2]), 255)[..2] == [a, b])
  {
    hide *;
    FourBack(a, b, c, 0);
    FourBack(a, b, c, 1);
    FourBack(a, b, c, 2);
    FourBack(a, b, c, 3);
    JoinSplit(a, b, c);
  }

  lemma ShortBack(x: octets)
    requires 1 <= |x| <= 2
    ensures Reads(Rfc4648(x), |x| + 1, x)
  {
    hide IsBase64, Find, Four, Group, Join;
    var b := if |x| > 1 then x[1] else 0;
    FoursBack(x[0], b, 0);
  }

  lemma GroupBack(x: octets, rest: string, n: nat)
    requires |x| >= 3 && Reads(rest, n, x[3..])
    ensures Reads(Four(Group(x[0], x[1], x[2])) + rest, n + 4, x)
  {
    hide IsBase64, Find, Four, Group, Join;
    var four := Four(Group(x[0], x[1], x[2]));
    FoursBack(x[0], x[1], x[2]);
    assert (four + rest)[..n + 4] == four + rest[..n];
    DecodeAppend(four, rest[..n]);
    assert four[4..] == "" && x == [x[0], x[1], x[2]] + x[3..];
  }

  lemma {:induction false} LettersBack(x: octets)
    ensures Reads(Rfc4648(x), (4 * |x| + 2) / 3, x)
    decreases |x|
  {
    hide Reads, Four, Group;
    if x == [] {
      NothingBack();
    } else if |x| < 3 {
      ShortBack(x);
    } else {
      LettersBack(x[3..]);
      GroupBack(x, Rfc4648(x[3..]), (4 * |x| + 2) / 3 - 4);
    }
  }

  lemma NothingBack()
    ensures Reads("", 0, [])
  {
  }

  lemma RoundTrip(x: octets)
    ensures Decoded(Rfc4648(x)) == x
  {
    hide Rfc4648, DecodeLetters, IsBase64;
    LettersBack(x);
    PaddingIsNoLetter();
    LettersAt(Rfc4648(x), (4 * |x| + 2) / 3);
  }

  /** base64_decode(base64_encode(x)) */
  method EncodeAndDecode(x: octets) returns (back: octets)
    ensures back == x
  {
    var text := Encode(x);
    back := Decode(text);
    RoundTrip(x);
  }
}
