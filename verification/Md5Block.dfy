/**
 The block function of MD5, md5_process in websocketpp/common/md5.hpp: 64 operations written
 out one by one, against section 3.4 of RFC 1321 as a loop over a step number.
 */
module Md5Block {
  import opened Bytes

  type word = x: int | 0 <= x < 0x1_0000_0000

  datatype Digest = Digest(a: bv32, b: bv32, c: bv32, d: bv32)

  // ----- section 3.4 ------------------------------------------------------------------------

  function F(x: bv32, y: bv32, z: bv32): bv32 { (x & y) | (!x & z) }

  function G(x: bv32, y: bv32, z: bv32): bv32 { (x & z) | (y & !z) }

  function H(x: bv32, y: bv32, z: bv32): bv32 { x ^ y ^ z }

  function I(x: bv32, y: bv32, z: bv32): bv32 { y ^ (x | !z) }

  /** The function of a step, the word it reads and its rotation. */
  function Mix(i: nat, x: bv32, y: bv32, z: bv32): bv32 {
    if i < 16 then F(x, y, z) else if i < 32 then G(x, y, z) else if i < 48 then H(x, y, z) else I(x, y, z)
  }

  function Index(i: nat): (k: nat)
    ensures k < 16
  {
    if i < 16 then i else if i < 32 then (5 * i + 1) % 16 else if i < 48 then (3 * i + 5) % 16 else 7 * i % 16
  }

  function Shift(i: nat): (s: nat)
    ensures 0 < s < 32
  {
    var j := i % 4;
    if i < 16 then 7 + 5 * j
    else if i < 32 then (if j < 2 then 5 + 4 * j else if j == 2 then 14 else 20)
    else if i < 48 then (if j < 2 then 4 + 7 * j else if j == 2 then 16 else 23)
    else if j < 2 then 6 + 4 * j else if j == 2 then 15 else 21
  }

  function Table1(i: nat): bv32 {
    match i
    case 1 => 0xd76aa478
    case 2 => 0xe8c7b756
    case 3 => 0x242070db
    case 4 => 0xc1bdceee
    case 5 => 0xf57c0faf
    case 6 => 0x4787c62a
    case 7 => 0xa8304613
    case 8 => 0xfd469501
    case 9 => 0x698098d8
    case 10 => 0x8b44f7af
    case 11 => 0xffff5bb1
    case 12 => 0x895cd7be
    case 13 => 0x6b901122
    case 14 => 0xfd987193
    case 15 => 0xa679438e
    case _ => 0x49b40821
  }

  function Table2(i: nat): bv32 {
    match i
    case 17 => 0xf61e2562
    case 18 => 0xc040b340
    case 19 => 0x265e5a51
    case 20 => 0xe9b6c7aa
    case 21 => 0xd62f105d
    case 22 => 0x02441453
    case 23 => 0xd8a1e681
    case 24 => 0xe7d3fbc8
    case 25 => 0x21e1cde6
    case 26 => 0xc33707d6
    case 27 => 0xf4d50d87
    case 28 => 0x455a14ed
    case 29 => 0xa9e3e905
    case 30 => 0xfcefa3f8
    case 31 => 0x676f02d9
    case _ => 0x8d2a4c8a
  }

  function Table3(i: nat): bv32 {
    match i
    case 33 => 0xfffa3942
    case 34 => 0x8771f681
    case 35 => 0x6d9d6122
    case 36 => 0xfde5380c
    case 37 => 0xa4beea44
    case 38 => 0x4bdecfa9
    case 39 => 0xf6bb4b60
    case 40 => 0xbebfbc70
    case 41 => 0x289b7ec6
    case 42 => 0xeaa127fa
    case 43 => 0xd4ef3085
    case 44 => 0x04881d05
    case 45 => 0xd9d4d039
    case 46 => 0xe6db99e5
    case 47 => 0x1fa27cf8
    case _ => 0xc4ac5665
  }

  function Table4(i: nat): bv32 {
    match i
    case 49 => 0xf4292244
    case 50 => 0x432aff97
    case 51 => 0xab9423a7
    case 52 => 0xfc93a039
    case 53 => 0x655b59c3
    case 54 => 0x8f0ccc92
    case 55 => 0xffeff47d
    case 56 => 0x85845dd1
    case 57 => 0x6fa87e4f
    case 58 => 0xfe2ce6e0
    case 59 => 0xa3014314
    case 60 => 0x4e0811a1
    case 61 => 0xf7537e82
    case 62 => 0xbd3af235
    case 63 => 0x2ad7d2bb
    case _ => 0xeb86d391
  }

  /** The i-th element of the table: the integer part of 4294967296 times abs(sin(i)). */
  function T(i: nat): bv32 {
    if i <= 16 then Table1(i) else if i <= 32 then Table2(i) else if i <= 48 then Table3(i) else Table4(i)
  }

  function Plus(x: bv32, y: bv32): bv32 { x + y }

  /** x <<< s: the word turned left by s bits. */
  function Turned(x: bv32, s: nat): bv32
    requires s < 32
  {
    x.RotateLeft(s)
  }

  /** Step i: the word that is replaced moves on, the others change places. */
  function Step(q: Digest, x: seq<bv32>, i: nat): Digest
    requires |x| == 16
  {
    var t := Plus(Plus(Plus(q.a, Mix(i, q.b, q.c, q.d)), x[Index(i)]), T(i + 1));
    Digest(q.d, Plus(q.b, Turned(t, Shift(i))), q.b, q.c)
  }

  function Steps(q: Digest, x: seq<bv32>, n: nat): Digest
    requires |x| == 16
  {
    if n == 0 then q else Step(Steps(q, x, n - 1), x, n - 1)
  }

  function FromLittleEndian(s: octets): nat
    decreases |s|
  {
    if s == [] then 0 else s[0] + 256 * FromLittleEndian(s[1..])
  }

  /** Four bytes put together, each shifted to its place. */
  function Joined(b0: octet, b1: octet, b2: octet, b3: octet): (n: nat)
    ensures n < 0x1_0000_0000
  {
    b0 as int + 0x100 * b1 as int + 0x1_0000 * b2 as int + 0x100_0000 * b3 as int
  }

  /** The low-order byte of a word comes first. */
  lemma FourBytes(s: octets)
    requires |s| == 4
    ensures FromLittleEndian(s) == Joined(s[0], s[1], s[2], s[3])
  {
    assert s[1..][1..] == s[2..] && s[2..][1..] == s[3..] && s[3..][1..] == [];
    assert FromLittleEndian(s[3..]) == s[3];
    assert FromLittleEndian(s[2..]) == s[2] as int + 256 * s[3] as int;
    assert FromLittleEndian(s[1..]) == s[1] as int + 256 * (s[2] as int + 256 * s[3] as int);
  }

  function Bits(n: nat): bv32
    requires n < 0x1_0000_0000
  {
    n as bv32
  }

  function WordAt(block: octets, k: nat): bv32
    requires |block| == 64 && k < 16
  {
    FourBytes(block[4 * k..4 * k + 4]);
    Bits(FromLittleEndian(block[4 * k..4 * k + 4]))
  }

  function Words(block: octets): (x: seq<bv32>)
    requires |block| == 64
    ensures |x| == 16
  {
    seq(16, k requires 0 <= k < 16 => WordAt(block, k))
  }

  function Added(q: Digest, r: Digest): Digest {
    Digest(Plus(q.a, r.a), Plus(q.b, r.b), Plus(q.c, r.c), Plus(q.d, r.d))
  }

  function Compress(q: Digest, block: octets): Digest
    requires |block| == 64
  {
    Added(q, Steps(q, Words(block), 64))
  }

  // ----- md5_process ------------------------------------------------------------------------------

  const MASK: bv32 := 0xFFFF_FFFF

  function Rotate(x: bv32, n: nat): bv32
    requires 0 < n < 32
  {
    (x << n) | (x >> (32 - n))
  }

  lemma TurnedIs(x: bv32, n: nat)
    requires 0 < n < 32 && (x << n) | (x >> (32 - n)) == x.RotateLeft(n)
    ensures Rotate(x, n) == Turned(x, n)
  {
  }

  lemma Rotated1(x: bv32, n: nat)
    requires n == 7 || n == 12 || n == 17 || n == 22
    ensures (x << n) | (x >> (32 - n)) == x.RotateLeft(n)
  {
    if n == 7 {
    } else if n == 12 {
    } else if n == 17 {
    } else {
    }
  }

  lemma Rotated2(x: bv32, n: nat)
    requires n == 5 || n == 9 || n == 14 || n == 20
    ensures (x << n) | (x >> (32 - n)) == x.RotateLeft(n)
  {
    if n == 5 {
    } else if n == 9 {
    } else if n == 14 {
    } else {
    }
  }

  lemma Rotated3(x: bv32, n: nat)
    requires n == 4 || n == 11 || n == 16 || n == 23
    ensures (x << n) | (x >> (32 - n)) == x.RotateLeft(n)
  {
    if n == 4 {
    } else if n == 11 {
    } else if n == 16 {
    } else {
    }
  }

  lemma Rotated4(x: bv32, n: nat)
    requires n == 6 || n == 10 || n == 15 || n == 21
    ensures (x << n) | (x >> (32 - n)) == x.RotateLeft(n)
  {
    if n == 6 {
    } else if n == 10 {
    } else if n == 15 {
    } else {
    }
  }

  lemma Shifts(i: nat)
    requires i < 64
    ensures var n := Shift(i);
            if i < 16 then n == 7 || n == 12 || n == 17 || n == 22
            else if i < 32 then n == 5 || n == 9 || n == 14 || n == 20
            else if i < 48 then n == 4 || n == 11 || n == 16 || n == 23
            else n == 6 || n == 10 || n == 15 || n == 21
  {
  }

  lemma RotateIs(x: bv32, i: nat)
    requires i < 64
    ensures Rotate(x, Shift(i)) == Turned(x, Shift(i))
  {
    hide *;
    Shifts(i);
    var n := Shift(i);
    if i < 16 {
      Rotated1(x, n);
    } else if i < 32 {
      Rotated2(x, n);
    } else if i < 48 {
      Rotated3(x, n);
    } else {
      Rotated4(x, n);
    }
    TurnedIs(x, n);
  }

  lemma PlusSwap(x: bv32, y: bv32)
    ensures Plus(x, y) == Plus(y, x)
  {
  }

  /** Which word, rotation and table element step i takes. */
  predicate Operation(i: nat, k: nat, s: nat, t: bv32) {
    k == Index(i) && s == Shift(i) && t == T(i + 1)
  }

  /** What the macro SET computes, f being the function of the round on the other three words. */
  function Set(f: bv32, a: bv32, b: bv32, x: bv32, s: nat, t: bv32): bv32
    requires 0 < s < 32
  {
    Plus(Rotate(Plus(Plus(Plus(a, f), x), t), s), b)
  }

  lemma SetIsStep(q: Digest, x: seq<bv32>, i: nat, a: bv32, b: bv32, c: bv32, d: bv32)
    requires |x| == 16 && i < 64 && Steps(q, x, i) == Digest(a, b, c, d)
    ensures Steps(q, x, i + 1) == Digest(d, Set(Mix(i, b, c, d), a, b, x[Index(i)], Shift(i), T(i + 1)), b, c)
  {
    hide Mix, Index, Shift, T, Rotate, Plus, Turned;
    var u := Plus(Plus(Plus(a, Mix(i, b, c, d)), x[Index(i)]), T(i + 1));
    RotateIs(u, i);
    PlusSwap(b, Turned(u, Shift(i)));
    assert Step(Steps(q, x, i), x, i) == Step(Digest(a, b, c, d), x, i);
  }

  /** SET as round 1 defines it; each round has its own. */
  method Set1(a: bv32, b: bv32, c: bv32, d: bv32, x: seq<bv32>, k: nat, s: nat, t: bv32, ghost q: Digest, ghost i: nat)
    returns (r: bv32)
    requires |x| == 16 && i < 16 && Operation(i, k, s, t)
    requires Steps(q, x, i) == Digest(a, b, c, d)
    ensures Steps(q, x, i + 1) == Digest(d, r, b, c)
  {
    hide Steps, Index, Shift, T, Set, F;
    SetIsStep(q, x, i, a, b, c, d);
    r := Set(F(b, c, d), a, b, x[k], s, t);
  }

  method Set2(a: bv32, b: bv32, c: bv32, d: bv32, x: seq<bv32>, k: nat, s: nat, t: bv32, ghost q: Digest, ghost i: nat)
    returns (r: bv32)
    requires |x| == 16 && 16 <= i < 32 && Operation(i, k, s, t)
    requires Steps(q, x, i) == Digest(a, b, c, d)
    ensures Steps(q, x, i + 1) == Digest(d, r, b, c)
  {
    hide Steps, Index, Shift, T, Set, G;
    SetIsStep(q, x, i, a, b, c, d);
    r := Set(G(b, c, d), a, b, x[k], s, t);
  }

  method Set3(a: bv32, b: bv32, c: bv32, d: bv32, x: seq<bv32>, k: nat, s: nat, t: bv32, ghost q: Digest, ghost i: nat)
    returns (r: bv32)
    requires |x| == 16 && 32 <= i < 48 && Operation(i, k, s, t)
    requires Steps(q, x, i) == Digest(a, b, c, d)
    ensures Steps(q, x, i + 1) == Digest(d, r, b, c)
  {
    hide Steps, Index, Shift, T, Set, H;
    SetIsStep(q, x, i, a, b, c, d);
    r := Set(H(b, c, d), a, b, x[k], s, t);
  }

  method Set4(a: bv32, b: bv32, c: bv32, d: bv32, x: seq<bv32>, k: nat, s: nat, t: bv32, ghost q: Digest, ghost i: nat)
    returns (r: bv32)
    requires |x| == 16 && 48 <= i < 64 && Operation(i, k, s, t)
    requires Steps(q, x, i) == Digest(a, b, c, d)
    ensures Steps(q, x, i + 1) == Digest(d, r, b, c)
  {
    hide Steps, Index, Shift, T, Set, I;
    SetIsStep(q, x, i, a, b, c, d);
    r := Set(I(b, c, d), a, b, x[k], s, t);
  }

  lemma Operations1()
    ensures Operation(0, 0, 7, MASK ^ 0x28955b87) && Operation(1, 1, 12, MASK ^ 0x173848a9)
    ensures Operation(2, 2, 17, 0x242070db) && Operation(3, 3, 22, MASK ^ 0x3e423111)
    ensures Operation(4, 4, 7, MASK ^ 0x0a83f050) && Operation(5, 5, 12, 0x4787c62a)
    ensures Operation(6, 6, 17, MASK ^ 0x57cfb9ec) && Operation(7, 7, 22, MASK ^ 0x02b96afe)
    ensures Operation(8, 8, 7, 0x698098d8) && Operation(9, 9, 12, MASK ^ 0x74bb0850)
    ensures Operation(10, 10, 17, MASK ^ 0x0000a44e) && Operation(11, 11, 22, MASK ^ 0x76a32841)
    ensures Operation(12, 12, 7, 0x6b901122) && Operation(13, 13, 12, MASK ^ 0x02678e6c)
    ensures Operation(14, 14, 17, MASK ^ 0x5986bc71) && Operation(15, 15, 22, 0x49b40821)
  {
  }

  method Round1(a0: bv32, b0: bv32, c0: bv32, d0: bv32, x: seq<bv32>, ghost q: Digest)
    returns (a: bv32, b: bv32, c: bv32, d: bv32)
    requires |x| == 16 && Steps(q, x, 0) == Digest(a0, b0, c0, d0)
    ensures Steps(q, x, 16) == Digest(a, b, c, d)
  {
    hide *;
    Operations1();
    a, b, c, d := a0, b0, c0, d0;
    a := Set1(a, b, c, d, x, 0, 7, MASK ^ 0x28955b87, q, 0);
    d := Set1(d, a, b, c, x, 1, 12, MASK ^ 0x173848a9, q, 1);
    c := Set1(c, d, a, b, x, 2, 17, 0x242070db, q, 2);
    b := Set1(b, c, d, a, x, 3, 22, MASK ^ 0x3e423111, q, 3);
    a := Set1(a, b, c, d, x, 4, 7, MASK ^ 0x0a83f050, q, 4);
    d := Set1(d, a, b, c, x, 5, 12, 0x4787c62a, q, 5);
    c := Set1(c, d, a, b, x, 6, 17, MASK ^ 0x57cfb9ec, q, 6);
    b := Set1(b, c, d, a, x, 7, 22, MASK ^ 0x02b96afe, q, 7);
    a := Set1(a, b, c, d, x, 8, 7, 0x698098d8, q, 8);
    d := Set1(d, a, b, c, x, 9, 12, MASK ^ 0x74bb0850, q, 9);
    c := Set1(c, d, a, b, x, 10, 17, MASK ^ 0x0000a44e, q, 10);
    b := Set1(b, c, d, a, x, 11, 22, MASK ^ 0x76a32841, q, 11);
    a := Set1(a, b, c, d, x, 12, 7, 0x6b901122, q, 12);
    d := Set1(d, a, b, c, x, 13, 12, MASK ^ 0x02678e6c, q, 13);
    c := Set1(c, d, a, b, x, 14, 17, MASK ^ 0x5986bc71, q, 14);
    b := Set1(b, c, d, a, x, 15, 22, 0x49b40821, q, 15);
  }

  lemma Operations2()
    ensures Operation(16, 1, 5, MASK ^ 0x09e1da9d) && Operation(17, 6, 9, MASK ^ 0x3fbf4cbf)
    ensures Operation(18, 11, 14, 0x265e5a51) && Operation(19, 0, 20, MASK ^ 0x16493855)
    ensures Operation(20, 5, 5, MASK ^ 0x29d0efa2) && Operation(21, 10, 9, 0x02441453)
    ensures Operation(22, 15, 14, MASK ^ 0x275e197e) && Operation(23, 4, 20, MASK ^ 0x182c0437)
    ensures Operation(24, 9, 5, 0x21e1cde6) && Operation(25, 14, 9, MASK ^ 0x3cc8f829)
    ensures Operation(26, 3, 14, MASK ^ 0x0b2af278) && Operation(27, 8, 20, 0x455a14ed)
    ensures Operation(28, 13, 5, MASK ^ 0x561c16fa) && Operation(29, 2, 9, MASK ^ 0x03105c07)
    ensures Operation(30, 7, 14, 0x676f02d9) && Operation(31, 12, 20, MASK ^ 0x72d5b375)
  {
  }

  method Round2(a0: bv32, b0: bv32, c0: bv32, d0: bv32, x: seq<bv32>, ghost q: Digest)
    returns (a: bv32, b: bv32, c: bv32, d: bv32)
    requires |x| == 16 && Steps(q, x, 16) == Digest(a0, b0, c0, d0)
    ensures Steps(q, x, 32) == Digest(a, b, c, d)
  {
    hide *;
    Operations2();
    a, b, c, d := a0, b0, c0, d0;
    a := Set2(a, b, c, d, x, 1, 5, MASK ^ 0x09e1da9d, q, 16);
    d := Set2(d, a, b, c, x, 6, 9, MASK ^ 0x3fbf4cbf, q, 17);
    c := Set2(c, d, a, b, x, 11, 14, 0x265e5a51, q, 18);
    b := Set2(b, c, d, a, x, 0, 20, MASK ^ 0x16493855, q, 19);
    a := Set2(a, b, c, d, x, 5, 5, MASK ^ 0x29d0efa2, q, 20);
    d := Set2(d, a, b, c, x, 10, 9, 0x02441453, q, 21);
    c := Set2(c, d, a, b, x, 15, 14, MASK ^ 0x275e197e, q, 22);
    b := Set2(b, c, d, a, x, 4, 20, MASK ^ 0x182c0437, q, 23);
    a := Set2(a, b, c, d, x, 9, 5, 0x21e1cde6, q, 24);
    d := Set2(d, a, b, c, x, 14, 9, MASK ^ 0x3cc8f829, q, 25);
    c := Set2(c, d, a, b, x, 3, 14, MASK ^ 0x0b2af278, q, 26);
    b := Set2(b, c, d, a, x, 8, 20, 0x455a14ed, q, 27);
    a := Set2(a, b, c, d, x, 13, 5, MASK ^ 0x561c16fa, q, 28);
    d := Set2(d, a, b, c, x, 2, 9, MASK ^ 0x03105c07, q, 29);
    c := Set2(c, d, a, b, x, 7, 14, 0x676f02d9, q, 30);
    b := Set2(b, c, d, a, x, 12, 20, MASK ^ 0x72d5b375, q, 31);
  }

  lemma Operations3()
    ensures Operation(32, 5, 4, MASK ^ 0x0005c6bd) && Operation(33, 8, 11, MASK ^ 0x788e097e)
    ensures Operation(34, 11, 16, 0x6d9d6122) && Operation(35, 14, 23, MASK ^ 0x021ac7f3)
    ensures Operation(36, 1, 4, MASK ^ 0x5b4115bb) && Operation(37, 4, 11, 0x4bdecfa9)
    ensures Operation(38, 7, 16, MASK ^ 0x0944b49f) && Operation(39, 10, 23, MASK ^ 0x4140438f)
    ensures Operation(40, 13, 4, 0x289b7ec6) && Operation(41, 0, 11, MASK ^ 0x155ed805)
    ensures Operation(42, 3, 16, MASK ^ 0x2b10cf7a) && Operation(43, 6, 23, 0x04881d05)
    ensures Operation(44, 9, 4, MASK ^ 0x262b2fc6) && Operation(45, 12, 11, MASK ^ 0x1924661a)
    ensures Operation(46, 15, 16, 0x1fa27cf8) && Operation(47, 2, 23, MASK ^ 0x3b53a99a)
  {
  }

  method Round3(a0: bv32, b0: bv32, c0: bv32, d0: bv32, x: seq<bv32>, ghost q: Digest)
    returns (a: bv32, b: bv32, c: bv32, d: bv32)
    requires |x| == 16 && Steps(q, x, 32) == Digest(a0, b0, c0, d0)
    ensures Steps(q, x, 48) == Digest(a, b, c, d)
  {
    hide *;
    Operations3();
    a, b, c, d := a0, b0, c0, d0;
    a := Set3(a, b, c, d, x, 5, 4, MASK ^ 0x0005c6bd, q, 32);
    d := Set3(d, a, b, c, x, 8, 11, MASK ^ 0x788e097e, q, 33);
    c := Set3(c, d, a, b, x, 11, 16, 0x6d9d6122, q, 34);
    b := Set3(b, c, d, a, x, 14, 23, MASK ^ 0x021ac7f3, q, 35);
    a := Set3(a, b, c, d, x, 1, 4, MASK ^ 0x5b4115bb, q, 36);
    d := Set3(d, a, b, c, x, 4, 11, 0x4bdecfa9, q, 37);
    c := Set3(c, d, a, b, x, 7, 16, MASK ^ 0x0944b49f, q, 38);
    b := Set3(b, c, d, a, x, 10, 23, MASK ^ 0x4140438f, q, 39);
    a := Set3(a, b, c, d, x, 13, 4, 0x289b7ec6, q, 40);
    d := Set3(d, a, b, c, x, 0, 11, MASK ^ 0x155ed805, q, 41);
    c := Set3(c, d, a, b, x, 3, 16, MASK ^ 0x2b10cf7a, q, 42);
    b := Set3(b, c, d, a, x, 6, 23, 0x04881d05, q, 43);
    a := Set3(a, b, c, d, x, 9, 4, MASK ^ 0x262b2fc6, q, 44);
    d := Set3(d, a, b, c, x, 12, 11, MASK ^ 0x1924661a, q, 45);
    c := Set3(c, d, a, b, x, 15, 16, 0x1fa27cf8, q, 46);
    b := Set3(b, c, d, a, x, 2, 23, MASK ^ 0x3b53a99a, q, 47);
  }

  lemma Operations4()
    ensures Operation(48, 0, 6, MASK ^ 0x0bd6ddbb) && Operation(49, 7, 10, 0x432aff97)
    ensures Operation(50, 14, 15, MASK ^ 0x546bdc58) && Operation(51, 5, 21, MASK ^ 0x036c5fc6)
    ensures Operation(52, 12, 6, 0x655b59c3) && Operation(53, 3, 10, MASK ^ 0x70f3336d)
    ensures Operation(54, 10, 15, MASK ^ 0x00100b82) && Operation(55, 1, 21, MASK ^ 0x7a7ba22e)
    ensures Operation(56, 8, 6, 0x6fa87e4f) && Operation(57, 15, 10, MASK ^ 0x01d3191f)
    ensures Operation(58, 6, 15, MASK ^ 0x5cfebceb) && Operation(59, 13, 21, 0x4e0811a1)
    ensures Operation(60, 4, 6, MASK ^ 0x08ac817d) && Operation(61, 11, 10, MASK ^ 0x42c50dca)
    ensures Operation(62, 2, 15, 0x2ad7d2bb) && Operation(63, 9, 21, MASK ^ 0x14792c6e)
  {
  }

  method Round4(a0: bv32, b0: bv32, c0: bv32, d0: bv32, x: seq<bv32>, ghost q: Digest)
    returns (a: bv32, b: bv32, c: bv32, d: bv32)
    requires |x| == 16 && Steps(q, x, 48) == Digest(a0, b0, c0, d0)
    ensures Steps(q, x, 64) == Digest(a, b, c, d)
  {
    hide *;
    Operations4();
    a, b, c, d := a0, b0, c0, d0;
    a := Set4(a, b, c, d, x, 0, 6, MASK ^ 0x0bd6ddbb, q, 48);
    d := Set4(d, a, b, c, x, 7, 10, 0x432aff97, q, 49);
    c := Set4(c, d, a, b, x, 14, 15, MASK ^ 0x546bdc58, q, 50);
    b := Set4(b, c, d, a, x, 5, 21, MASK ^ 0x036c5fc6, q, 51);
    a := Set4(a, b, c, d, x, 12, 6, 0x655b59c3, q, 52);
    d := Set4(d, a, b, c, x, 3, 10, MASK ^ 0x70f3336d, q, 53);
    c := Set4(c, d, a, b, x, 10, 15, MASK ^ 0x00100b82, q, 54);
    b := Set4(b, c, d, a, x, 1, 21, MASK ^ 0x7a7ba22e, q, 55);
    a := Set4(a, b, c, d, x, 8, 6, 0x6fa87e4f, q, 56);
    d := Set4(d, a, b, c, x, 15, 10, MASK ^ 0x01d3191f, q, 57);
    c := Set4(c, d, a, b, x, 6, 15, MASK ^ 0x5cfebceb, q, 58);
    b := Set4(b, c, d, a, x, 13, 21, 0x4e0811a1, q, 59);
    a := Set4(a, b, c, d, x, 4, 6, MASK ^ 0x08ac817d, q, 60);
    d := Set4(d, a, b, c, x, 11, 10, MASK ^ 0x42c50dca, q, 61);
    c := Set4(c, d, a, b, x, 2, 15, 0x2ad7d2bb, q, 62);
    b := Set4(b, c, d, a, x, 9, 21, MASK ^ 0x14792c6e, q, 63);
  }

  lemma WordIs(data: octets, k: nat, b0: octet, b1: octet, b2: octet, b3: octet)
    requires |data| == 64 && k < 16
    requires b0 == data[4 * k] && b1 == data[4 * k + 1] && b2 == data[4 * k + 2] && b3 == data[4 * k + 3]
    ensures WordAt(data, k) == Bits(Joined(b0, b1, b2, b3))
  {
    hide Bits, FromLittleEndian;
    FourBytes(data[4 * k..4 * k + 4]);
  }

  lemma WordsAre(data: octets, x: seq<bv32>)
    requires |data| == 64 && |x| == 16 && forall k :: 0 <= k < 16 ==> x[k] == WordAt(data, k)
    ensures x == Words(data)
  {
    hide WordAt;
  }

  /** The sixteen words of a block, their bytes put together one by one. */
  method Load(data: octets) returns (x: seq<bv32>)
    requires |data| == 64
    ensures x == Words(data)
  {
    hide *;
    x := [];
    for i := 0 to 16
      invariant |x| == i && forall k :: 0 <= k < i ==> x[k] == WordAt(data, k)
    {
      var b0, b1, b2, b3 := data[4 * i], data[4 * i + 1], data[4 * i + 2], data[4 * i + 3];
      WordIs(data, i, b0, b1, b2, b3);
      x := x + [Bits(Joined(b0, b1, b2, b3))];
    }
    WordsAre(data, x);
  }

  /** md5_process */
  method Process(q: Digest, data: octets) returns (r: Digest)
    requires |data| == 64
    ensures r == Compress(q, data)
  {
    hide Steps, Words;
    var x := Load(data);
    StepsStart(q, x);
    var a, b, c, d := Round1(q.a, q.b, q.c, q.d, x, q);
    a, b, c, d := Round2(a, b, c, d, x, q);
    a, b, c, d := Round3(a, b, c, d, x, q);
    a, b, c, d := Round4(a, b, c, d, x, q);
    r := Digest(Plus(q.a, a), Plus(q.b, b), Plus(q.c, c), Plus(q.d, d));
  }

  lemma StepsStart(q: Digest, x: seq<bv32>)
    requires |x| == 16
    ensures Steps(q, x, 0) == q
  {
  }
}
