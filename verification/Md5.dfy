/**
 The streaming MD5 of websocketpp/common/md5.hpp: a block buffer and a two-word bit counter
 against the one-shot definition of sections 3.1 to 3.5 of RFC 1321. What is said of
 folding blocks holds of any block function; the object uses that of section 3.4.
 */
module Md5 {
  import opened Bytes
  import opened Md5Block

  const WORD: int := 0x1_0000_0000
  const DWORD: int := 0x1_0000_0000_0000_0000

  type BlockFunction = (Digest, octets) -> Digest

  /** Section 3.4, on blocks of 64 octets. */
  const BLOCK: BlockFunction := (d, s) => if |s| == 64 then Compress(d, s) else d

  // ----- the definition -------------------------------------------------------------------

  const START: Digest := Digest(0x67452301, 0xEFCDAB89, 0x98BADCFE, 0x10325476)

  /** The k low octets of n, least significant first. */
  function LittleEndian(n: nat, k: nat): (s: octets)
    ensures |s| == k
  {
    if k == 0 then [] else [n % 256] + LittleEndian(n / 256, k - 1)
  }

  function Zeros(k: nat): (s: octets)
    ensures |s| == k
  {
    seq(k, i => 0)
  }

  /** Section 3.1: a 1 bit, then 0 bits until eight octets are missing to a block. */
  function Padding(n: nat): (s: octets)
    ensures 1 <= |s| <= 64 && (n + |s|) % 64 == 56
  {
    [0x80] + Zeros((55 - n) % 64)
  }

  /** Sections 3.1 and 3.2: padding and the length in bits. */
  function Padded(m: octets): (s: octets)
    ensures |s| % 64 == 0
  {
    EightMore(|m| + |Padding(|m|)|);
    m + Padding(|m|) + LittleEndian(8 * |m| % DWORD, 8)
  }

  lemma EightMore(n: nat)
    requires n % 64 == 56
    ensures (n + 8) % 64 == 0
  {
  }

  /** Section 3.4: the blocks one after the other. */
  function Fold(f: BlockFunction, d: Digest, m: octets): Digest
    requires |m| % 64 == 0
    decreases |m|
  {
    if m == [] then d else Fold(f, f(d, m[..64]), m[64..])
  }

  function Word(w: bv32): word { w as int }

  function DigestBytes(d: Digest): (s: octets)
    ensures |s| == 16
  {
    LittleEndian(Word(d.a), 4) + LittleEndian(Word(d.b), 4) + LittleEndian(Word(d.c), 4) + LittleEndian(Word(d.d), 4)
  }

  function Hash(f: BlockFunction, m: octets): (s: octets)
    ensures |s| == 16
  {
    DigestBytes(Fold(f, START, Padded(m)))
  }

  // ----- what the definition promises -------------------------------------------------------

  lemma {:induction false} FoldAppend(f: BlockFunction, d: Digest, a: octets, b: octets)
    requires |a| % 64 == 0 && |b| % 64 == 0
    ensures Fold(f, d, a + b) == Fold(f, Fold(f, d, a), b)
    decreases |a|
  {
    if a == [] {
      assert a + b == b;
    } else {
      assert (a + b)[..64] == a[..64] && (a + b)[64..] == a[64..] + b;
      FoldAppend(f, f(d, a[..64]), a[64..], b);
    }
  }

  lemma BlockMore(n: nat)
    requires n % 64 == 0
    ensures (n + 64) % 64 == 0
  {
  }

  lemma FoldBlock(f: BlockFunction, d: Digest, a: octets, block: octets)
    requires |a| % 64 == 0 && |block| == 64
    ensures |a + block| % 64 == 0 && Fold(f, d, a + block) == f(Fold(f, d, a), block)
  {
    BlockMore(|a|);
    assert |a + block| == |a| + 64;
    FoldAppend(f, d, a, block);
    assert block[..64] == block && block[64..] == [];
  }

  function Pow256(k: nat): (r: nat)
    ensures r > 0
  {
    if k == 0 then 1 else 256 * Pow256(k - 1)
  }

  lemma {:induction false} LittleEndianBack(n: nat, k: nat)
    requires n < Pow256(k)
    ensures FromLittleEndian(LittleEndian(n, k)) == n
    decreases k
  {
    if k > 0 {
      LittleEndianBack(n / 256, k - 1);
      var s := LittleEndian(n, k);
      assert s[1..] == LittleEndian(n / 256, k - 1);
    }
  }

  lemma PaddedParts(m: octets)
    requires |m| < 0x2000_0000_0000_0000
    ensures |Padded(m)| >= |m| + 8 && Padded(m)[..|m|] == m
    ensures FromLittleEndian(Padded(m)[|Padded(m)| - 8..]) == 8 * |m|
  {
    hide *;
    ModUnique(8 * |m|, 8 * |m|, 0);
    PaddedIs(m);
    var s, bits := Padded(m), LittleEndian(8 * |m|, 8);
    assert s[|s| - 8..] == bits;
    Pow256Of8();
    LittleEndianBack(8 * |m|, 8);
  }

  lemma PaddedIs(m: octets)
    ensures Padded(m) == m + Padding(|m|) + LittleEndian(8 * |m| % 0x1_0000_0000_0000_0000, 8)
  {
  }

  /** Two messages shorter than 2^61 octets never share a padded form. */
  lemma PaddedInjective(a: octets, b: octets)
    requires |a| < 0x2000_0000_0000_0000 && |b| < 0x2000_0000_0000_0000 && Padded(a) == Padded(b)
    ensures a == b
  {
    hide *;
    PaddedParts(a);
    PaddedParts(b);
  }

  lemma Pow256Of8()
    ensures Pow256(8) == 0x1_0000_0000_0000_0000
  {
    assert Pow256(4) == WORD;
    assert Pow256(8) == 256 * (256 * (256 * (256 * Pow256(4))));
  }

  // ----- the bit counter -----------------------------------------------------------------------

  lemma CountStep(c0: nat, c1: nat, len: nat, n: nat, d0: nat, d1: nat)
    requires c0 < WORD && c1 < WORD && c0 + WORD * c1 == 8 * len % DWORD
    requires d0 == (c0 + 8 * n % WORD) % WORD
    requires d1 == ((c1 + n / 0x2000_0000) % WORD + (if d0 < 8 * n % WORD then 1 else 0)) % WORD
    ensures d0 + WORD * d1 == 8 * (len + n) % DWORD
  {
    var low, high := 8 * n % WORD, n / 0x2000_0000;
    BitsSplit(n);
    var carry := if d0 < low then 1 else 0;
    LowWord(c0, low, d0);
    var q := 8 * len / DWORD;
    var up := c1 + high + carry;
    HighWord(c1 + high, carry, d1);
    Combined(8 * len, 8 * n, c0, c1, q, low, high, d0, d1, carry, up / WORD);
    ModUnique(8 * (len + n), d0 + WORD * d1, q + up / WORD);
  }

  lemma BitsSplit(n: nat)
    ensures 8 * n == 8 * n % 0x1_0000_0000 + 0x1_0000_0000 * (n / 0x2000_0000)
  {
  }

  lemma LowWord(c0: nat, low: nat, d0: nat)
    requires c0 < 0x1_0000_0000 && low < 0x1_0000_0000 && d0 == (c0 + low) % 0x1_0000_0000
    ensures c0 + low == d0 + 0x1_0000_0000 * if d0 < low then 1 else 0
  {
  }

  lemma HighWord(x: nat, carry: nat, d1: nat)
    requires d1 == (x % 0x1_0000_0000 + carry) % 0x1_0000_0000
    ensures x + carry == d1 + 0x1_0000_0000 * ((x + carry) / 0x1_0000_0000)
  {
  }

  lemma Combined(a: nat, b: nat, c0: nat, c1: nat, q: nat, low: nat, high: nat, d0: nat, d1: nat, carry: nat, over: nat)
    requires a == c0 + 0x1_0000_0000 * c1 + 0x1_0000_0000_0000_0000 * q && b == low + 0x1_0000_0000 * high
    requires c0 + low == d0 + 0x1_0000_0000 * carry && c1 + high + carry == d1 + 0x1_0000_0000 * over
    ensures a + b == d0 + 0x1_0000_0000 * d1 + 0x1_0000_0000_0000_0000 * (q + over)
  {
  }

  lemma ModUnique(x: nat, r: nat, q: int)
    requires x == r + 0x1_0000_0000_0000_0000 * q && r < 0x1_0000_0000_0000_0000
    ensures x % 0x1_0000_0000_0000_0000 == r
  {
  }

  lemma OffsetIs(c0: nat, c1: nat, len: nat)
    requires c0 < WORD && c0 + WORD * c1 == 8 * len % DWORD
    ensures (c0 / 8) % 64 == len % 64
  {
    var q := 8 * len / DWORD;
    assert 8 * len == c0 + 8 * (0x2000_0000 * c1 + 0x2000_0000_0000_0000 * q);
    assert len == c0 / 8 + 0x2000_0000 * c1 + 0x2000_0000_0000_0000 * q;
    assert len == c0 / 8 + 64 * (0x80_0000 * c1 + 0x80_0000_0000_0000 * q);
  }

  // ----- md5_state_s and its operations -----------------------------------------------------------

  method CopyBytes(dst: array<octet>, at: nat, src: octets, from: nat, n: nat)
    requires at + n <= dst.Length && from + n <= |src|
    modifies dst
    ensures dst[..at + n] == old(dst[..at]) + src[from..from + n]
  {
    for i := 0 to n
      invariant dst[..at + i] == old(dst[..at]) + src[from..from + i]
    {
      dst[at + i] := src[from + i];
    }
  }

  /** A state that has taken in m: the words count the bits, the buffer holds the last partial block. */
  predicate Tracks(f: BlockFunction, m: octets, count0: word, count1: word, abcd: Digest, part: octets)
  {
    && count0 + WORD * count1 == 8 * |m| % DWORD
    && |part| == |m| % 64 && |part| <= |m|
    && m[|m| - |part|..] == part
    && abcd == Fold(f, START, m[..|m| - |part|])
  }

  lemma TracksParts(f: BlockFunction, m: octets, count0: word, count1: word, abcd: Digest, part: octets)
    requires Tracks(f, m, count0, count1, abcd, part)
    ensures count0 / 8 % 64 == |m| % 64 == |part| <= |m|
    ensures (|m| - |part|) % 64 == 0 && m == m[..|m| - |part|] + part
  {
    OffsetIs(count0, count1, |m|);
    Glue(m, |m| - |part|);
    OnBlock(|m|);
    hide Fold;
  }

  class State {
    var count0: word
    var count1: word
    var abcd: Digest
    const buf: array<octet>
    ghost var msg: octets

    ghost predicate Valid()
      reads this, buf
    {
      buf.Length == 64 && Tracks(BLOCK, msg, count0, count1, abcd, buf[..|msg| % 64])
    }

    /** md5_init */
    constructor ()
      ensures Valid() && fresh(buf) && msg == []
    {
      count0, count1, abcd := 0, 0, START;
      buf := new octet[64];
      msg := [];
    }

    method Process(block: octets)
      requires |block| == 64
      modifies `abcd
      ensures abcd == BLOCK(old(abcd), block)
    {
      hide Compress;
      abcd := Md5Block.Process(abcd, block);
    }

    /** The part of md5_append that updates the length. */
    method Count(nbytes: nat)
      requires count0 + WORD * count1 == 8 * |msg| % DWORD
      modifies `count0, `count1
      ensures count0 + WORD * count1 == 8 * (|msg| + nbytes) % DWORD
    {
      var nbits: word := 8 * nbytes % WORD;
      count1 := (count1 + nbytes / 0x2000_0000) % WORD;
      count0 := (count0 + nbits) % WORD;
      if count0 < nbits {
        count1 := (count1 + 1) % WORD;
      }
      CountStep(old(count0), old(count1), |msg|, nbytes, count0, count1);
    }

    /** The loop over full blocks: p is where it starts in data, and done what came before. */
    method ProcessFull(data: octets, from: nat, ghost done: octets) returns (p: nat)
      requires from <= |data| && |done| % 64 == 0 && abcd == Fold(BLOCK, START, done)
      modifies `abcd
      ensures from <= p <= |data| && |data| - p < 64 && (p - from) % 64 == 0
      ensures |done + data[from..p]| % 64 == 0 && abcd == Fold(BLOCK, START, done + data[from..p])
    {
      hide BLOCK, Fold;
      p := from;
      var left := |data| - from;
      assert done + data[from..p] == done;
      while left >= 64
        invariant from <= p <= |data| && left == |data| - p && (p - from) % 64 == 0
        invariant |done + data[from..p]| % 64 == 0 && abcd == Fold(BLOCK, START, done + data[from..p])
      {
        FoldBlock(BLOCK, START, done + data[from..p], data[p..p + 64]);
        assert done + data[from..p] + data[p..p + 64] == done + data[from..p + 64];
        Process(data[p..p + 64]);
        p, left := p + 64, left - 64;
      }
    }

    /** The initial partial block: copy octets behind the offset that are there already. */
    method FillPartial(data: octets, offset: nat) returns (copy: nat)
      requires buf.Length == 64 && 0 < offset < 64
      modifies `abcd, buf
      ensures copy == (if offset + |data| > 64 then 64 - offset else |data|)
      ensures offset + copy < 64 ==> abcd == old(abcd) && buf[..offset + copy] == old(buf[..offset]) + data
      ensures offset + copy == 64 ==> abcd == BLOCK(old(abcd), old(buf[..offset]) + data[..copy])
    {
      hide *;
      ghost var part := buf[..offset];
      copy := if offset + |data| > 64 then 64 - offset else |data|;
      CopyBytes(buf, offset, data, 0, copy);
      assert data[0..copy] == data[..copy] && (copy == |data| ==> data[..copy] == data);
      if offset + copy < 64 {
        return;
      }
      assert buf[..64] == buf[..] == part + data[..copy];
      Process(buf[..]);
    }

    lemma Unpacked()
      requires Valid()
      ensures buf.Length == 64 && count0 + WORD * count1 == 8 * |msg| % DWORD
      ensures (count0 / 8) % 64 == |msg| % 64 <= |msg|
      ensures var r := |msg| % 64;
              |msg[..|msg| - r]| % 64 == 0 && msg == msg[..|msg| - r] + buf[..r] &&
              abcd == Fold(BLOCK, START, msg[..|msg| - r])
      ensures Tracks(BLOCK, msg, count0, count1, abcd, buf[..|msg| % 64])
    {
      hide Fold;
      TracksParts(BLOCK, msg, count0, count1, abcd, buf[..|msg| % 64]);
    }

    method Append(data: octets)
      requires Valid()
      modifies this, buf
      ensures Valid() && msg == old(msg) + data
    {
      hide *;
      Unpacked();
      if |data| == 0 {
        assert msg + data == msg;
        return;
      }
      var offset := (count0 / 8) % 64;
      ghost var before, part := msg, buf[..offset];
      ghost var head := before[..|before| - offset];
      Count(|data|);
      msg := msg + data;
      var p := 0;
      ghost var done := head;
      if offset != 0 {
        p := FillPartial(data, offset);
        if offset + p < 64 {
          ShortTail(BLOCK, head, part, data, count0, count1, abcd);
          BackInPlace();
          return;
        }
        FoldBlock(BLOCK, START, head, part + data[..p]);
        done := head + (part + data[..p]);
      }
      assert done == before + data[..p];
      AppendBlocks(data, p, before);
    }

    lemma BackInPlace()
      requires buf.Length == 64 && Tracks(BLOCK, msg, count0, count1, abcd, buf[..|msg| % 64])
      ensures Valid()
    {
    }

    /** The rest of md5_append: full blocks from p on, and the last partial one. */
    method AppendBlocks(data: octets, from: nat, ghost before: octets)
      requires buf.Length == 64 && msg == before + data && from <= |data|
      requires count0 + WORD * count1 == 8 * |msg| % DWORD
      requires |before + data[..from]| % 64 == 0 && abcd == Fold(BLOCK, START, before + data[..from])
      modifies `abcd, buf
      ensures Valid()
    {
      hide Fold, Tracks;
      var p := ProcessFull(data, from, before + data[..from]);
      CopyBytes(buf, 0, data, p, |data| - p);
      assert buf[..0] == [] && buf[..|data| - p] == data[p..];
      WholeBlocks(BLOCK, before, data, from, p, count0, count1, abcd);
    }

    /** The first part of md5_finish: the length kept aside, padding, and the length appended. */
    method AppendPadding()
      requires Valid()
      modifies this, buf
      ensures Valid() && msg == Padded(old(msg))
    {
      hide *;
      Unpacked();
      ghost var m := msg;
      CountBytes(count0, count1, |m|);
      PadBytes(|m|, count0);
      var data := PairBytes(count0, count1);
      var pad := [0x80] + Zeros(63);
      Append(pad[..(55 - count0 / 8) % 64 + 1]);
      Append(data);
      PaddedIs(m);
    }

    /** md5_finish: the digest of everything appended, and padding as the last appends. */
    method Finish(digest: array<octet>)
      requires Valid() && digest.Length == 16 && digest != buf
      modifies this, buf, digest
      ensures digest[..] == Hash(BLOCK, old(msg))
      ensures msg == Padded(old(msg))
    {
      AppendPadding();
      hide *;
      Unpacked();
      assert |msg| % 64 == 0 && msg[..|msg|] == msg;
      HashIs(BLOCK, old(msg));
      PutDigest(abcd, digest);
    }
  }

  /** w >> (i << 3) as an octet */
  function WordByte(w: word, i: nat): octet
    requires i < 4
  {
    w / (if i == 0 then 1 else if i == 1 then 0x100 else if i == 2 then 0x1_0000 else 0x100_0000) % 256
  }

  lemma WordBytes(w: word, i: nat)
    requires i < 4
    ensures LittleEndian(w, 4)[i] == WordByte(w, i)
  {
    assert LittleEndian(w, 4) == [w % 256] + LittleEndian(w / 256, 3);
    assert LittleEndian(w / 256, 3) == [w / 256 % 256] + LittleEndian(w / 256 / 256, 2);
    assert LittleEndian(w / 256 / 256, 2) == [w / 256 / 256 % 256] + LittleEndian(w / 256 / 256 / 256, 1);
    assert LittleEndian(w / 256 / 256 / 256, 1)[0] == w / 256 / 256 / 256 % 256;
    assert w / 256 / 256 == w / 0x1_0000 && w / 256 / 256 / 256 == w / 0x100_0000;
  }

  lemma DivStep(a: nat, x: nat)
    ensures (a + 256 * x) % 256 == a % 256 && (a + 256 * x) / 256 == a / 256 + x
  {
  }

  lemma MulStep(p: nat, b: nat)
    ensures (256 * p) * b == 256 * (p * b)
  {
  }

  lemma {:induction false} LittleEndianSplit(a: nat, b: nat, k: nat, j: nat)
    requires a < Pow256(k)
    ensures LittleEndian(a + Pow256(k) * b, k + j) == LittleEndian(a, k) + LittleEndian(b, j)
    decreases k
  {
    if k > 0 {
      var p := Pow256(k - 1);
      MulStep(p, b);
      DivStep(a, p * b);
      var n := a + Pow256(k) * b;
      assert n % 256 == a % 256 && n / 256 == a / 256 + p * b;
      LittleEndianSplit(a / 256, b, k - 1, j);
      hide Pow256;
      LittleEndianCons(n, k + j);
      LittleEndianCons(a, k);
    }
  }

  lemma LittleEndianCons(n: nat, k: nat)
    requires k > 0
    ensures LittleEndian(n, k) == [n % 256] + LittleEndian(n / 256, k - 1)
  {
  }

  /** The loop of md5_finish over the two words of the count. */
  method PairBytes(w0: word, w1: word) returns (s: octets)
    ensures s == LittleEndian(w0, 4) + LittleEndian(w1, 4)
  {
    hide *;
    s := [];
    ghost var all := LittleEndian(w0, 4) + LittleEndian(w1, 4);
    for i := 0 to 8
      invariant s == all[..i]
    {
      var w := if i < 4 then w0 else w1;
      WordBytes(w, i % 4);
      assert all[i] == LittleEndian(w, 4)[i % 4];
      s := s + [WordByte(w, i % 4)];
    }
  }

  lemma CountBytes(c0: word, c1: word, len: nat)
    requires c0 + WORD * c1 == 8 * len % DWORD
    ensures LittleEndian(c0, 4) + LittleEndian(c1, 4) == LittleEndian(8 * len % 0x1_0000_0000_0000_0000, 8)
  {
    assert Pow256(4) == WORD;
    hide LittleEndian, Pow256;
    LittleEndianSplit(c0, c1, 4, 4);
  }

  lemma PadBytes(n: nat, c0: word)
    requires c0 / 8 % 64 == n % 64
    ensures ([0x80] + Zeros(63))[..(55 - c0 / 8) % 64 + 1] == Padding(n)
  {
    assert (55 - c0 / 8) % 64 == (55 - n) % 64;
    FirstZeros((55 - n) % 64);
  }

  lemma FirstZeros(k: nat)
    requires k < 64
    ensures ([0x80] + Zeros(63))[..k + 1] == [0x80] + Zeros(k)
  {
  }

  lemma HashIs(f: BlockFunction, m: octets)
    ensures Hash(f, m) == DigestBytes(Fold(f, START, Padded(m)))
  {
  }

  /** The last loop of md5_finish. */
  method PutDigest(d: Digest, digest: array<octet>)
    requires digest.Length == 16
    modifies digest
    ensures digest[..] == DigestBytes(d)
  {
    hide LittleEndian, WordByte, Word;
    ghost var all := DigestBytes(d);
    for i := 0 to 16
      invariant digest[..i] == all[..i]
    {
      var w := Word(if i < 4 then d.a else if i < 8 then d.b else if i < 12 then d.c else d.d);
      WordBytes(w, i % 4);
      digest[i] := WordByte(w, i % 4);
      assert all[i] == LittleEndian(w, 4)[i % 4];
    }
  }

  /** Any split of a message into appends gives the MD5 digest of the whole. */
  method HashChunks(chunks: seq<octets>) returns (digest: octets)
    ensures digest == Hash(BLOCK, Flatten(chunks))
  {
    hide BLOCK;
    var pms := new State();
    for i := 0 to |chunks|
      invariant pms.Valid() && fresh(pms) && fresh(pms.buf) && pms.msg == Flatten(chunks[..i])
    {
      assert chunks[..i + 1] == chunks[..i] + [chunks[i]];
      FlattenSnoc(chunks[..i], chunks[i]);
      pms.Append(chunks[i]);
    }
    assert chunks[..|chunks|] == chunks;
    var out := new octet[16];
    pms.Finish(out);
    digest := out[..];
  }

  lemma ShortTail(f: BlockFunction, head: octets, part: octets, data: octets, count0: word, count1: word, abcd: Digest)
    requires |head| % 64 == 0 && |part| + |data| < 64 && abcd == Fold(f, START, head)
    requires count0 + WORD * count1 == 8 * |head + part + data| % DWORD
    ensures |head + part + data| % 64 == |part + data|
    ensures Tracks(f, head + part + data, count0, count1, abcd, part + data)
  {
    hide *;
    assert head + part + data == head + (part + data);
    TracksIntro(f, head, part + data, count0, count1, abcd);
  }

  lemma WholeBlocks(f: BlockFunction, before: octets, data: octets, from: nat, p: nat, count0: word, count1: word, abcd: Digest)
    requires from <= p <= |data| && |data| - p < 64
    requires |before + data[..from] + data[from..p]| % 64 == 0
    requires abcd == Fold(f, START, before + data[..from] + data[from..p])
    requires count0 + WORD * count1 == 8 * |before + data| % DWORD
    ensures |before + data| % 64 == |data| - p
    ensures Tracks(f, before + data, count0, count1, abcd, data[p..])
  {
    hide *;
    var done, part := before + data[..from] + data[from..p], data[p..];
    assert before + data == done + part;
    TracksIntro(f, done, part, count0, count1, abcd);
  }

  lemma TracksIntro(f: BlockFunction, done: octets, part: octets, count0: word, count1: word, abcd: Digest)
    requires |done| % 64 == 0 && |part| < 64 && abcd == Fold(f, START, done)
    requires count0 + WORD * count1 == 8 * |done + part| % DWORD
    ensures |done + part| % 64 == |part| && Tracks(f, done + part, count0, count1, abcd, part)
  {
    RestOfBlock(|done|, |part|);
    Pieces(done, part);
    hide Fold;
  }

  lemma OnBlock(n: nat)
    ensures (n - n % 64) % 64 == 0
  {
  }

  lemma Glue<T>(s: seq<T>, k: nat)
    requires k <= |s|
    ensures s == s[..k] + s[k..]
  {
  }

  lemma RestOfBlock(a: nat, b: nat)
    requires a % 64 == 0 && b < 64
    ensures (a + b) % 64 == b
  {
  }

  lemma Pieces<T>(a: seq<T>, b: seq<T>)
    ensures (a + b)[..|a + b| - |b|] == a && (a + b)[|a + b| - |b|..] == b
  {
  }
}
