/**
 Masking by bytes and by 64-bit words (websocketpp/frame.hpp), on machines of either byte
 order. Everything is compared with section 5.3 of RFC 6455: octet i of the payload is
 xored with octet i mod 4 of the key.
 */
module FrameMask {
  import opened Bytes
  import opened Words

  /** Section 5.3 of RFC 6455, for a payload that starts off bytes into the message. */
  function Masked(key: bytes, s: bytes, off: nat): (r: bytes)
    requires |key| == 4
    ensures |r| == |s|
  {
    seq(|s|, i requires 0 <= i < |s| => XorByte(s[i], key[(off + i) % 4]))
  }

  lemma MaskedAppend(key: bytes, a: bytes, b: bytes, off: nat)
    requires |key| == 4
    ensures Masked(key, a + b, off) == Masked(key, a, off) + Masked(key, b, off + |a|)
  {
    hide XorByte;
  }

  lemma XorTwice(a: byte, b: byte)
    ensures XorByte(XorByte(a, b), b) == a
  {
  }

  lemma MaskedTwice(key: bytes, s: bytes, off: nat)
    requires |key| == 4
    ensures Masked(key, Masked(key, s, off), off) == s
  {
    hide XorByte;
    forall i | 0 <= i < |s| ensures Masked(key, Masked(key, s, off), off)[i] == s[i] {
      XorTwice(s[i], key[(off + i) % 4]);
    }
  }

  /** Octet i of the message xored with octet i modulo 4 of the key. */
  lemma MaskedIs(key: bytes, s: bytes, off: nat, i: nat)
    requires |key| == 4 && i < |s|
    ensures Masked(key, s, off)[i] == s[i] ^ key[(off + i) % 4]
  {
  }

  /** The masked "Hello" of section 5.7. */
  lemma MaskedHello()
    ensures Masked([0x37, 0xFA, 0x21, 0x3D], [0x48, 0x65, 0x6C, 0x6C, 0x6F], 0) == [0x7F, 0x9F, 0x4D, 0x51, 0x58]
  {
  }

  // ----- prepared keys -------------------------------------------------------------------

  /** The bytes of w in memory are the key from its byte off on, over and over. */
  predicate Prepared(big: bool, w: word, key: bytes, off: nat)
    requires |key| == 4
  {
    forall k :: 0 <= k < 8 ==> ByteAt(big, w, k) == key[(off + k) % 4]
  }

  function KeyBytes(a: byte, b: byte, c: byte, d: byte): bv32 {
    a as bv32 | (b as bv32 << 8) | (c as bv32 << 16) | (d as bv32 << 24)
  }

  /** uint32_converter: the four bytes of a key as an integer. */
  function KeyInt(big: bool, key: bytes): bv32
    requires |key| == 4
  {
    if big then KeyBytes(key[3], key[2], key[1], key[0]) else KeyBytes(key[0], key[1], key[2], key[3])
  }

  function Doubled(lowBits: word): word {
    (lowBits << 32) | lowBits
  }

  /** prepare_masking_key */
  function PrepareKey(big: bool, key: bytes): word
    requires |key| == 4
  {
    Doubled(KeyInt(big, key) as word)
  }

  lemma PrepareKeyIsPrepared(big: bool, key: bytes)
    requires |key| == 4
    ensures Prepared(big, PrepareKey(big, key), key, 0)
  {
    hide LowByte, PrepareKey;
    forall k | 0 <= k < 8 ensures ByteAt(big, PrepareKey(big, key), k) == key[k % 4] {
      KeyLow(big, key, if big then 7 - k else k);
    }
  }

  lemma KeyLow(big: bool, key: bytes, k: nat)
    requires |key| == 4 && k < 8
    ensures LowByte(PrepareKey(big, key), k) == key[if big then 3 - k % 4 else k % 4]
  {
    hide *;
    KeyIntIs(big, key);
    if big {
      KeyPack(key[3], key[2], key[1], key[0], k);
    } else {
      KeyPack(key[0], key[1], key[2], key[3], k);
    }
  }

  lemma KeyIntIs(big: bool, key: bytes)
    requires |key| == 4
    ensures big ==> PrepareKey(big, key) == Doubled(KeyBytes(key[3], key[2], key[1], key[0]) as word)
    ensures !big ==> PrepareKey(big, key) == Doubled(KeyBytes(key[0], key[1], key[2], key[3]) as word)
  {
    hide KeyBytes, Doubled;
  }

  lemma KeyPack(a: byte, b: byte, c: byte, d: byte, k: nat)
    requires k < 8
    ensures LowByte(Doubled(KeyBytes(a, b, c, d) as word), k) == [a, b, c, d][k % 4]
  {
    hide *;
    KeyPacked(a, b, c, d);
  }

  lemma KeyPacked(a: byte, b: byte, c: byte, d: byte)
    ensures var w := Doubled(KeyBytes(a, b, c, d) as word);
            LowByte(w, 0) == a && LowByte(w, 1) == b && LowByte(w, 2) == c && LowByte(w, 3) == d &&
            LowByte(w, 4) == a && LowByte(w, 5) == b && LowByte(w, 6) == c && LowByte(w, 7) == d
  {
  }

  /** w >> 8 * offset, byte by byte */
  function ShiftRight(w: word, offset: nat): word {
    if offset == 0 then w else ShiftRight(w, offset - 1) >> 8
  }

  /** w << 8 * offset, byte by byte */
  function ShiftLeft(w: word, offset: nat): word {
    if offset == 0 then w else ShiftLeft(w, offset - 1) << 8
  }

  function Or(v: word, w: word): word { v | w }

  /** circshift_prepared_key */
  function Circshift(big: bool, w: word, offset: nat): word
    requires offset < 8
  {
    if offset == 0 then w
    else if !big then Or(ShiftRight(w, offset), ShiftLeft(w, 8 - offset))
    else Or(ShiftLeft(w, offset), ShiftRight(w, 8 - offset))
  }

  lemma LowOfRight(w: word)
    ensures ((w >> 8) >> 8) & 0xFF == (w >> 16) & 0xFF && ((w >> 8) >> 16) & 0xFF == (w >> 24) & 0xFF
    ensures ((w >> 8) >> 24) & 0xFF == (w >> 32) & 0xFF && ((w >> 8) >> 32) & 0xFF == (w >> 40) & 0xFF
    ensures ((w >> 8) >> 40) & 0xFF == (w >> 48) & 0xFF && ((w >> 8) >> 48) & 0xFF == (w >> 56) & 0xFF
    ensures ((w >> 8) >> 56) & 0xFF == 0
  {
  }

  lemma LowOfLeft(w: word)
    ensures (w << 8) & 0xFF == 0 && ((w << 8) >> 8) & 0xFF == w & 0xFF
    ensures ((w << 8) >> 16) & 0xFF == (w >> 8) & 0xFF && ((w << 8) >> 24) & 0xFF == (w >> 16) & 0xFF
    ensures ((w << 8) >> 32) & 0xFF == (w >> 24) & 0xFF && ((w << 8) >> 40) & 0xFF == (w >> 32) & 0xFF
    ensures ((w << 8) >> 48) & 0xFF == (w >> 40) & 0xFF && ((w << 8) >> 56) & 0xFF == (w >> 48) & 0xFF
  {
  }

  lemma OrShifts(v: word, w: word)
    ensures (v | w) >> 8 == (v >> 8) | (w >> 8) && (v | w) >> 16 == (v >> 16) | (w >> 16)
    ensures (v | w) >> 24 == (v >> 24) | (w >> 24) && (v | w) >> 32 == (v >> 32) | (w >> 32)
    ensures (v | w) >> 40 == (v >> 40) | (w >> 40) && (v | w) >> 48 == (v >> 48) | (w >> 48)
    ensures (v | w) >> 56 == (v >> 56) | (w >> 56)
  {
  }

  lemma OrLast(v: word, w: word)
    ensures ((v | w) & 0xFF) as byte == (v & 0xFF) as byte | (w & 0xFF) as byte
  {
  }

  lemma OrLow(v: word, w: word, k: nat)
    requires k < 8
    ensures LowByte(Or(v, w), k) == LowByte(v, k) | LowByte(w, k)
  {
    OrShifts(v, w);
    match k
    case 0 => OrLast(v, w);
    case 1 => OrLast(v >> 8, w >> 8);
    case 2 => OrLast(v >> 16, w >> 16);
    case 3 => OrLast(v >> 24, w >> 24);
    case 4 => OrLast(v >> 32, w >> 32);
    case 5 => OrLast(v >> 40, w >> 40);
    case 6 => OrLast(v >> 48, w >> 48);
    case 7 => OrLast(v >> 56, w >> 56);
  }

  /** One byte further right, and one byte further left. */
  lemma RightByte(w: word, k: nat)
    requires k < 8
    ensures LowByte(w >> 8, k) == if k < 7 then LowByte(w, k + 1) else 0
  {
    LowOfRight(w);
  }

  lemma LeftByte(w: word, k: nat)
    requires k < 8
    ensures LowByte(w << 8, k) == if k > 0 then LowByte(w, k - 1) else 0
  {
    LowOfLeft(w);
  }

  lemma {:induction false} RightBytes(w: word, offset: nat, k: nat)
    requires offset < 8 && k < 8
    ensures LowByte(ShiftRight(w, offset), k) == if k + offset < 8 then LowByte(w, k + offset) else 0
    decreases offset
  {
    hide LowByte;
    if offset > 0 {
      RightByte(ShiftRight(w, offset - 1), k);
      if k < 7 {
        RightBytes(w, offset - 1, k + 1);
      }
    }
  }

  lemma {:induction false} LeftBytes(w: word, offset: nat, k: nat)
    requires offset < 8 && k < 8
    ensures LowByte(ShiftLeft(w, offset), k) == if k >= offset then LowByte(w, k - offset) else 0
    decreases offset
  {
    hide LowByte;
    if offset > 0 {
      LeftByte(ShiftLeft(w, offset - 1), k);
      if k > 0 {
        LeftBytes(w, offset - 1, k - 1);
      }
    }
  }

  lemma OrZero(a: byte)
    ensures a | 0 == a && 0 | a == a
  {
  }

  lemma RotateRight(w: word, offset: nat, k: nat)
    requires 0 < offset < 8 && k < 8
    ensures LowByte(Or(ShiftRight(w, offset), ShiftLeft(w, 8 - offset)), k) ==
      LowByte(w, if k + offset < 8 then k + offset else k + offset - 8)
  {
    hide *;
    OrLow(ShiftRight(w, offset), ShiftLeft(w, 8 - offset), k);
    RightBytes(w, offset, k);
    LeftBytes(w, 8 - offset, k);
    OrZero(LowByte(w, if k + offset < 8 then k + offset else k + offset - 8));
  }

  lemma RotateLeft(w: word, offset: nat, k: nat)
    requires 0 < offset < 8 && k < 8
    ensures LowByte(Or(ShiftLeft(w, offset), ShiftRight(w, 8 - offset)), k) ==
      LowByte(w, if k < offset then k + 8 - offset else k - offset)
  {
    hide *;
    OrLow(ShiftLeft(w, offset), ShiftRight(w, 8 - offset), k);
    RightBytes(w, 8 - offset, k);
    LeftBytes(w, offset, k);
    OrZero(LowByte(w, if k < offset then k + 8 - offset else k - offset));
  }

  /** The bytes in memory move to the front by offset, those in front to the back. */
  lemma CircshiftRotates(big: bool, w: word, offset: nat, k: nat)
    requires offset < 8 && k < 8
    ensures ByteAt(big, Circshift(big, w, offset), k) == ByteAt(big, w, (k + offset) % 8)
  {
    hide LowByte, ShiftLeft, ShiftRight;
    if offset == 0 {
    } else if big {
      RotateLeft(w, offset, 7 - k);
    } else {
      RotateRight(w, offset, k);
    }
  }

  lemma Around(off: nat, x: nat)
    requires x < 16
    ensures (off + x % 8) % 4 == (off + x) % 4
  {
    if x >= 8 {
      assert x % 8 == x - 8 && off + x == off + (x - 8) + 4 * 2;
    }
  }

  lemma CircshiftIsPrepared(big: bool, w: word, key: bytes, off: nat, offset: nat)
    requires |key| == 4 && offset < 8 && Prepared(big, w, key, off)
    ensures Prepared(big, Circshift(big, w, offset), key, off + offset)
  {
    hide Circshift, ByteAt;
    forall k | 0 <= k < 8 ensures ByteAt(big, Circshift(big, w, offset), k) == key[(off + offset + k) % 4] {
      CircshiftByte(big, w, key, off, offset, k);
    }
  }

  lemma CircshiftByte(big: bool, w: word, key: bytes, off: nat, offset: nat, k: nat)
    requires |key| == 4 && offset < 8 && Prepared(big, w, key, off) && k < 8
    ensures ByteAt(big, Circshift(big, w, offset), k) == key[(off + offset + k) % 4]
  {
    hide *;
    CircshiftRotates(big, w, offset, k);
    PreparedAt(big, w, key, off, (k + offset) % 8);
    Around(off, k + offset);
    assert off + (k + offset) == off + offset + k;
  }

  // ----- the masking loops ----------------------------------------------------------------------

  lemma MaskedWord(big: bool, s: bytes, w: word, key: bytes, off: nat)
    requires |s| == 8 && |key| == 4 && Prepared(big, w, key, off)
    ensures ToMemory(big, Xor(FromMemory(big, s), w)) == Masked(key, s, off)
  {
    hide *;
    var x := Xor(FromMemory(big, s), w);
    forall k | 0 <= k < 8 ensures ToMemory(big, x)[k] == Masked(key, s, off)[k] {
      MemoryAt(big, x, k);
      XorBytes(big, FromMemory(big, s), w, k);
      MemoryBack(big, s, k);
      PreparedAt(big, w, key, off, k);
      MaskedAt(key, s, off, k);
    }
    SameElements(ToMemory(big, x), Masked(key, s, off));
  }

  lemma PreparedAt(big: bool, w: word, key: bytes, off: nat, k: nat)
    requires |key| == 4 && Prepared(big, w, key, off) && k < 8
    ensures ByteAt(big, w, k) == key[(off + k) % 4]
  {
    hide ByteAt;
  }

  lemma MaskedAt(key: bytes, s: bytes, off: nat, k: nat)
    requires |key| == 4 && k < |s|
    ensures Masked(key, s, off)[k] == XorByte(s[k], key[(off + k) % 4])
  {
    hide XorByte;
  }

  lemma SameElements<T>(a: seq<T>, b: seq<T>)
    requires |a| == |b| && forall k :: 0 <= k < |a| ==> a[k] == b[k]
    ensures a == b
  {
  }

  /** A write of s over the elements at at; other may be the same buffer. */
  method Poke<T>(a: array<T>, at: nat, s: seq<T>, ghost other: array<T>)
    requires at + |s| <= a.Length
    modifies a
    ensures a[..] == old(a[..at]) + s + old(a[at + |s|..])
    ensures at + |s| <= other.Length ==> other[at + |s|..] == old(other[at + |s|..])
  {
    for k := 0 to |s|
      invariant a[..] == old(a[..at]) + s[..k] + old(a[at + k..])
    {
      a[at + k] := s[k];
    }
  }

  /** A write behind what is done is a longer done. */
  lemma Extend<T>(a: seq<T>, before: seq<T>, done: seq<T>, s: seq<T>)
    requires |done| + |s| <= |before| && a == done + before[|done|..]
    ensures a[..|done|] + s + a[|done| + |s|..] == (done + s) + before[|done| + |s|..]
  {
  }

  method LoadWord(big: bool, a: array<byte>, at: nat) returns (w: word)
    requires at + 8 <= a.Length
    ensures w == FromMemory(big, a[at..at + 8])
  {
    w := FromMemory(big, a[at..at + 8]);
  }

  method StoreWord(big: bool, a: array<byte>, at: nat, w: word, ghost other: array<byte>)
    requires at + 8 <= a.Length
    modifies a
    ensures a[..] == old(a[..at]) + ToMemory(big, w) + old(a[at + 8..])
    ensures at + 8 <= other.Length ==> other[at + 8..] == old(other[at + 8..])
  {
    Poke(a, at, ToMemory(big, w), other);
  }

  /** What every loop below writes: its first length bytes masked, the others untouched. */
  predicate MasksTo(input: bytes, before: bytes, after: bytes, length: nat, key: bytes, off: nat)
    requires |key| == 4 && length <= |input|
  {
    length <= |before| && after == Masked(key, input[..length], off) + before[length..]
  }

  lemma MasksNone(input: bytes, before: bytes, key: bytes, off: nat)
    requires |key| == 4
    ensures MasksTo(input, before, before, 0, key, off)
  {
  }

  /** The next n bytes masked and written behind those that are. */
  lemma MasksMore(input: bytes, before: bytes, now: bytes, after: bytes, i: nat, n: nat, key: bytes, off: nat)
    requires |key| == 4 && i + n <= |input| && i + n <= |before| == |now| && MasksTo(input, before, now, i, key, off)
    requires after == now[..i] + Masked(key, input[i..i + n], off + i) + now[i + n..]
    ensures MasksTo(input, before, after, i + n, key, off)
  {
    hide Masked;
    var done, s := Masked(key, input[..i], off), Masked(key, input[i..i + n], off + i);
    assert input[..i + n] == input[..i] + input[i..i + n];
    MaskedAppend(key, input[..i], input[i..i + n], off);
    Extend(now, before, done, s);
  }

  /** One byte masked. */
  lemma MaskedByte(key: bytes, s: bytes, i: nat, off: nat)
    requires |key| == 4 && i < |s|
    ensures Masked(key, s[i..i + 1], off) == [XorByte(s[i], key[off % 4])]
  {
    hide XorByte;
  }

  lemma Next<T>(a: seq<T>, orig: seq<T>, i: nat, n: nat)
    requires 0 < n && i + n <= |a| == |orig| && a[i..] == orig[i..]
    ensures a[i] == orig[i] && a[i..i + n] == orig[i..i + n] && a[i + n..] == orig[i + n..]
    ensures n == 1 ==> orig[i..i + n] == [orig[i]]
  {
    assert a[i] == a[i..][0] && a[i..i + n] == a[i..][..n] && a[i + n..] == a[i..][n..];
    assert orig[i] == orig[i..][0] && orig[i..i + n] == orig[i..][..n] && orig[i + n..] == orig[i..][n..];
  }

  /** output[i] = input[i] ^ k, where k is the byte of the key for position i. */
  method XorOne(input: array<byte>, output: array<byte>, i: nat, k: byte,
                ghost orig: bytes, ghost before: bytes, ghost key: bytes, ghost off: nat)
    requires i < input.Length == |orig| && i < output.Length == |before| && |key| == 4 && k == key[(off + i) % 4]
    requires input[i..] == orig[i..] && MasksTo(orig, before, output[..], i, key, off)
    modifies output
    ensures input[i + 1..] == orig[i + 1..] && MasksTo(orig, before, output[..], i + 1, key, off)
  {
    hide *;
    ghost var now := output[..];
    Next(input[..], orig, i, 1);
    MaskedByte(key, orig, i, off + i);
    var masked := [XorByte(input[i], k)];
    assert masked == Masked(key, orig[i..i + 1], off + i);
    Poke(output, i, masked, input);
    MasksMore(orig, before, now, output[..], i, 1, key, off);
  }

  lemma NextIndex(n: nat)
    ensures (n % 4 + 1) % 4 == (n + 1) % 4
  {
  }

  /** byte_mask, on an input and an output that may be the same buffer. */
  method ByteMask(input: array<byte>, output: array<byte>, length: nat, key: bytes, keyOffset: nat)
    requires length <= input.Length && length <= output.Length && |key| == 4
    modifies output
    ensures MasksTo(old(input[..]), old(output[..]), output[..], length, key, keyOffset)
  {
    hide *;
    var keyIndex, i := keyOffset % 4, 0;
    ghost var orig, before := input[..], output[..];
    MasksNone(orig, before, key, keyOffset);
    while i != length
      invariant i <= length && keyIndex == (keyOffset + i) % 4
      invariant input[i..] == orig[i..]
      invariant MasksTo(orig, before, output[..], i, key, keyOffset)
    {
      XorOne(input, output, i, key[keyIndex], orig, before, key, keyOffset);
      NextIndex(keyOffset + i);
      keyIndex := (keyIndex + 1) % 4;
      i := i + 1;
    }
  }

  /** One word of input xored into output, i bytes from the start. */
  method XorWord(big: bool, input: array<byte>, output: array<byte>, i: nat, preparedKey: word,
                 ghost orig: bytes, ghost before: bytes, ghost key: bytes, ghost off: nat)
    requires i + 8 <= input.Length == |orig| && i + 8 <= output.Length == |before|
    requires |key| == 4 && Prepared(big, preparedKey, key, off + i)
    requires input[i..] == orig[i..] && MasksTo(orig, before, output[..], i, key, off)
    modifies output
    ensures input[i + 8..] == orig[i + 8..] && MasksTo(orig, before, output[..], i + 8, key, off)
  {
    hide *;
    ghost var now := output[..];
    Next(input[..], orig, i, 8);
    var w := LoadWord(big, input, i);
    ghost var s := orig[i..i + 8];
    assert input[i..i + 8] == s;
    var x := Xor(w, preparedKey);
    MaskedWord(big, s, preparedKey, key, off + i);
    StoreWord(big, output, i, x, input);
    MasksMore(orig, before, now, output[..], i, 8, key, off);
  }

  /** The loop over whole words, output_word[i] = input_word[i] ^ prepared_key. */
  method MaskWords(big: bool, input: array<byte>, output: array<byte>, n: nat, preparedKey: word,
                   ghost key: bytes, ghost off: nat)
    requires 8 * n <= input.Length && 8 * n <= output.Length && |key| == 4 && Prepared(big, preparedKey, key, off)
    modifies output
    ensures input[8 * n..] == old(input[8 * n..])
    ensures MasksTo(old(input[..]), old(output[..]), output[..], 8 * n, key, off)
  {
    hide *;
    ghost var orig, before := input[..], output[..];
    MasksNone(orig, before, key, off);
    for i := 0 to n
      invariant input[8 * i..] == orig[8 * i..]
      invariant MasksTo(orig, before, output[..], 8 * i, key, off)
    {
      PreparedLater(big, preparedKey, key, off, 8 * i);
      XorWord(big, input, output, 8 * i, preparedKey, orig, before, key, off);
    }
  }

  lemma PreparedLater(big: bool, w: word, key: bytes, off: nat, n: nat)
    requires |key| == 4 && Prepared(big, w, key, off) && n % 4 == 0
    ensures Prepared(big, w, key, off + n)
  {
    hide ByteAt;
    forall k | 0 <= k < 8 ensures ByteAt(big, w, k) == key[(off + n + k) % 4] {
      assert (off + n + k) % 4 == (off + k) % 4;
    }
  }

  /** word_mask_exact */
  method WordMaskExact(big: bool, input: array<byte>, output: array<byte>, length: nat, key: bytes)
    requires length <= input.Length && length <= output.Length && |key| == 4
    modifies output
    ensures MasksTo(old(input[..]), old(output[..]), output[..], length, key, 0)
  {
    hide *;
    ghost var orig, before := input[..], output[..];
    var preparedKey := PrepareKey(big, key);
    PrepareKeyIsPrepared(big, key);
    var n := length / 8;
    MaskWords(big, input, output, n, preparedKey, key, 0);
    MasksLength(orig, before, output[..], 8 * n, key, 0);
    for i := 8 * n to length
      invariant output.Length == |before| && input[i..] == orig[i..] && MasksTo(orig, before, output[..], i, key, 0)
    {
      XorOne(input, output, i, key[i % 4], orig, before, key, 0);
    }
  }

  lemma MasksLength(input: bytes, before: bytes, after: bytes, length: nat, key: bytes, off: nat)
    requires |key| == 4 && length <= |input| && MasksTo(input, before, after, length, key, off)
    ensures |after| == |before|
  {
  }

  /**
   word_mask_circ: length bytes are masked and no other byte is written, and the key comes
   back turned to where the next call goes on.
   */
  method WordMaskCirc(big: bool, input: array<byte>, output: array<byte>, length: nat, preparedKey: word,
                      ghost key: bytes, ghost off: nat) returns (next: word)
    requires length <= input.Length && length <= output.Length && |key| == 4 && Prepared(big, preparedKey, key, off)
    modifies output
    ensures MasksTo(old(input[..]), old(output[..]), output[..], length, key, off)
    ensures Prepared(big, next, key, off + length)
  {
    hide *;
    ghost var orig, before := input[..], output[..];
    var n := length / 8;
    var l := length - 8 * n;
    MaskWords(big, input, output, n, preparedKey, key, off);
    PreparedLater(big, preparedKey, key, off, 8 * n);
    var start := length - l;
    for i := 0 to l
      invariant input[start + i..] == orig[start + i..] && MasksTo(orig, before, output[..], start + i, key, off)
    {
      PreparedAt(big, preparedKey, key, off + 8 * n, i);
      XorOne(input, output, start + i, ByteAt(big, preparedKey, i), orig, before, key, off);
    }
    next := Circshift(big, preparedKey, l);
    CircshiftIsPrepared(big, preparedKey, key, off + 8 * n, l);
  }

  /** key.c after key.i = prepared_key: a byte of the low half of the word. */
  function HalfByte(big: bool, w: word, k: nat): byte
    requires k < 4
  {
    LowByte(w, if big then 3 - k else k)
  }

  lemma HalfIsPrepared(big: bool, w: word, key: bytes, off: nat, i: nat)
    requires |key| == 4 && Prepared(big, w, key, off)
    ensures HalfByte(big, w, i % 4) == key[(off + i) % 4]
  {
    hide LowByte;
    var k := if big then 4 + i % 4 else i % 4;
    assert ByteAt(big, w, k) == key[(off + k) % 4];
    assert (off + k) % 4 == (off + i) % 4;
  }

  /** byte_mask_circ */
  method ByteMaskCirc(big: bool, input: array<byte>, output: array<byte>, length: nat, preparedKey: word,
                      ghost key: bytes, ghost off: nat) returns (next: word)
    requires length <= input.Length && length <= output.Length && |key| == 4 && Prepared(big, preparedKey, key, off)
    modifies output
    ensures MasksTo(old(input[..]), old(output[..]), output[..], length, key, off)
    ensures Prepared(big, next, key, off + length)
  {
    hide *;
    ghost var orig, before := input[..], output[..];
    MasksNone(orig, before, key, off);
    for i := 0 to length
      invariant input[i..] == orig[i..] && MasksTo(orig, before, output[..], i, key, off)
    {
      HalfIsPrepared(big, preparedKey, key, off, i);
      XorOne(input, output, i, HalfByte(big, preparedKey, i % 4), orig, before, key, off);
    }
    next := Circshift(big, preparedKey, length % 4);
    CircshiftIsPrepared(big, preparedKey, key, off, length % 4);
    PreparedLater(big, next, key, off + length % 4, length - length % 4);
  }

  // ----- streams ---------------------------------------------------------------------------------

  /**
   A message masked in place chunk by chunk, by words or by bytes as it comes, the key of each
   call fed into the next.
   */
  method MaskChunks(big: bool, key: bytes, chunks: seq<bytes>, byWords: seq<bool>) returns (masked: seq<bytes>)
    requires |key| == 4 && |byWords| == |chunks|
    ensures Flatten(masked) == Masked(key, Flatten(chunks), 0)
  {
    hide *;
    masked := [];
    var preparedKey := PrepareKey(big, key);
    PrepareKeyIsPrepared(big, key);
    NothingMasked(key);
    for i := 0 to |chunks|
      invariant Flatten(masked) == Masked(key, Flatten(chunks[..i]), 0)
      invariant Prepared(big, preparedKey, key, |Flatten(chunks[..i])|)
    {
      var chunk := chunks[i];
      ghost var done := Flatten(chunks[..i]);
      assert chunks[..i + 1] == chunks[..i] + [chunk];
      FlattenSnoc(chunks[..i], chunk);
      MaskedAppend(key, done, chunk, 0);
      var data := new byte[|chunk|](k requires 0 <= k < |chunk| => chunk[k]);
      assert data[..] == chunk;
      if byWords[i] {
        preparedKey := WordMaskCirc(big, data, data, |chunk|, preparedKey, key, |done|);
      } else {
        preparedKey := ByteMaskCirc(big, data, data, |chunk|, preparedKey, key, |done|);
      }
      WholeChunk(chunk, data[..], key, |done|);
      FlattenSnoc(masked, data[..]);
      masked := masked + [data[..]];
    }
    assert chunks[..|chunks|] == chunks;
  }

  lemma NothingMasked(key: bytes)
    requires |key| == 4
    ensures Flatten<byte>([]) == [] && Masked(key, [], 0) == []
  {
  }

  lemma WholeChunk(chunk: bytes, after: bytes, key: bytes, off: nat)
    requires |key| == 4 && MasksTo(chunk, chunk, after, |chunk|, key, off)
    ensures after == Masked(key, chunk, off)
  {
    hide Masked;
    assert chunk[..|chunk|] == chunk && chunk[|chunk|..] == [];
  }
}
