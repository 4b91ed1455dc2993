/** 64-bit machine words in memory, on either byte order (websocketpp/common/network.hpp). */
module Words {
  import opened Bytes

  type word = bv64

  /** The byte of a word that counts 8 * k bits from the low end. */
  function LowByte(w: word, k: nat): byte
    requires k < 8
  {
    match k
    case 0 => (w & 0xFF) as byte
    case 1 => ((w >> 8) & 0xFF) as byte
    case 2 => ((w >> 16) & 0xFF) as byte
    case 3 => ((w >> 24) & 0xFF) as byte
    case 4 => ((w >> 32) & 0xFF) as byte
    case 5 => ((w >> 40) & 0xFF) as byte
    case 6 => ((w >> 48) & 0xFF) as byte
    case 7 => ((w >> 56) & 0xFF) as byte
  }

  /** The k-th byte of a word in the memory of a big-endian or little-endian machine. */
  function ByteAt(big: bool, w: word, k: nat): byte
    requires k < 8
  {
    LowByte(w, if big then 7 - k else k)
  }

  function Pack(b0: byte, b1: byte, b2: byte, b3: byte, b4: byte, b5: byte, b6: byte, b7: byte): word
  {
    b0 as word | (b1 as word << 8) | (b2 as word << 16) | (b3 as word << 24) |
    (b4 as word << 32) | (b5 as word << 40) | (b6 as word << 48) | (b7 as word << 56)
  }

  /** The word that eight bytes of memory are. */
  function FromMemory(big: bool, s: bytes): word
    requires |s| == 8
  {
    if big then Pack(s[7], s[6], s[5], s[4], s[3], s[2], s[1], s[0])
    else Pack(s[0], s[1], s[2], s[3], s[4], s[5], s[6], s[7])
  }

  function ToMemory(big: bool, w: word): (s: bytes)
    ensures |s| == 8
  {
    [ByteAt(big, w, 0), ByteAt(big, w, 1), ByteAt(big, w, 2), ByteAt(big, w, 3),
     ByteAt(big, w, 4), ByteAt(big, w, 5), ByteAt(big, w, 6), ByteAt(big, w, 7)]
  }

  lemma MemoryAt(big: bool, w: word, k: nat)
    requires k < 8
    ensures ToMemory(big, w)[k] == ByteAt(big, w, k)
  {
    hide ByteAt;
  }

  lemma LowByteOfPack(b0: byte, b1: byte, b2: byte, b3: byte, b4: byte, b5: byte, b6: byte, b7: byte)
    ensures var w := Pack(b0, b1, b2, b3, b4, b5, b6, b7);
            LowByte(w, 0) == b0 && LowByte(w, 1) == b1 && LowByte(w, 2) == b2 && LowByte(w, 3) == b3 &&
            LowByte(w, 4) == b4 && LowByte(w, 5) == b5 && LowByte(w, 6) == b6 && LowByte(w, 7) == b7
  {
  }

  lemma PackOfLowBytes(w: word)
    ensures Pack(LowByte(w, 0), LowByte(w, 1), LowByte(w, 2), LowByte(w, 3),
                 LowByte(w, 4), LowByte(w, 5), LowByte(w, 6), LowByte(w, 7)) == w
  {
  }

  lemma MemoryBack(big: bool, s: bytes, k: nat)
    requires |s| == 8 && k < 8
    ensures ByteAt(big, FromMemory(big, s), k) == s[k]
  {
    hide Pack, LowByte;
    if big {
      LowByteOfPack(s[7], s[6], s[5], s[4], s[3], s[2], s[1], s[0]);
    } else {
      LowByteOfPack(s[0], s[1], s[2], s[3], s[4], s[5], s[6], s[7]);
    }
  }

  lemma WordBack(big: bool, w: word)
    ensures FromMemory(big, ToMemory(big, w)) == w
  {
    hide Pack, LowByte;
    PackOfLowBytes(w);
  }

  function Xor(v: word, w: word): word { v ^ w }

  function XorByte(a: byte, b: byte): byte { a ^ b }

  /** A word xor is a xor of each byte. */
  lemma XorBytes(big: bool, v: word, w: word, k: nat)
    requires k < 8
    ensures ByteAt(big, Xor(v, w), k) == XorByte(ByteAt(big, v, k), ByteAt(big, w, k))
  {
    hide LowByte, Xor, XorByte;
    XorLow(v, w, if big then 7 - k else k);
  }

  lemma XorLast(v: word, w: word)
    ensures ((v ^ w) & 0xFF) as byte == (v & 0xFF) as byte ^ (w & 0xFF) as byte
  {
  }

  lemma XorShift(v: word, w: word)
    ensures (v ^ w) >> 8 == (v >> 8) ^ (w >> 8) && (v ^ w) >> 16 == (v >> 16) ^ (w >> 16)
    ensures (v ^ w) >> 24 == (v >> 24) ^ (w >> 24) && (v ^ w) >> 32 == (v >> 32) ^ (w >> 32)
    ensures (v ^ w) >> 40 == (v >> 40) ^ (w >> 40) && (v ^ w) >> 48 == (v >> 48) ^ (w >> 48)
    ensures (v ^ w) >> 56 == (v >> 56) ^ (w >> 56)
  {
  }

  lemma XorLow(v: word, w: word, k: nat)
    requires k < 8
    ensures LowByte(Xor(v, w), k) == XorByte(LowByte(v, k), LowByte(w, k))
  {
    XorShift(v, w);
    match k
    case 0 => XorLast(v, w);
    case 1 => XorLast(v >> 8, w >> 8);
    case 2 => XorLast(v >> 16, w >> 16);
    case 3 => XorLast(v >> 24, w >> 24);
    case 4 => XorLast(v >> 32, w >> 32);
    case 5 => XorLast(v >> 40, w >> 40);
    case 6 => XorLast(v >> 48, w >> 48);
    case 7 => XorLast(v >> 56, w >> 56);
  }

  /** _htonll and _ntohll: the bytes swapped, unless the machine is big-endian. */
  function Htonll(big: bool, n: word): word
  {
    if big then n
    else
      var c := ToMemory(big, n);
      FromMemory(big, [c[7], c[6], c[5], c[4], c[3], c[2], c[1], c[0]])
  }

  /** Network order: the high byte first, whatever the machine. */
  lemma HtonllIsBigEndian(big: bool, n: word)
    ensures ToMemory(big, Htonll(big, n)) == ToMemory(true, n)
  {
    hide Pack, LowByte;
    if !big {
      var c := ToMemory(big, n);
      var r := [c[7], c[6], c[5], c[4], c[3], c[2], c[1], c[0]];
      forall k | 0 <= k < 8 ensures ByteAt(big, FromMemory(big, r), k) == r[k] {
        MemoryBack(big, r, k);
      }
    }
  }

  lemma HtonllTwice(big: bool, n: word)
    ensures Htonll(big, Htonll(big, n)) == n
  {
    if !big {
      HtonllIsBigEndian(big, n);
      hide Pack, LowByte;
      WordBack(big, n);
    }
  }
}
