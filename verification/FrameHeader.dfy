/**
 Frame headers (websocketpp/frame.hpp): the basic header of two bytes, the extended header
 behind it, and the accessors that read both back. Layout as in section 5.2 of RFC 6455.
 */
module FrameHeader {
  import opened Bytes
  import opened Words

  const PAYLOAD_SIZE_BASIC: bv64 := 125
  const PAYLOAD_SIZE_EXTENDED: bv64 := 0xFFFF
  const PAYLOAD_SIZE_CODE_16BIT: byte := 0x7E
  const PAYLOAD_SIZE_CODE_64BIT: byte := 0x7F

  // ----- accessors ---------------------------------------------------------------------------

  predicate GetFin(b0: byte) { b0 & 0x80 == 0x80 }

  predicate GetRsv1(b0: byte) { b0 & 0x40 == 0x40 }

  predicate GetRsv2(b0: byte) { b0 & 0x20 == 0x20 }

  predicate GetRsv3(b0: byte) { b0 & 0x10 == 0x10 }

  function GetOpcode(b0: byte): byte { b0 & 0x0F }

  predicate GetMasked(b1: byte) { b1 & 0x80 == 0x80 }

  function GetBasicSize(b1: byte): byte { b1 & 0x7F }

  function GetMaskingKeyOffset(b1: byte): nat {
    if GetBasicSize(b1) == PAYLOAD_SIZE_CODE_16BIT then 2
    else if GetBasicSize(b1) == PAYLOAD_SIZE_CODE_64BIT then 8
    else 0
  }

  function GetHeaderLen(b1: byte): nat {
    2 + GetMaskingKeyOffset(b1) + if GetMasked(b1) then 4 else 0
  }

  function GetMaskingKey(b1: byte, ext: bytes): (key: bytes)
    requires |ext| == 12
    ensures |key| == 4
  {
    if !GetMasked(b1) then [0, 0, 0, 0]
    else
      var offset := GetMaskingKeyOffset(b1);
      ext[offset..offset + 4]
  }

  /** get_extended_size: two bytes in network order */
  function GetExtendedSize(ext: bytes): bv64
    requires |ext| == 12
  {
    (ext[0] as bv64 << 8) | ext[1] as bv64
  }

  function GetJumboSize(big: bool, ext: bytes): bv64
    requires |ext| == 12
  {
    Htonll(big, FromMemory(big, ext[..8]))
  }

  function GetPayloadSize(big: bool, b1: byte, ext: bytes): bv64
    requires |ext| == 12
  {
    var val := GetBasicSize(b1);
    if val as bv64 <= PAYLOAD_SIZE_BASIC then val as bv64
    else if val == PAYLOAD_SIZE_CODE_16BIT then GetExtendedSize(ext)
    else GetJumboSize(big, ext)
  }

  // ----- basic_header ---------------------------------------------------------------------------

  class BasicHeader {
    var b0: byte
    var b1: byte

    constructor (op: byte, size: bv64, fin: bool, mask: bool, rsv1: bool, rsv2: bool, rsv3: bool)
      ensures GetFin(b0) == fin && GetRsv1(b0) == rsv1 && GetRsv2(b0) == rsv2 && GetRsv3(b0) == rsv3
      ensures GetOpcode(b0) == GetOpcode(op) && GetMasked(b1) == mask && GetBasicSize(b1) == SizeCode(size)
    {
      hide *;
      b0, b1 := 0, 0;
      new;
      b0 := WithFlag(b0, fin, 0x80);
      b0 := WithFlag(b0, rsv1, 0x40);
      b0 := WithFlag(b0, rsv2, 0x20);
      b0 := WithFlag(b0, rsv3, 0x10);
      b0 := Merge(b0, GetOpcode(op));
      FirstByte(fin, rsv1, rsv2, rsv3, op);
      b1 := WithFlag(b1, mask, 0x80);
      SizeCodeIs(size);
      var basicValue: byte;
      if size <= PAYLOAD_SIZE_BASIC {
        basicValue := size as byte;
      } else if size <= PAYLOAD_SIZE_EXTENDED {
        basicValue := PAYLOAD_SIZE_CODE_16BIT;
      } else {
        basicValue := PAYLOAD_SIZE_CODE_64BIT;
      }
      SecondByte(mask, basicValue);
      b1 := Merge(b1, basicValue);
    }

    method SetFin(value: bool)
      modifies `b0
      ensures GetFin(b0) == value && b0 & 0x7F == old(b0) & 0x7F
    {
      b0 := if value then b0 | 0x80 else b0 & 0x7F;
    }

    method SetRsv1(value: bool)
      modifies `b0
      ensures GetRsv1(b0) == value && b0 & 0xBF == old(b0) & 0xBF
    {
      b0 := if value then b0 | 0x40 else b0 & 0xBF;
    }

    method SetRsv2(value: bool)
      modifies `b0
      ensures GetRsv2(b0) == value && b0 & 0xDF == old(b0) & 0xDF
    {
      b0 := if value then b0 | 0x20 else b0 & 0xDF;
    }

    method SetRsv3(value: bool)
      modifies `b0
      ensures GetRsv3(b0) == value && b0 & 0xEF == old(b0) & 0xEF
    {
      b0 := if value then b0 | 0x10 else b0 & 0xEF;
    }

    method SetMasked(value: bool)
      modifies `b1
      ensures GetMasked(b1) == value && GetBasicSize(b1) == old(GetBasicSize(b1))
    {
      b1 := if value then b1 | 0x80 else b1 & 0x7F;
    }
  }

  /** The seven bits that stand for a size. */
  function SizeCode(size: bv64): byte {
    if size <= PAYLOAD_SIZE_BASIC then size as byte
    else if size <= PAYLOAD_SIZE_EXTENDED then PAYLOAD_SIZE_CODE_16BIT
    else PAYLOAD_SIZE_CODE_64BIT
  }

  function Merge(a: byte, b: byte): byte { a | b }

  /** if (x) { b |= flag; } */
  function WithFlag(b: byte, x: bool, flag: byte): byte { if x then b | flag else b }

  lemma FirstByte(fin: bool, rsv1: bool, rsv2: bool, rsv3: bool, op: byte)
    ensures
      var flags := WithFlag(WithFlag(WithFlag(WithFlag(0, fin, 0x80), rsv1, 0x40), rsv2, 0x20), rsv3, 0x10);
      var b0 := Merge(flags, GetOpcode(op));
      GetFin(b0) == fin && GetRsv1(b0) == rsv1 && GetRsv2(b0) == rsv2 && GetRsv3(b0) == rsv3 && GetOpcode(b0) == GetOpcode(op)
  {
  }

  lemma SecondByte(mask: bool, code: byte)
    requires code <= 0x7F
    ensures var b1 := Merge(WithFlag(0, mask, 0x80), code);
            GetMasked(b1) == mask && GetBasicSize(b1) == code
  {
  }

  lemma SizeCodeIs(size: bv64)
    ensures SizeCode(size) <= 0x7F
    ensures size <= PAYLOAD_SIZE_BASIC ==> size < 0x100 && SizeCode(size) == size as byte
    ensures PAYLOAD_SIZE_BASIC < size <= PAYLOAD_SIZE_EXTENDED ==> SizeCode(size) == PAYLOAD_SIZE_CODE_16BIT
    ensures PAYLOAD_SIZE_EXTENDED < size ==> SizeCode(size) == PAYLOAD_SIZE_CODE_64BIT
  {
  }

  /** How many bytes a size takes behind the basic header. */
  function SizeBytes(size: bv64): nat {
    if size <= PAYLOAD_SIZE_BASIC then 0 else if size <= PAYLOAD_SIZE_EXTENDED then 2 else 8
  }

  // ----- extended_header ------------------------------------------------------------------------

  class ExtendedHeader {
    const data: array<byte>

    method CopyPayload(big: bool, payloadSize: bv64) returns (n: nat)
      requires data.Length == 12
      modifies data
      ensures n == SizeBytes(payloadSize) && data[..n] == ToMemory(true, payloadSize)[8 - n..]
    {
      var payloadOffset := 0;
      if payloadSize <= PAYLOAD_SIZE_BASIC {
        payloadOffset := 8;
      } else if payloadSize <= PAYLOAD_SIZE_EXTENDED {
        payloadOffset := 6;
      }
      var c := ToMemory(big, Htonll(big, payloadSize));
      HtonllIsBigEndian(big, payloadSize);
      n := 8 - payloadOffset;
      assert n == SizeBytes(payloadSize);
      hide *;
      CopyTo(c[payloadOffset..], data, 0);
    }

    constructor (big: bool, payloadSize: bv64)
      ensures fresh(data) && data.Length == 12
      ensures HoldsSize(data[..], payloadSize)
    {
      data := new byte[12](_ => 0);
      new;
      var _ := CopyPayload(big, payloadSize);
    }

    constructor WithKey(big: bool, payloadSize: bv64, maskingKey: bytes)
      requires |maskingKey| == 4
      ensures fresh(data) && data.Length == 12
      ensures HoldsSize(data[..], payloadSize)
      ensures var n := SizeBytes(payloadSize); data[n..n + 4] == maskingKey
    {
      data := new byte[12](_ => 0);
      new;
      var offset := CopyPayload(big, payloadSize);
      CopyTo(maskingKey, data, offset);
    }
  }

  /** The low bytes of the size in network order. */
  predicate HoldsSize(ext: bytes, size: bv64)
    requires |ext| == 12
  {
    ext[..SizeBytes(size)] == ToMemory(true, size)[8 - SizeBytes(size)..]
  }

  method CopyTo<T>(s: seq<T>, dst: array<T>, at: nat)
    requires at + |s| <= dst.Length
    modifies dst
    ensures dst[..at] == old(dst[..at]) && dst[at..at + |s|] == s && dst[at + |s|..] == old(dst[at + |s|..])
  {
    for k := 0 to |s|
      invariant dst[..at] == old(dst[..at]) && dst[at..at + k] == s[..k] && dst[at + k..] == old(dst[at + k..])
    {
      dst[at + k] := s[k];
    }
  }

  // ----- whole headers -----------------------------------------------------------------------------

  datatype Header = Header(op: byte, size: bv64, fin: bool, mask: bool, rsv1: bool, rsv2: bool, rsv3: bool, key: bytes)

  /** The layout of section 5.2 of RFC 6455. */
  predicate Encodes(wire: bytes, h: Header)
    requires |h.key| == 4
  {
    var n := SizeBytes(h.size);
    && |wire| == 2 + n + (if h.mask then 4 else 0)
    && GetFin(wire[0]) == h.fin && GetRsv1(wire[0]) == h.rsv1 && GetRsv2(wire[0]) == h.rsv2 && GetRsv3(wire[0]) == h.rsv3
    && GetOpcode(wire[0]) == GetOpcode(h.op) && GetMasked(wire[1]) == h.mask && GetBasicSize(wire[1]) == SizeCode(h.size)
    && wire[2..2 + n] == ToMemory(true, h.size)[8 - n..]
    && (h.mask ==> wire[2 + n..] == h.key)
  }

  /** Two bytes as a number, the high one first. */
  function Sixteen(s: bytes): bv64
    requires |s| == 2
  {
    (s[0] as bv64 << 8) | s[1] as bv64
  }

  /** Eight bytes as a number, the high one first. */
  function SixtyFour(s: bytes): bv64
    requires |s| == 8
  {
    (s[0] as bv64 << 56) | (s[1] as bv64 << 48) | (s[2] as bv64 << 40) | (s[3] as bv64 << 32) |
    (s[4] as bv64 << 24) | (s[5] as bv64 << 16) | (s[6] as bv64 << 8) | s[7] as bv64
  }

  /** The first byte of section 5.2: FIN, RSV1 to RSV3 and the opcode, each bit at its place. */
  predicate FirstLaidOut(b: byte, h: Header) {
    && (h.fin <==> b & 0x80 != 0) && (h.rsv1 <==> b & 0x40 != 0) && (h.rsv2 <==> b & 0x20 != 0)
    && (h.rsv3 <==> b & 0x10 != 0) && b & 0x0F == h.op & 0x0F
  }

  /** Seven bits for the size: itself up to 125, 126 up to 65535, 127 above. */
  predicate CodeLaidOut(b: byte, size: bv64) {
    && (size <= 125 ==> b & 0x7F == size as byte)
    && (125 < size <= 0xFFFF ==> b & 0x7F == 126)
    && (0xFFFF < size ==> b & 0x7F == 127)
  }

  predicate SecondLaidOut(b: byte, h: Header) {
    (h.mask <==> b & 0x80 != 0) && CodeLaidOut(b, h.size)
  }

  /** The rest: a size above 125 in sixteen bits, above 65535 in sixty-four; and the key. */
  predicate RestLaidOut(rest: bytes, h: Header)
    requires |h.key| == 4
  {
    var key := if h.mask then h.key else [];
    if h.size <= 125 then rest == key
    else if h.size <= 0xFFFF then |rest| >= 2 && Sixteen(rest[..2]) == h.size && rest[2..] == key
    else |rest| >= 8 && SixtyFour(rest[..8]) == h.size && rest[8..] == key
  }

  lemma BitSet(b: byte)
    ensures (b & 0x80 == 0x80 <==> b & 0x80 != 0) && (b & 0x40 == 0x40 <==> b & 0x40 != 0)
    ensures (b & 0x20 == 0x20 <==> b & 0x20 != 0) && (b & 0x10 == 0x10 <==> b & 0x10 != 0)
  {
  }

  lemma LowTwo(a: byte, b: byte)
    ensures ((((a as bv64 << 8) | b as bv64) >> 8) & 0xFF) as byte == a && (((a as bv64 << 8) | b as bv64) & 0xFF) as byte == b
  {
  }

  lemma SixteenBytes(size: bv64, s: bytes)
    requires |s| == 2 && Sixteen(s) == size
    ensures s == [LowByte(size, 1), LowByte(size, 0)]
  {
    LowTwo(s[0], s[1]);
  }

  lemma SixteenBack(size: bv64)
    requires size <= 0xFFFF
    ensures Sixteen([LowByte(size, 1), LowByte(size, 0)]) == size
  {
    hide LowByte;
    ExtendedBack(size);
  }

  lemma BytesOf(size: bv64)
    ensures ToMemory(true, size) ==
      [LowByte(size, 7), LowByte(size, 6), LowByte(size, 5), LowByte(size, 4),
       LowByte(size, 3), LowByte(size, 2), LowByte(size, 1), LowByte(size, 0)]
  {
    hide LowByte;
  }

  lemma BytesBack(size: bv64, s: bytes)
    requires |s| == 8 && SixtyFour(s) == size
    ensures s == ToMemory(true, size)
  {
    hide *;
    SixtyFourIsPack(s);
    LowByteOfPack(s[7], s[6], s[5], s[4], s[3], s[2], s[1], s[0]);
    BytesOf(size);
  }

  lemma SixtyFourBack(size: bv64)
    ensures SixtyFour(ToMemory(true, size)) == size
  {
    hide *;
    BytesOf(size);
    SixtyFourIsPack(ToMemory(true, size));
    PackOfLowBytes(size);
  }

  lemma LowEightIff(size: bv64, s: bytes)
    requires |s| == 8
    ensures s == ToMemory(true, size) <==> SixtyFour(s) == size
  {
    hide *;
    SixtyFourBack(size);
    if SixtyFour(s) == size {
      BytesBack(size, s);
    }
  }

  lemma SixtyFourIsPack(s: bytes)
    requires |s| == 8
    ensures SixtyFour(s) == Pack(s[7], s[6], s[5], s[4], s[3], s[2], s[1], s[0])
  {
  }

  lemma CodeIff(b: byte, size: bv64)
    ensures CodeLaidOut(b, size) <==> GetBasicSize(b) == SizeCode(size)
  {
  }

  lemma MaskBitIs(b: byte)
    ensures GetMasked(b) <==> b & 0x80 != 0
  {
    BitSet(b);
  }

  lemma SecondIff(b: byte, h: Header)
    ensures SecondLaidOut(b, h) <==> GetMasked(b) == h.mask && GetBasicSize(b) == SizeCode(h.size)
  {
    hide SizeCode, GetMasked, GetBasicSize, CodeLaidOut;
    CodeIff(b, h.size);
    MaskBitIs(b);
  }

  lemma SizeBytesAre(size: bv64)
    ensures SizeBytes(size) == if size <= 125 then 0 else if size <= 0xFFFF then 2 else 8
  {
  }

  lemma FieldIff(size: bv64, s: bytes)
    requires |s| == SizeBytes(size)
    ensures s == ToMemory(true, size)[8 - |s|..] <==> (|s| == 2 ==> Sixteen(s) == size) && (|s| == 8 ==> SixtyFour(s) == size)
  {
    hide *;
    SizeBytesAre(size);
    BytesOf(size);
    if |s| == 2 {
      SixteenBack(size);
      if Sixteen(s) == size {
        SixteenBytes(size, s);
      }
      assert ToMemory(true, size)[6..] == [LowByte(size, 1), LowByte(size, 0)];
    } else if |s| == 8 {
      LowEightIff(size, s);
      assert ToMemory(true, size)[0..] == ToMemory(true, size);
    } else {
      assert ToMemory(true, size)[8..] == [];
    }
  }

  predicate RestWritten(rest: bytes, h: Header)
    requires |h.key| == 4
  {
    var n := SizeBytes(h.size);
    && |rest| == n + (if h.mask then 4 else 0) && rest[..n] == ToMemory(true, h.size)[8 - n..]
    && (h.mask ==> rest[n..] == h.key)
  }

  lemma RestIff(rest: bytes, h: Header)
    requires |h.key| == 4
    ensures RestWritten(rest, h) <==> RestLaidOut(rest, h)
  {
    SizeBytesAre(h.size);
    var n := SizeBytes(h.size);
    if |rest| >= n {
      FieldIff(h.size, rest[..n]);
      assert n == 0 ==> rest[n..] == rest;
    }
    hide SizeBytes, ToMemory, Sixteen, SixtyFour;
  }

  /** What is written is section 5.2 in numbers, and nothing else is. */
  lemma LayoutIff(wire: bytes, h: Header)
    requires |h.key| == 4 && |wire| >= 2
    ensures Encodes(wire, h) <==> FirstLaidOut(wire[0], h) && SecondLaidOut(wire[1], h) && RestLaidOut(wire[2..], h)
  {
    hide FirstLaidOut, SecondLaidOut, RestLaidOut, SizeBytes, SizeCode, ToMemory, GetFin, GetRsv1, GetRsv2, GetRsv3, GetOpcode, GetMasked, GetBasicSize;
    FirstIff(wire[0], h);
    SecondIff(wire[1], h);
    RestIff(wire[2..], h);
    var n := SizeBytes(h.size);
    if |wire| >= 2 + n {
      assert wire[2..][..n] == wire[2..2 + n];
      assert wire[2..][n..] == wire[2 + n..];
    }
  }

  lemma FirstIff(b: byte, h: Header)
    ensures FirstLaidOut(b, h) <==>
      GetFin(b) == h.fin && GetRsv1(b) == h.rsv1 && GetRsv2(b) == h.rsv2 && GetRsv3(b) == h.rsv3 &&
      GetOpcode(b) == GetOpcode(h.op)
  {
    BitSet(b);
  }

  /** The length is never longer than it need be: what the last paragraph on it in section 5.2 asks. */
  lemma Shortest(wire: bytes, h: Header)
    requires |h.key| == 4 && Encodes(wire, h)
    ensures |wire| >= 2 && SizeNeeds(wire[1], h.size)
    ensures |wire| == (if h.size <= 125 then 2 else if h.size <= 0xFFFF then 4 else 10) + if h.mask then 4 else 0
  {
    hide Encodes;
    LayoutSizes(wire, h);
    CodeNeeds(wire[1], h.size);
  }

  /** 126 only above 125, and 127 only above 65535. */
  predicate SizeNeeds(b: byte, size: bv64) {
    (b & 0x7F == 126 ==> size > 125) && (b & 0x7F == 127 ==> size > 0xFFFF)
  }

  lemma CodeNeeds(b: byte, size: bv64)
    requires CodeLaidOut(b, size)
    ensures SizeNeeds(b, size)
  {
  }

  lemma LayoutSizes(wire: bytes, h: Header)
    requires |h.key| == 4 && Encodes(wire, h)
    ensures |wire| >= 2 && CodeLaidOut(wire[1], h.size)
    ensures |wire| == (if h.size <= 125 then 2 else if h.size <= 0xFFFF then 4 else 10) + if h.mask then 4 else 0
  {
    SizeBytesAre(h.size);
    CodeIff(wire[1], h.size);
    hide SizeBytes, SizeCode, ToMemory, CodeLaidOut, GetFin, GetRsv1, GetRsv2, GetRsv3, GetOpcode, GetMasked, GetBasicSize;
  }

  lemma OffsetIsSizeBytes(b1: byte, size: bv64)
    requires GetBasicSize(b1) == SizeCode(size)
    ensures GetMaskingKeyOffset(b1) == SizeBytes(size)
  {
  }

  /** prepare_header */
  method PrepareHeader(h: BasicHeader, e: ExtendedHeader) returns (ret: bytes)
    requires e.data.Length == 12
    ensures ret == [h.b0, h.b1] + e.data[..GetHeaderLen(h.b1) - 2]
  {
    ret := [h.b0, h.b1];
    ret := ret + e.data[..GetHeaderLen(h.b1) - 2];
  }

  /** Both headers made, and written with prepare_header, as a frame with these fields needs it. */
  method WriteHeader(big: bool, h: Header) returns (wire: bytes)
    requires |h.key| == 4
    ensures Encodes(wire, h) && |wire| == GetHeaderLen(wire[1])
    ensures FirstLaidOut(wire[0], h) && SecondLaidOut(wire[1], h) && RestLaidOut(wire[2..], h)
  {
    var b := new BasicHeader(h.op, h.size, h.fin, h.mask, h.rsv1, h.rsv2, h.rsv3);
    var e: ExtendedHeader;
    if h.mask {
      e := new ExtendedHeader.WithKey(big, h.size, h.key);
    } else {
      e := new ExtendedHeader(big, h.size);
    }
    wire := PrepareHeader(b, e);
    OffsetIsSizeBytes(b.b1, h.size);
    HeaderParts(b.b0, b.b1, e.data[..], h, wire);
    LayoutIff(wire, h);
  }

  lemma HeaderParts(b0: byte, b1: byte, ext: bytes, h: Header, wire: bytes)
    requires |ext| == 12 && |h.key| == 4 && wire == [b0, b1] + ext[..GetHeaderLen(b1) - 2] && HoldsSize(ext, h.size)
    requires GetFin(b0) == h.fin && GetRsv1(b0) == h.rsv1 && GetRsv2(b0) == h.rsv2 && GetRsv3(b0) == h.rsv3
    requires GetOpcode(b0) == GetOpcode(h.op) && GetMasked(b1) == h.mask && GetBasicSize(b1) == SizeCode(h.size)
    requires GetMaskingKeyOffset(b1) == SizeBytes(h.size)
    requires var n := SizeBytes(h.size); h.mask ==> ext[n..n + 4] == h.key
    ensures Encodes(wire, h) && |wire| == GetHeaderLen(wire[1])
  {
    hide GetFin, GetRsv1, GetRsv2, GetRsv3, GetOpcode, GetMasked, GetBasicSize, SizeCode, ByteAt, GetMaskingKeyOffset, ToMemory;
    var n := SizeBytes(h.size);
    assert wire[2..2 + n] == ext[..n];
    assert h.mask ==> wire[2 + n..] == ext[n..n + 4];
  }

  lemma ExtendedBack(size: bv64)
    requires size <= 0xFFFF
    ensures (LowByte(size, 1) as bv64 << 8) | LowByte(size, 0) as bv64 == size
  {
  }

  lemma JumboBack(big: bool, size: bv64)
    ensures Htonll(big, FromMemory(big, ToMemory(true, size))) == size
  {
    hide *;
    HtonllIsBigEndian(big, size);
    WordBack(big, Htonll(big, size));
    HtonllTwice(big, size);
  }

  /**
   A reader of either byte order that puts the bytes behind the first two into an extended
   header, with anything behind them, gets every field back.
   */
  lemma ReadBack(wire: bytes, h: Header, ext: bytes, big: bool)
    requires |h.key| == 4 && Encodes(wire, h) && |ext| == 12 && wire[2..] <= ext
    ensures |wire| == GetHeaderLen(wire[1])
    ensures GetPayloadSize(big, wire[1], ext) == h.size
    ensures GetMaskingKey(wire[1], ext) == if h.mask then h.key else [0, 0, 0, 0]
    ensures h.op <= 0x0F ==> GetOpcode(wire[0]) == h.op
  {
    var n := SizeBytes(h.size);
    OffsetIsSizeBytes(wire[1], h.size);
    SizeBack(wire, h, ext, big);
    OpcodeBack(h.op);
    hide GetBasicSize, GetFin, GetRsv1, GetRsv2, GetRsv3, GetOpcode, GetMasked, GetPayloadSize, SizeCode, ByteAt, ToMemory;
    assert ext[n..n + 4] == wire[2 + n..] || !h.mask;
  }

  lemma OpcodeBack(op: byte)
    ensures op <= 0x0F ==> GetOpcode(op) == op
  {
  }

  lemma SizeBack(wire: bytes, h: Header, ext: bytes, big: bool)
    requires |h.key| == 4 && Encodes(wire, h) && |ext| == 12 && wire[2..] <= ext
    ensures GetPayloadSize(big, wire[1], ext) == h.size
  {
    hide GetFin, GetRsv1, GetRsv2, GetRsv3, GetOpcode, GetMasked, LowByte, Htonll, FromMemory;
    var n := SizeBytes(h.size);
    assert wire[2..2 + n] == ext[..n];
    if n == 2 {
      ExtendedBack(h.size);
      assert ext[0] == wire[2..4][0] && ext[1] == wire[2..4][1];
    } else if n == 8 {
      JumboBack(big, h.size);
      assert ToMemory(true, h.size)[0..] == ToMemory(true, h.size);
    }
  }

  /** No header that carries this size has fewer size bytes. */
  lemma MinimalSize(big: bool, b1: byte, ext: bytes)
    requires |ext| == 12
    ensures SizeBytes(GetPayloadSize(big, b1, ext)) <= GetMaskingKeyOffset(b1)
  {
    hide Htonll, FromMemory;
    TwoBytesFit(ext[0], ext[1]);
  }

  lemma TwoBytesFit(a: byte, b: byte)
    ensures (a as bv64 << 8) | b as bv64 <= 0xFFFF
  {
  }
}
