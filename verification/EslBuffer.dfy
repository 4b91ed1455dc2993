/**
 The event socket's byte buffer (esl/esl_buffer.c) as every caller creates it, without a
 maximum length: an array that is compacted and grown in place, and the queue it stands for.
 */
module EslBuffer {
  import opened Bytes

  const LF: octet := 10
  const CR: octet := 13

  function Min(a: nat, b: nat): nat { if a < b then a else b }

  // ----- the packet scan -----------------------------------------------------------------

  /**
   The line feed that ends a packet whose first one is at p, if it is at e or before. m is
   memory from the head on; the bytes in use end at e, and up to two behind are looked at.
   */
  function PacketEnd(m: octets, p: nat, e: nat): (pe: nat)
    requires p < e && e + 2 <= |m|
    ensures pe == 0 || p < pe <= e
  {
    if m[p] != LF then 0
    else
      var pe := if m[p + 1] == CR then p + 2 else p + 1;
      if pe <= e && m[pe] == LF then pe else 0
  }

  /** What esl_buffer_packet_count counts from p on. */
  function Count(m: octets, p: nat, e: nat): nat
    requires e + 2 <= |m|
    decreases |m| - p
  {
    if p >= e || m[p] == 0 then 0
    else
      var pe := PacketEnd(m, p, e);
      if pe == 0 then Count(m, p + 1, e) else 1 + Count(m, pe + 1, e)
  }

  /** Where the first packet from p on ends, or 0. */
  function FirstEnd(m: octets, p: nat, e: nat): (pe: nat)
    requires e + 2 <= |m|
    ensures pe == 0 || p < pe <= e
    decreases |m| - p
  {
    if p >= e || m[p] == 0 then 0
    else
      var pe := PacketEnd(m, p, e);
      if pe == 0 then FirstEnd(m, p + 1, e) else pe
  }

  lemma {:induction false} CountFirst(m: octets, p: nat, e: nat)
    requires e + 2 <= |m|
    ensures Count(m, p, e) == if FirstEnd(m, p, e) == 0 then 0 else 1 + Count(m, FirstEnd(m, p, e) + 1, e)
    decreases |m| - p
  {
    if p < e && m[p] != 0 && PacketEnd(m, p, e) == 0 {
      CountFirst(m, p + 1, e);
    }
  }

  /** The scan from a later head sees the same packets. */
  lemma {:induction false} FirstEndShift(m: octets, k: nat, p: nat, e: nat)
    requires k <= p && k <= e && e + 2 <= |m|
    ensures FirstEnd(m[k..], p - k, e - k) == if FirstEnd(m, p, e) == 0 then 0 else FirstEnd(m, p, e) - k
    decreases |m| - p
  {
    if p < e && m[p] != 0 {
      var n := m[k..];
      assert n[p - k] == m[p] && n[p - k + 1] == m[p + 1] && n[p - k + 2] == m[p + 2];
      if PacketEnd(m, p, e) == 0 {
        FirstEndShift(m, k, p + 1, e);
      }
    }
  }

  // ----- packets of the bytes in use alone ---------------------------------------------------

  /** The packets that end inside c. */
  function Packets(c: octets): nat
    decreases |c|
  {
    if c == [] || c[0] == 0 then 0
    else if c[0] == LF && |c| > 1 && c[1] == LF then 1 + Packets(c[2..])
    else if c[0] == LF && |c| > 2 && c[1] == CR && c[2] == LF then 1 + Packets(c[3..])
    else Packets(c[1..])
  }

  /** The scan of c stops at a line feed, or line feed and carriage return, that end c. */
  predicate Dangling(c: octets)
    decreases |c|
  {
    if c == [] || c[0] == 0 then false
    else if c == [LF] || c == [LF, CR] then true
    else if c[0] == LF && |c| > 1 && c[1] == LF then Dangling(c[2..])
    else if c[0] == LF && |c| > 2 && c[1] == CR && c[2] == LF then Dangling(c[3..])
    else Dangling(c[1..])
  }

  /** The scan counts the packets of the bytes in use, and a dangling one if an old line feed lies behind. */
  lemma {:induction false} CountIs(m: octets, p: nat, e: nat)
    requires p <= e && e + 2 <= |m|
    ensures Count(m, p, e) == Packets(m[p..e]) + if Dangling(m[p..e]) && m[e] == LF then 1 else 0
    decreases |m| - p
  {
    hide Count, Packets, Dangling, PacketEnd;
    var c := m[p..e];
    CountUnfold(m, p, e);
    PacketsUnfold(c);
    if p < e && m[p] != 0 {
      assert c[0] == m[p];
      Shorter(m, p, e);
      PacketEndCases(m, p, e);
      var pe := PacketEnd(m, p, e);
      if pe == 0 {
        CountIs(m, p + 1, e);
      } else if pe < e {
        CountIs(m, pe + 1, e);
      } else {
        CountUnfold(m, e + 1, e);
      }
    }
  }

  lemma Shorter(m: octets, p: nat, e: nat)
    requires p < e <= |m|
    ensures m[p..e][1..] == m[p + 1..e]
    ensures p + 1 < e ==> m[p..e][1] == m[p + 1] && m[p..e][2..] == m[p + 2..e]
    ensures p + 2 < e ==> m[p..e][2] == m[p + 2] && m[p..e][3..] == m[p + 3..e]
  {
  }

  lemma CountUnfold(m: octets, p: nat, e: nat)
    requires e + 2 <= |m|
    ensures p >= e || m[p] == 0 ==> Count(m, p, e) == 0
    ensures p < e && m[p] != 0 ==>
      var pe := PacketEnd(m, p, e);
      Count(m, p, e) == if pe == 0 then Count(m, p + 1, e) else 1 + Count(m, pe + 1, e)
  {
    hide PacketEnd;
  }

  lemma PacketEndCases(m: octets, p: nat, e: nat)
    requires p < e && e + 2 <= |m|
    ensures m[p] != LF ==> PacketEnd(m, p, e) == 0
    ensures m[p] == LF && m[p + 1] == LF ==> PacketEnd(m, p, e) == p + 1
    ensures m[p] == LF && m[p + 1] == CR ==> PacketEnd(m, p, e) == if p + 2 <= e && m[p + 2] == LF then p + 2 else 0
    ensures m[p] == LF && m[p + 1] != LF && m[p + 1] != CR ==> PacketEnd(m, p, e) == 0
  {
  }

  lemma PacketsUnfold(c: octets)
    ensures c == [] || c[0] == 0 ==> Packets(c) == 0 && !Dangling(c)
    ensures c == [LF] || c == [LF, CR] ==> Packets(c) == Packets(c[1..]) == 0 && Dangling(c) && !Dangling(c[1..])
    ensures c == [LF] <==> |c| == 1 && c[0] == LF
    ensures c == [LF, CR] <==> |c| == 2 && c[0] == LF && c[1] == CR
    ensures c != [] && c[0] != 0 && c != [LF] && c != [LF, CR] ==>
      var k := if c[0] == LF && |c| > 1 && c[1] == LF then 2
               else if c[0] == LF && |c| > 2 && c[1] == CR && c[2] == LF then 3 else 1;
      Packets(c) == Packets(c[k..]) + (if k > 1 then 1 else 0) && Dangling(c) == Dangling(c[k..])
  {
    if c == [LF] {
      assert c[1..] == [];
    } else if c == [LF, CR] {
      assert c[1..] == [CR] && [CR][1..] == [];
    }
  }

  /** packet_count tells the packets in use if and only if no old line feed completes one. */
  lemma CountIff(m: octets, e: nat)
    requires e + 2 <= |m|
    ensures Count(m, 0, e) == Packets(m[..e]) <==> !(Dangling(m[..e]) && m[e] == LF)
  {
    CountIs(m, 0, e);
    assert m[0..e] == m[..e];
  }

  // ----- packets written and packets found ------------------------------------------------------

  /** An empty line: two line feeds, or with a carriage return between them. */
  predicate EmptyLine(s: octets) { s == [10, 10] || s == [10, 13, 10] }

  /** The end of a packet at p is that of an empty line that begins there and ends at e or before. */
  lemma PacketEndIff(m: octets, p: nat, e: nat, pe: nat)
    requires p < e && e + 2 <= |m|
    ensures pe != 0 && PacketEnd(m, p, e) == pe <==> p < pe <= e && EmptyLine(m[p..pe + 1])
  {
    PacketEndCases(m, p, e);
    if pe == p + 1 <= e {
      assert m[p..pe + 1] == [m[p], m[p + 1]];
    } else if pe == p + 2 <= e {
      assert m[p..pe + 1] == [m[p], m[p + 1], m[p + 2]];
    }
  }

  /** No zero byte, and behind every line feed something other than a line feed or carriage return. */
  predicate Lines(t: octets) {
    0 !in t && forall i :: 0 <= i < |t| && t[i] == 10 ==> i + 1 < |t| && t[i + 1] != 10 && t[i + 1] != 13
  }

  /** Lines and an empty line. */
  ghost predicate Whole(w: octets) { exists t: octets, z :: WholeAs(w, t, z) }

  predicate WholeAs(w: octets, t: octets, z: octets) { w == t + z && Lines(t) && EmptyLine(z) }

  /** What read_packet gives, one call after the other, from k on. */
  function Cut(m: octets, k: nat, e: nat): (r: seq<octets>)
    requires k <= e && e + 2 <= |m|
    decreases |m| - k
  {
    var pe := FirstEnd(m, k, e);
    if pe == 0 then [] else if pe == e then [m[k..e]] else [m[k..pe + 1]] + Cut(m, pe + 1, e)
  }

  lemma {:induction false} CutCount(m: octets, k: nat, e: nat)
    requires k <= e && e + 2 <= |m|
    ensures |Cut(m, k, e)| == Count(m, k, e)
    decreases |m| - k
  {
    CountFirst(m, k, e);
    var pe := FirstEnd(m, k, e);
    if pe != 0 && pe < e {
      CutCount(m, pe + 1, e);
    } else if pe == e {
      assert Count(m, e + 1, e) == 0;
    }
  }

  lemma {:induction false} LinesPassed(m: octets, p: nat, q: nat, e: nat)
    requires p <= q <= e && e + 2 <= |m| && Lines(m[p..q])
    ensures FirstEnd(m, p, e) == FirstEnd(m, q, e)
    decreases q - p
  {
    if p < q {
      var t := m[p..q];
      assert t[0] == m[p] && (|t| > 1 ==> t[1] == m[p + 1]) && m[p + 1..q] == t[1..];
      PacketEndCases(m, p, e);
      LinesPassed(m, p + 1, q, e);
    }
  }

  lemma AtEmptyLine(m: octets, q: nat, e: nat, z: octets)
    requires q + |z| <= e && e + 2 <= |m| && m[q..q + |z|] == z && EmptyLine(z)
    ensures FirstEnd(m, q, e) == q + |z| - 1
  {
    PacketEndIff(m, q, e, q + |z| - 1);
    assert m[q] == z[0];
    hide PacketEnd;
  }

  lemma FirstWhole(m: octets, k: nat, e: nat, w: octets)
    requires k + |w| <= e && e + 2 <= |m| && m[k..k + |w|] == w && Whole(w)
    ensures |w| > 1 && FirstEnd(m, k, e) == k + |w| - 1
  {
    hide FirstEnd, Lines;
    var t, z :| WholeAs(w, t, z);
    var q := k + |t|;
    FrontOf(m, k, k + |w|, t, z);
    LinesPassed(m, k, q, e);
    AtEmptyLine(m, q, e, z);
  }

  /** Packets written one behind the other, with lines of another begun behind them, come out as they were. */
  lemma {:induction false} CutBack(m: octets, k: nat, e: nat, ps: seq<octets>, rest: octets)
    requires k <= e && e + 2 <= |m| && m[k..e] == Flatten(ps) + rest && Lines(rest)
    requires forall i :: 0 <= i < |ps| ==> Whole(ps[i])
    ensures Cut(m, k, e) == ps
    decreases |ps|
  {
    hide FirstEnd, Whole, Lines;
    if ps == [] {
      assert m[k..e] == rest;
      LinesPassed(m, k, e, e);
      NoEnd(m, e);
    } else {
      var w, more := ps[0], Flatten(ps[1..]) + rest;
      assert m[k..e] == w + more && k + |w| <= e;
      FrontOf(m, k, e, w, more);
      FirstWhole(m, k, e, w);
      CutBack(m, k + |w|, e, ps[1..], rest);
      assert ps == [w] + ps[1..];
    }
  }

  /** A zero byte behind lines ends the scan, whatever follows it. */
  lemma ZeroStops(m: octets, k: nat, q: nat, e: nat)
    requires k <= q < e && e + 2 <= |m| && Lines(m[k..q]) && m[q] == 0
    ensures Cut(m, k, e) == [] && Count(m, k, e) == 0
  {
    LinesPassed(m, k, q, e);
    CutCount(m, k, e);
  }

  /** So many packets end inside the bytes. */
  lemma PacketsBack(ps: seq<octets>, rest: octets)
    requires Lines(rest) && forall i :: 0 <= i < |ps| ==> Whole(ps[i])
    ensures Packets(Flatten(ps) + rest) == |ps|
  {
    var c := Flatten(ps) + rest;
    var m: octets := c + [0, 0];
    hide Packets, Dangling, Count, Cut, Whole, Lines, Flatten;
    assert m[0..|c|] == c && m[|c|] == 0;
    CutBack(m, 0, |c|, ps, rest);
    CutCount(m, 0, |c|);
    CountIs(m, 0, |c|);
  }

  lemma FrontOf(m: octets, k: nat, e: nat, w: octets, more: octets)
    requires k <= e <= |m| && m[k..e] == w + more
    ensures k + |w| <= e && m[k..k + |w|] == w && m[k + |w|..e] == more
  {
    assert |m[k..e]| == |w| + |more|;
    assert m[k..k + |w|] == m[k..e][..|w|];
    assert m[k + |w|..e] == m[k..e][|w|..];
  }

  lemma NoEnd(m: octets, e: nat)
    requires e + 2 <= |m|
    ensures FirstEnd(m, e, e) == 0
  {
  }

  // ----- the buffer -----------------------------------------------------------------------------

  method Copy(src: octets, dst: array<octet>, at: nat)
    requires at + |src| <= dst.Length
    modifies dst
    ensures dst[..at] == old(dst[..at]) && dst[at..at + |src|] == src && dst[at + |src|..] == old(dst[at + |src|..])
  {
    for k := 0 to |src|
      invariant dst[..at] == old(dst[..at]) && dst[at..at + k] == src[..k] && dst[at + k..] == old(dst[at + k..])
    {
      dst[at + k] := src[k];
    }
  }

  /** d with src written at at, as seen from h on. */
  lemma Appended<T>(d: seq<T>, e: seq<T>, h: nat, at: nat, src: seq<T>)
    requires h <= at && at + |src| <= |d| == |e| && e[..at] == d[..at] && e[at..at + |src|] == src
    ensures e[h..at + |src|] == d[h..at] + src
  {
    assert e[h..at] == e[..at][h..] && d[h..at] == d[..at][h..];
    assert e[h..at + |src|] == e[h..at] + e[at..at + |src|];
  }

  class Buffer {
    var data: array<octet>
    var head: nat
    var used: nat
    var actuallyUsed: nat
    const blocksize: nat

    predicate Valid()
      reads this
    {
      head + used == actuallyUsed <= data.Length
    }

    /** The bytes written and not yet read or tossed. */
    function Contents(): (c: octets)
      reads this, data
      requires Valid()
      ensures |c| == used
    {
      data[head..head + used]
    }

    /** Memory from the head on: the rest of the allocation and two bytes that lie behind it. */
    function Memory(beyond: octets): (m: octets)
      reads this, data
      requires Valid() && |beyond| == 2
      ensures |m| >= used + 2 && m[..used] == Contents()
    {
      data[head..] + beyond
    }

    /** esl_buffer_create with a max_len of 0; a start length of 0 leaves nothing to write to. */
    constructor (blocksize: nat, startLen: nat)
      ensures Valid() && Contents() == [] && head == 0 && fresh(data) && data.Length == startLen && this.blocksize == blocksize
    {
      data := new octet[startLen](_ => 0);
      head, used, actuallyUsed := 0, 0, 0;
      this.blocksize := blocksize;
    }

    method Toss(datalen: nat) returns (left: nat)
      requires Valid()
      modifies `used, `head
      ensures Valid() && Contents() == old(Contents()[Min(used, datalen)..]) && left == used
    {
      if used < 1 {
        used := 0;
        return 0;
      }
      var reading := if used >= datalen then datalen else used;
      used := used - reading;
      head := head + reading;
      return used;
    }

    method Read(out: array<octet>, datalen: nat) returns (reading: nat)
      requires Valid() && out != data && datalen <= out.Length
      modifies `used, `head, out
      ensures Valid() && reading == Min(old(used), datalen)
      ensures Contents() == old(Contents()[Min(used, datalen)..])
      ensures out[..reading] == old(Contents()[..Min(used, datalen)]) && out[reading..] == old(out[..])[reading..]
      ensures head == old(head) + reading
    {
      if used < 1 {
        used := 0;
        return 0;
      }
      reading := if used >= datalen then datalen else used;
      assert Contents()[..reading] == data[head..head + reading];
      Copy(data[head..head + reading], out, 0);
      assert out[..reading] == out[0..0 + reading];
      used := used - reading;
      head := head + reading;
    }

    method Zero()
      requires Valid()
      modifies `used, `actuallyUsed, `head
      ensures Valid() && Contents() == [] && head == 0
    {
      used, actuallyUsed, head := 0, 0, 0;
    }

    /** memmove of the bytes in use to the start of the array. */
    method Compact()
      requires Valid()
      modifies `head, `actuallyUsed, data
      ensures Valid() && head == 0 && Contents() == old(Contents())
    {
      for i := 0 to used
        invariant head == old(head) && data[..i] == old(data[head..head + i])
        invariant data[head + i..] == old(data[head + i..])
      {
        data[i] := data[head + i];
      }
      head := 0;
      actuallyUsed := used;
    }

    /** realloc to a longer array; the head is at its start. */
    method Grow(newSize: nat)
      requires Valid() && head == 0 && newSize >= data.Length
      modifies `data
      ensures Valid() && fresh(data) && data.Length == newSize && Contents() == old(Contents())
    {
      var bigger := new octet[newSize];
      Copy(data[..], bigger, 0);
      data := bigger;
    }

    /** The first half of esl_buffer_write: compact, then grow, as far as it takes. */
    method MakeRoom(datalen: nat)
      requires Valid()
      modifies this, data
      ensures Valid() && Contents() == old(Contents()) && used == old(used) && actuallyUsed + datalen <= data.Length
      ensures if old(data.Length) - used < datalen
              then fresh(data) && data.Length >= old(data.Length) + blocksize
              else data == old(data)
      ensures old(data.Length - actuallyUsed) >= datalen ==> head == old(head) && data[..] == old(data[..])
    {
      var actualFreespace := data.Length - actuallyUsed;
      if actualFreespace < datalen {
        Compact();
      }
      var freespace := data.Length - used;
      if freespace < datalen {
        var newSize := data.Length + datalen;
        var newBlockSize := data.Length + blocksize;
        if newBlockSize > newSize {
          newSize := newBlockSize;
        }
        head := 0;
        Grow(newSize);
      }
    }

    method Write(src: octets) returns (n: nat)
      requires Valid() && data.Length > 0
      modifies this, data
      ensures Valid() && Contents() == old(Contents()) + src && n == used
      ensures if old(data.Length) - old(used) < |src|
              then fresh(data) && data.Length >= old(data.Length) + blocksize
              else data == old(data)
      ensures old(data.Length - actuallyUsed) >= |src| ==>
          head == old(head) && data.Length == old(data.Length) && data[actuallyUsed..] == old(data[..])[actuallyUsed..]
    {
      var datalen := |src|;
      ghost var before := Contents();
      if datalen == 0 {
        assert before + src == before;
        return used;
      }
      MakeRoom(datalen);
      assert Contents() == before;
      ghost var d := data[..];
      Copy(src, data, head + used);
      Appended(d, data[..], head, head + used, src);
      used := used + datalen;
      actuallyUsed := actuallyUsed + datalen;
      return used;
    }

    /** esl_buffer_packet_count */
    method PacketCount(beyond: octets) returns (x: nat)
      requires Valid() && |beyond| == 2
      ensures x == Count(Memory(beyond), 0, used)
    {
      x := 0;
      var p, e, m := 0, used, Memory(beyond);
      while m[p] != 0 && p < e
        invariant p <= e + 1 && x + Count(m, p, e) == Count(m, 0, e)
        decreases e + 2 - p
      {
        if m[p] == LF {
          var pe := p + 1;
          if m[pe] == CR {
            pe := pe + 1;
          }
          if pe <= e && m[pe] == LF {
            p := pe;
            x := x + 1;
          }
        }
        p := p + 1;
      }
    }

    /** esl_buffer_read_packet */
    method ReadPacket(beyond: octets, out: array<octet>, maxlen: nat) returns (reading: nat)
      requires Valid() && |beyond| == 2 && out != data && maxlen <= out.Length
      modifies `used, `head, out
      ensures Valid()
      ensures
        var pe := FirstEnd(old(Memory(beyond)), 0, old(used));
        reading == Min(old(used), if pe == 0 then 0 else Min(pe + 1, maxlen))
      ensures Contents() == old(Contents())[reading..] && out[..reading] == old(Contents())[..reading]
      ensures head == old(head) + reading
    {
      var p, e, m, datalen := 0, used, Memory(beyond), 0;
      while m[p] != 0 && p < e
        invariant p <= e && datalen == 0 && FirstEnd(m, p, e) == FirstEnd(m, 0, e)
        decreases e + 2 - p
      {
        if m[p] == LF {
          var pe := p + 1;
          if m[pe] == CR {
            pe := pe + 1;
          }
          if pe <= e && m[pe] == LF {
            pe := pe + 1;
            datalen := Min(pe, maxlen);
            break;
          }
        }
        p := p + 1;
      }
      reading := Read(out, datalen);
    }
  }

  // ----- runs ------------------------------------------------------------------------------------

  datatype Op = Write(src: octets) | Read(n: nat) | Toss(n: nat) | Zero

  /** A queue of bytes: what an operation leaves in it. */
  function After(q: octets, op: Op): octets {
    match op
    case Write(src) => q + src
    case Read(n) => q[Min(|q|, n)..]
    case Toss(n) => q[Min(|q|, n)..]
    case Zero => []
  }

  function Given(q: octets, op: Op): seq<octets> {
    if op.Read? then [q[..Min(|q|, op.n)]] else []
  }

  /** A read gives the first n bytes, or all there are, and leaves the others; so does a toss, giving nothing. */
  lemma QueueIs(q: octets, n: nat)
    ensures n <= |q| ==> Given(q, Read(n)) == [q[..n]] && After(q, Read(n)) == After(q, Toss(n)) == q[n..]
    ensures n > |q| ==> Given(q, Read(n)) == [q] && After(q, Read(n)) == After(q, Toss(n)) == []
    ensures Given(q, Toss(n)) == Given(q, Zero) == []
  {
    assert q[..|q|] == q;
  }

  /** The bytes a run of operations reads from a queue that holds q. */
  function Reads(q: octets, ops: seq<Op>): seq<octets>
    decreases |ops|
  {
    if ops == [] then [] else Given(q, ops[0]) + Reads(After(q, ops[0]), ops[1..])
  }

  function Left(q: octets, ops: seq<Op>): octets
    decreases |ops|
  {
    if ops == [] then q else Left(After(q, ops[0]), ops[1..])
  }

  lemma {:induction false} RunSnoc(q: octets, ops: seq<Op>, op: Op)
    ensures Left(q, ops + [op]) == After(Left(q, ops), op)
    ensures Reads(q, ops + [op]) == Reads(q, ops) + Given(Left(q, ops), op)
    decreases |ops|
  {
    hide After, Given;
    if ops == [] {
      assert ops + [op] == [op] && [op][1..] == [];
    } else {
      assert (ops + [op])[0] == ops[0] && (ops + [op])[1..] == ops[1..] + [op];
      RunSnoc(After(q, ops[0]), ops[1..], op);
    }
  }

  method ReadOut(b: Buffer, n: nat) returns (got: octets)
    requires b.Valid()
    modifies b`used, b`head
    ensures b.Valid() && got == old(b.Contents()[..Min(b.used, n)]) && b.Contents() == old(b.Contents()[Min(b.used, n)..])
  {
    var out := new octet[n];
    var k := b.Read(out, n);
    got := out[..k];
  }

  /** One operation on the buffer. */
  method Do(b: Buffer, op: Op) returns (given: seq<octets>)
    requires b.Valid() && b.data.Length > 0
    modifies b, b.data
    ensures b.Valid() && b.data.Length > 0 && (b.data == old(b.data) || fresh(b.data))
    ensures b.Contents() == After(old(b.Contents()), op) && given == Given(old(b.Contents()), op)
  {
    given := [];
    match op {
      case Write(src) =>
        var _ := b.Write(src);
      case Read(n) =>
        var got := ReadOut(b, n);
        given := [got];
      case Toss(n) =>
        var _ := b.Toss(n);
      case Zero =>
        b.Zero();
    }
  }

  /** Any run on a new buffer reads what a queue would give, and leaves what a queue would hold. */
  method RunBuffer(blocksize: nat, startLen: nat, ops: seq<Op>) returns (given: seq<octets>, b: Buffer)
    requires startLen > 0
    ensures given == Reads([], ops) && b.Valid() && b.Contents() == Left([], ops)
  {
    b := new Buffer(blocksize, startLen);
    hide After, Given;
    given := [];
    for i := 0 to |ops|
      invariant b.Valid() && fresh(b) && fresh(b.data) && b.data.Length > 0
      invariant b.Contents() == Left([], ops[..i]) && given == Reads([], ops[..i])
    {
      assert ops[..i + 1] == ops[..i] + [ops[i]];
      RunSnoc([], ops[..i], ops[i]);
      var got := Do(b, ops[i]);
      given := given + got;
    }
    assert ops[..|ops|] == ops;
  }

  /** Of the bytes c in memory m, the first k have been given as these packets, and the others are still to be cut. */
  ghost predicate Drawn(m: octets, c: octets, k: nat, packets: seq<octets>) {
    k <= |c| && |c| + 2 <= |m| && m[..|c|] == c &&
    Flatten(packets) == c[..k] && packets + Cut(m, k, |c|) == Cut(m, 0, |c|)
  }

  /** One read_packet at offset k of m, when maxlen is large enough. */
  lemma DrainStep(m: octets, c: octets, k: nat, packets: seq<octets>, maxlen: nat, reading: nat, got: octets)
    requires Drawn(m, c, k, packets) && |c| - k <= maxlen
    requires
      var pe := FirstEnd(m[k..], 0, |c| - k);
      reading == Min(|c| - k, if pe == 0 then 0 else Min(pe + 1, maxlen)) && got == c[k..][..reading]
    ensures k + reading <= |c| && c[k + reading..] == c[k..][reading..]
    ensures reading == 0 ==> packets == Cut(m, 0, |c|)
    ensures reading > 0 ==> Drawn(m, c, k + reading, packets + [got])
  {
    hide Cut, Flatten, FirstEnd;
    CutStep(m, k, |c|, maxlen, reading);
    assert c[k..][..reading] == m[k..k + reading];
    if reading > 0 {
      assert c[..k + reading] == c[..k] + c[k..][..reading];
      FlattenSnoc(packets, got);
      Assoc(packets, [got], Cut(m, k + reading, |c|));
    } else {
      assert packets + [] == packets;
    }
  }

  lemma CutStep(m: octets, k: nat, e: nat, maxlen: nat, reading: nat)
    requires k <= e && e + 2 <= |m| && e - k <= maxlen
    requires
      var pe := FirstEnd(m[k..], 0, e - k);
      reading == Min(e - k, if pe == 0 then 0 else Min(pe + 1, maxlen))
    ensures k + reading <= e
    ensures Cut(m, k, e) == if reading == 0 then [] else [m[k..k + reading]] + Cut(m, k + reading, e)
  {
    FirstEndShift(m, k, k, e);
    NoEnd(m, e);
    hide FirstEnd;
  }

  lemma LaterMemory(d: octets, h: nat, k: nat, beyond: octets)
    requires h + k <= |d|
    ensures d[h + k..] + beyond == (d[h..] + beyond)[k..]
  {
  }

  /** What is left of the memory m and the bytes c in use, k bytes on. */
  ghost predicate At(b: Buffer, beyond: octets, m: octets, c: octets, k: nat)
    requires |beyond| == 2
    reads b, b.data
  {
    b.Valid() && k <= |c| && k <= |m| && b.Contents() == c[k..] && b.Memory(beyond) == m[k..]
  }

  /** One more packet of those in memory. */
  method DrawOne(b: Buffer, beyond: octets, out: array<octet>, ghost m: octets, ghost c: octets, ghost k: nat, packets: seq<octets>)
    returns (more: seq<octets>, reading: nat)
    requires |beyond| == 2 && out != b.data && |c| <= out.Length && At(b, beyond, m, c, k) && Drawn(m, c, k, packets)
    modifies b`used, b`head, out
    ensures k + reading <= |c| && At(b, beyond, m, c, k + reading)
    ensures Drawn(m, c, k + reading, more) && (reading == 0 ==> more == Cut(m, 0, |c|))
  {
    hide Drawn, Count, FirstEnd, Cut, Flatten;
    ghost var h := b.head;
    reading := b.ReadPacket(beyond, out, out.Length);
    ghost var got := out[..reading];
    assert got == c[k..][..reading];
    DrainStep(m, c, k, packets, out.Length, reading, got);
    LaterMemory(b.data[..], h, reading, beyond);
    assert m[k..][reading..] == m[k + reading..];
    more := if reading > 0 then packets + [out[..reading]] else packets;
  }

  /** read_packet until it gives nothing: the packets of memory, as many as packet_count tells beforehand. */
  method DrainPackets(b: Buffer, beyond: octets, maxlen: nat) returns (packets: seq<octets>)
    requires b.Valid() && |beyond| == 2 && b.used <= maxlen
    modifies b
    ensures b.Valid() && packets == Cut(old(b.Memory(beyond)), 0, old(b.used))
    ensures |packets| == Count(old(b.Memory(beyond)), 0, old(b.used))
    ensures old(b.Contents()) == Flatten(packets) + b.Contents()
  {
    hide *;
    packets := [];
    ghost var m, c, k := b.Memory(beyond), b.Contents(), 0;
    AtStart(b, beyond);
    var out := new octet[maxlen];
    var reading: nat := 1;
    while reading > 0
      invariant b.data == old(b.data) && k <= |c| && At(b, beyond, m, c, k) && Drawn(m, c, k, packets)
      invariant reading == 0 ==> packets == Cut(m, 0, |c|)
      decreases |c| - k, reading
    {
      packets, reading := DrawOne(b, beyond, out, m, c, k, packets);
      k := k + reading;
    }
    DrawnAll(b, beyond, m, c, k, packets);
    CutCount(m, 0, |c|);
  }

  lemma AtStart(b: Buffer, beyond: octets)
    requires b.Valid() && |beyond| == 2
    ensures At(b, beyond, b.Memory(beyond), b.Contents(), 0) && Drawn(b.Memory(beyond), b.Contents(), 0, [])
  {
    var m, c := b.Memory(beyond), b.Contents();
    assert m[0..] == m && c[0..] == c && c[..0] == [];
    hide FirstEnd, Cut;
  }

  lemma DrawnAll(b: Buffer, beyond: octets, m: octets, c: octets, k: nat, packets: seq<octets>)
    requires |beyond| == 2 && At(b, beyond, m, c, k) && Drawn(m, c, k, packets)
    ensures b.Valid() && c == Flatten(packets) + b.Contents()
  {
  }

  // ----- an old line feed ------------------------------------------------------------------------

  /** Writing "x", two line feeds, zeroing, and writing "y" and one line feed: one packet is counted. */
  method StaleLineFeed(beyond: octets) returns (b: Buffer, x: nat)
    requires |beyond| == 2
    ensures b.Valid() && b.Contents() == [121, LF] && Packets(b.Contents()) == 0 && x == 1
  {
    b := new Buffer(8, 8);
    var _ := b.Write([120, LF, LF]);
    assert b.Contents()[2] == LF && b.data[2] == LF;
    b.Zero();
    assert b.data[2] == LF;
    hide Count;
    var _ := b.Write([121, LF]);
    assert b.data[2..][0] == LF && b.Contents()[0] == 121 && b.Contents()[1] == LF;
    x := b.PacketCount(beyond);
    CountStale(b.Memory(beyond));
  }

  lemma CountStale(m: octets)
    requires |m| >= 4 && m[0] == 121 && m[1] == LF && m[2] == LF
    ensures Count(m, 0, 2) == 1 && Packets([121, LF]) == 0
  {
    assert Count(m, 1, 2) == 1 + Count(m, 3, 2);
    assert [121, LF][1..] == [LF] && [LF][1..] == [];
    assert Packets([LF]) == Packets([]) == 0;
  }
}
