/**
 From send to receive over the hybi00 framing: messages queued by any interleaving of the
 write pump, given to the transport, cut into reads anywhere, and parsed.
 */
module EndToEnd {
  import opened Bytes
  import WritePump
  import Hybi00
  import opened Utf8
  import opened Wrappers

  /** prepare_close of hybi00: no header, and these two bytes. */
  const CLOSE: bytes := [0xFF, 0x00]

  ghost predicate IsFrame(m: WritePump.Message, payload: bytes) {
    m.header + m.payload == Hybi00.Frame(payload) && IsUtf8(payload) && !m.terminal
  }

  predicate IsClose(m: WritePump.Message) { m.header + m.payload == CLOSE }

  /** The messages are the prepared frames of the payloads, and perhaps a close frame and anything behind it. */
  ghost predicate Frames(ms: seq<WritePump.Message>, payloads: seq<bytes>) {
    && |payloads| <= |ms|
    && (forall i :: 0 <= i < |payloads| ==> IsFrame(ms[i], payloads[i]))
    && (|payloads| < |ms| ==> IsClose(ms[|payloads|]))
  }

  /** What the transport has been given, as one stream of bytes. */
  function Given(s: WritePump.System): bytes { Flatten(s.sent) }

  lemma {:induction false} BuffersAreWire(ms: seq<WritePump.Message>, payloads: seq<bytes>)
    requires |ms| == |payloads| && forall i :: 0 <= i < |ms| ==> IsFrame(ms[i], payloads[i])
    ensures Flatten(WritePump.Buffers(ms)) == Hybi00.Wire(payloads)
    decreases |ms|
  {
    hide IsUtf8, Hybi00.Frame;
    if ms != [] {
      var n := |ms| - 1;
      BuffersAreWire(ms[..n], payloads[..n]);
      assert payloads == payloads[..n] + [payloads[n]];
      Hybi00.WireSnoc(payloads[..n], payloads[n]);
      var b, h, p := WritePump.Buffers(ms[..n]), ms[n].header, ms[n].payload;
      FlattenAppend(b, [h, p]);
      FlattenTwo(h, p);
      assert Hybi00.Wire(payloads[..n]) + (h + p) == Hybi00.Wire(payloads);
    }
  }

  lemma FlattenTwo<T>(a: seq<T>, b: seq<T>)
    ensures Flatten([a, b]) == a + b
  {
    assert [a, b][1..] == [b] && [b][1..] == [];
    assert Flatten([b]) == b + Flatten<T>([]) == b;
  }

  /** A stream of frames, and behind them nothing or what a close frame starts. */
  predicate EndsInClose(rest: bytes) { rest == [] || rest[0] == 0xFF }

  /** The stream of messages: the frames of the payloads and what is behind. */
  lemma StreamOf(ms: seq<WritePump.Message>, payloads: seq<bytes>) returns (rest: bytes)
    requires Frames(ms, payloads)
    ensures Flatten(WritePump.Buffers(ms)) == Hybi00.Wire(payloads) + rest && EndsInClose(rest)
    ensures rest == [] <==> |payloads| == |ms|
  {
    hide IsUtf8, Hybi00.Frame, WritePump.Buffers, Hybi00.Wire;
    var n := |payloads|;
    assert ms == ms[..n] + ms[n..];
    BuffersAreWire(ms[..n], payloads);
    WritePump.BuffersAppend(ms[..n], ms[n..]);
    FlattenAppend(WritePump.Buffers(ms[..n]), WritePump.Buffers(ms[n..]));
    rest := Flatten(WritePump.Buffers(ms[n..]));
    if n == |ms| {
      NoBuffers(ms[n..]);
    } else {
      CloseFirst(ms[n..]);
    }
  }

  lemma NoBuffers(ms: seq<WritePump.Message>)
    requires ms == []
    ensures Flatten(WritePump.Buffers(ms)) == []
  {
  }

  lemma CloseFirst(ms: seq<WritePump.Message>)
    requires ms != [] && IsClose(ms[0])
    ensures Flatten(WritePump.Buffers(ms)) != [] && Flatten(WritePump.Buffers(ms))[0] == 0xFF
  {
    var m := ms[0];
    assert ms == [m] + ms[1..];
    WritePump.BuffersAppend([m], ms[1..]);
    FlattenAppend(WritePump.Buffers([m]), WritePump.Buffers(ms[1..]));
    assert [m][..0] == [];
    assert WritePump.Buffers([m]) == WritePump.Buffers([]) + [m.header, m.payload] == [m.header, m.payload];
    FlattenTwo(m.header, m.payload);
    assert (m.header + m.payload)[0] == 0xFF;
  }

  lemma FramesPrefix(ms: seq<WritePump.Message>, payloads: seq<bytes>, n: nat)
    requires Frames(ms, payloads) && n <= |ms|
    ensures Frames(ms[..n], if n <= |payloads| then payloads[..n] else payloads)
  {
    hide IsFrame, IsClose;
  }

  /** Feeding the whole stream: the payloads granted, and an error where one is refused or a close frame comes. */
  lemma FeedStream(payloads: seq<bytes>, rest: bytes, have: Hybi00.Manager)
    requires (forall i :: 0 <= i < |payloads| ==> IsUtf8(payloads[i])) && EndsInClose(rest)
    ensures
      var k, r := Hybi00.Granted(have, 0, |payloads|), Hybi00.Feed(Hybi00.START, Hybi00.Wire(payloads) + rest, have);
      r.delivered == payloads[..k] &&
      r.error == (if k < |payloads| then Some(Hybi00.NoIncomingBuffers)
                  else if rest == [] then None else Some(Hybi00.ProtocolViolation))
  {
    var k := Hybi00.Granted(have, 0, |payloads|);
    Hybi00.FeedWire(payloads, rest, 0, have);
    assert Hybi00.Feed(Hybi00.Fresh(k), rest, have).delivered == [] by { hide Hybi00.Wire; }
    hide Hybi00.Feed, Hybi00.Wire, IsUtf8, Hybi00.Granted;
    assert payloads + [] == payloads && (k == |payloads| ==> payloads[..k] == payloads);
  }

  /** A beginning of the stream gives the first of these messages, and no error that the whole does not give. */
  lemma FeedBeginning(all: bytes, read: bytes, have: Hybi00.Manager)
    requires read <= all
    ensures var r, w := Hybi00.Feed(Hybi00.START, read, have), Hybi00.Feed(Hybi00.START, all, have);
            r.delivered <= w.delivered && (r.error.Some? ==> r == w)
  {
    hide Hybi00.Feed;
    var rest := all[|read|..];
    assert all == read + rest;
    Hybi00.FeedAppend(Hybi00.START, read, rest, have);
  }

  lemma GoodPayloads(ms: seq<WritePump.Message>, payloads: seq<bytes>)
    requires Frames(ms, payloads)
    ensures forall i :: 0 <= i < |payloads| ==> IsUtf8(payloads[i])
  {
    hide IsUtf8, Hybi00.Frame, IsClose;
  }

  lemma NotWaiting()
    ensures Hybi00.START.phase !in {Hybi00.Ready, Hybi00.FatalError}
  {
  }

  /** What the pump has given to the transport: the frames of the messages handed over, the first ones pushed. */
  lemma GivenIsStream(run: seq<WritePump.Event>, s: WritePump.System)
    requires WritePump.Reachable(run, s)
    ensures Given(s) == Flatten(WritePump.Buffers(s.handed))
    ensures |s.handed| <= |s.pushed| && s.handed == s.pushed[..|s.handed|]
  {
    WritePump.PumpSafety(run, s);
  }

  /**
   The receiver reads a beginning of the bytes given to the transport, cut anywhere: its messages
   are the first payloads pushed, in order, and an error means a refused message or a close frame.
   */
  lemma DeliversPrefix(run: seq<WritePump.Event>, s: WritePump.System, payloads: seq<bytes>, chunks: seq<bytes>, have: Hybi00.Manager)
    requires WritePump.Reachable(run, s) && Frames(s.pushed, payloads) && Flatten(chunks) <= Given(s)
    ensures
      var r := Hybi00.FeedChunks(Hybi00.START, chunks, have);
      r.delivered <= payloads &&
      (r.error.Some? ==> Hybi00.Granted(have, 0, |payloads|) < |payloads| || |payloads| < |s.handed|)
  {
    hide *;
    GivenIsStream(run, s);
    var n := |s.handed|;
    FramesPrefix(s.pushed, payloads, n);
    FramesCount(s.pushed, payloads);
    var first := if n <= |payloads| then payloads[..n] else payloads;
    var rest := StreamOf(s.handed, first);
    GoodPayloads(s.handed, first);
    NotWaiting();
    Hybi00.FeedChunksIsFeed(Hybi00.START, chunks, have);
    FeedStream(first, rest, have);
    FeedBeginning(Given(s), Flatten(chunks), have);
    GrantedLonger(have, 0, |first|, |payloads|);
    FramesCount(s.handed, first);
  }

  lemma FramesCount(ms: seq<WritePump.Message>, payloads: seq<bytes>)
    requires Frames(ms, payloads)
    ensures |payloads| <= |ms|
  {
  }

  lemma {:induction false} GrantedLonger(have: Hybi00.Manager, n: nat, a: nat, b: nat)
    requires a <= b
    ensures Hybi00.Granted(have, n, a) < a ==> Hybi00.Granted(have, n, b) < b
    decreases a
  {
    if a > 0 {
      GrantedLonger(have, n + 1, a - 1, b - 1);
    }
  }

  /**
   When the pump comes to rest with no failed write, and the manager grants every message, a
   receiver of all bytes gets every payload pushed before the first close frame, once and in order.
   */
  lemma DeliversAll(run: seq<WritePump.Event>, s: WritePump.System, payloads: seq<bytes>, chunks: seq<bytes>, have: Hybi00.Manager)
    requires WritePump.Reachable(run, s) && WritePump.Quiet(s) && !s.broken
    requires Frames(s.pushed, payloads) && Flatten(chunks) == Given(s)
    requires Hybi00.Granted(have, 0, |payloads|) == |payloads|
    ensures
      var r := Hybi00.FeedChunks(Hybi00.START, chunks, have);
      r.delivered == payloads &&
      r.error == if |payloads| == |s.pushed| then None else Some(Hybi00.ProtocolViolation)
  {
    hide *;
    assert run + [] == run;
    WritePump.Drained(run, [], s, s) by { NoPushes(); }
    GivenIsStream(run, s);
    BatchReachesClose(s.pushed, payloads);
    FramesCount(s.pushed, payloads);
    var n := WritePump.BatchLength(s.pushed);
    FramesPrefix(s.pushed, payloads, n);
    assert n == |payloads| ==> payloads[..n] == payloads;
    var rest := StreamOf(s.handed, payloads);
    GoodPayloads(s.handed, payloads);
    NotWaiting();
    Hybi00.FeedChunksIsFeed(Hybi00.START, chunks, have);
    FeedStream(payloads, rest, have);
    assert payloads[..|payloads|] == payloads;
  }

  lemma NoPushes()
    ensures WritePump.NoPush([])
  {
  }

  /** The pump takes all data frames and the close frame behind them. */
  lemma {:induction false} BatchReachesClose(ms: seq<WritePump.Message>, payloads: seq<bytes>)
    requires Frames(ms, payloads)
    ensures WritePump.BatchLength(ms) > |payloads| || (WritePump.BatchLength(ms) == |payloads| == |ms|)
    decreases |ms|
  {
    hide IsUtf8, Hybi00.Frame, IsClose;
    if payloads != [] {
      BatchReachesClose(ms[1..], payloads[1..]);
    }
  }
}
