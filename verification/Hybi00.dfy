/**
 The hybi00 frame processor (websocketpp/processors/hybi00.hpp) and the read loop that
 drives it (websocketpp/impl/connection_impl.hpp). The printer and the parser undo each
 other because validated UTF-8 never holds the trailer byte.
 */
module Hybi00 {
  import opened Bytes
  import opened Utf8
  import opened Wrappers

  datatype Result<+T> = Success(value: T) | Failure(error: Error)

  datatype Error = InvalidArguments | InvalidOpcode | InvalidPayload | ProtocolViolation | NoIncomingBuffers

  datatype Message = Message(opcode: nat, header: bytes, payload: bytes, prepared: bool) {
    function OnWire(): bytes { header + payload }
  }

  const OPCODE_TEXT: nat := 1
  const MSG_HDR: byte := 0x00
  const MSG_FTR: byte := 0xFF

  /** A payload between header and trailer byte. */
  function Frame(payload: bytes): bytes { [MSG_HDR] + payload + [MSG_FTR] }

  // ----- sending ------------------------------------------------------------------

  /** Null message pointers are modelled by None. */
  method PrepareDataFrame(input: Option<Message>, output: Option<Message>) returns (r: Result<Message>)
    ensures r.Success? <==>
      input.Some? && output.Some? && input.value.opcode == OPCODE_TEXT && IsUtf8(input.value.payload)
    ensures r.Success? ==> r.value.OnWire() == Frame(input.value.payload) && r.value.header == [MSG_HDR]
    ensures r.Success? ==> r.value.OnWire() == [0x00] + input.value.payload + [0xFF]
    ensures r.Success? ==> r.value.prepared && r.value.opcode == output.value.opcode
    ensures r.Failure? ==>
      r.error == (if input.None? || output.None? then InvalidArguments
                  else if input.value.opcode != OPCODE_TEXT then InvalidOpcode
                  else InvalidPayload)
  {
    if input.None? || output.None? {
      return Failure(InvalidArguments);
    }
    if input.value.opcode != OPCODE_TEXT {
      return Failure(InvalidOpcode);
    }
    var valid := Validate(input.value.payload);
    if !valid {
      return Failure(InvalidPayload);
    }
    var out := output.value.(header := [MSG_HDR]);
    out := out.(payload := input.value.payload);
    out := out.(payload := out.payload + [MSG_FTR]);
    r := Success(out.(prepared := true));
  }

  // ----- what a byte stream means to a receiver --------------------------------------

  datatype Phase = Header | Payload | Ready | FatalError

  /** Whether the message manager hands out a message, each time that it is asked for one. */
  type Manager = nat -> bool

  /** Parser state: the phase, the payload bytes of the message begun, and how many messages were asked for. */
  datatype Parser = Parser(phase: Phase, msg: bytes, asked: nat)

  /** Between two messages. */
  function Fresh(asked: nat): Parser { Parser(Header, [], asked) }

  const START := Parser(Header, [], 0)

  /** The parser reached, the messages handed over on the way, and the error that stopped it. */
  datatype Fed = Fed(parser: Parser, delivered: seq<bytes>, error: Option<Error>)

  /** The stream read byte by byte, each finished message being taken at once. */
  function Feed(p: Parser, s: bytes, have: Manager): (r: Fed)
    requires p.phase == FatalError ==> s == []
    decreases |s|, p.phase == Ready
  {
    if s == [] then Fed(p, [], None)
    else match p.phase
      case Header =>
        if s[0] != MSG_HDR then Fed(Parser(FatalError, [], p.asked), [], Some(ProtocolViolation))
        else if !have(p.asked) then Fed(Parser(FatalError, [], p.asked + 1), [], Some(NoIncomingBuffers))
        else Feed(Parser(Payload, [], p.asked + 1), s[1..], have)
      case Payload =>
        if s[0] != MSG_FTR then Feed(Parser(Payload, p.msg + [s[0]], p.asked), s[1..], have)
        else Deliver(p.msg, Feed(Fresh(p.asked), s[1..], have))
      case Ready => Deliver(p.msg, Feed(Fresh(p.asked), s, have))
      case FatalError => Fed(p, [], None)
  }

  function Deliver(m: bytes, r: Fed): Fed { r.(delivered := [m] + r.delivered) }

  /** One read after the other; nothing is read after an error. */
  function FeedChunks(p: Parser, chunks: seq<bytes>, have: Manager): (r: Fed)
    requires p.phase != FatalError
    decreases |chunks|
  {
    if chunks == [] then Fed(p, [], None)
    else
      var first := Feed(p, chunks[0], have);
      FeedKeepsGoing(p, chunks[0], have);
      if first.error.Some? then first
      else
        var rest := FeedChunks(first.parser, chunks[1..], have);
        rest.(delivered := first.delivered + rest.delivered)
  }

  lemma {:induction false} FeedKeepsGoing(p: Parser, s: bytes, have: Manager)
    requires p.phase != FatalError
    ensures var r := Feed(p, s, have); r.error.Some? <==> r.parser.phase == FatalError
    ensures var r := Feed(p, s, have); r.parser.phase == Ready ==> s == []
    decreases |s|, p.phase == Ready
  {
    if s != [] {
      match p.phase
      case Header =>
        if s[0] == MSG_HDR && have(p.asked) {
          FeedKeepsGoing(Parser(Payload, [], p.asked + 1), s[1..], have);
        }
      case Payload =>
        FeedKeepsGoing(if s[0] != MSG_FTR then Parser(Payload, p.msg + [s[0]], p.asked) else Fresh(p.asked), s[1..], have);
      case Ready =>
        FeedKeepsGoing(Fresh(p.asked), s, have);
    }
  }

  /** Reading a + b is reading a, then b unless a ended in an error. */
  lemma {:induction false} FeedAppend(p: Parser, a: bytes, b: bytes, have: Manager)
    requires p.phase != FatalError && (a == [] ==> p.phase != Ready)
    ensures var ra := Feed(p, a, have);
            var rab := Feed(p, a + b, have);
            if ra.error.Some? then rab == ra
            else ra.parser.phase != FatalError &&
                 var rb := Feed(ra.parser, b, have);
                 rab == Fed(rb.parser, ra.delivered + rb.delivered, rb.error)
    decreases |a|, p.phase == Ready
  {
    if a == [] {
      assert a + b == b;
    } else {
      FeedKeepsGoing(p, a, have);
      assert (a + b)[0] == a[0] && (a + b)[1..] == a[1..] + b;
      match p.phase
      case Header =>
        if a[0] == MSG_HDR && have(p.asked) {
          FeedAppend(Parser(Payload, [], p.asked + 1), a[1..], b, have);
        }
      case Payload =>
        FeedAppend(if a[0] != MSG_FTR then Parser(Payload, p.msg + [a[0]], p.asked) else Fresh(p.asked), a[1..], b, have);
      case Ready =>
        FeedAppend(Fresh(p.asked), a, b, have);
    }
  }

  // ----- the processor ----------------------------------------------------------------

  /** Position of the first b at or after from, or the length. */
  function Find(s: bytes, from: nat, b: byte): (i: nat)
    requires from <= |s|
    ensures from <= i <= |s| && b !in s[from..i] && (i < |s| ==> s[i] == b)
    decreases |s| - from
  {
    if from == |s| || s[from] == b then from
    else
      var i := Find(s, from + 1, b);
      assert s[from..i] == [s[from]] + s[from + 1..i];
      i
  }

  lemma {:induction false} FeedPayload(p: Parser, s: bytes, have: Manager)
    requires p.phase == Payload && MSG_FTR !in s
    ensures Feed(p, s, have) == Fed(Parser(Payload, p.msg + s, p.asked), [], None)
    decreases |s|
  {
    if s == [] {
      assert p.msg + s == p.msg;
    } else {
      assert p.msg + [s[0]] + s[1..] == p.msg + s;
      FeedPayload(Parser(Payload, p.msg + [s[0]], p.asked), s[1..], have);
    }
  }

  /** Having read buf[..p] from before, the processor is at now with error ec. */
  ghost predicate Took(before: Parser, buf: bytes, have: Manager, p: nat, now: Parser, ec: Option<Error>)
    requires p <= |buf| && before.phase != FatalError
  {
    if ec.Some? then
      // the bytes up to the error are exactly what the stream semantics rejects
      now.phase == FatalError && Feed(before, buf, have) == Fed(now, [], ec)
    else if now.phase == Ready then
      // it stops behind the trailer of the first message
      p > 0 && Feed(before, buf[..p], have) == Fed(Fresh(now.asked), [now.msg], None)
    else
      now.phase != FatalError && Feed(before, buf[..p], have) == Fed(now, [], None)
  }

  lemma TookHeader(before: Parser, buf: bytes, have: Manager, p: nat, asked: nat)
    requires p < |buf| && before.phase !in {Ready, FatalError}
    requires Took(before, buf, have, p, Fresh(asked), None)
    ensures
      if buf[p] != MSG_HDR then
        Took(before, buf, have, p, Parser(FatalError, [], asked), Some(ProtocolViolation))
      else if !have(asked) then
        Took(before, buf, have, p + 1, Parser(FatalError, [], asked + 1), Some(NoIncomingBuffers))
      else
        Took(before, buf, have, p + 1, Parser(Payload, [], asked + 1), None)
  {
    if buf[p] == MSG_HDR && have(asked) {
      assert buf[..p + 1] == buf[..p] + [buf[p]];
      FeedAppend(before, buf[..p], [buf[p]], have);
    } else {
      assert buf == buf[..p] + buf[p..];
      FeedAppend(before, buf[..p], buf[p..], have);
    }
  }

  lemma TookPayload(before: Parser, buf: bytes, have: Manager, p: nat, m: bytes, asked: nat, it: nat)
    requires p <= it <= |buf| && before.phase !in {Ready, FatalError}
    requires MSG_FTR !in buf[p..it] && (it < |buf| ==> buf[it] == MSG_FTR)
    requires Took(before, buf, have, p, Parser(Payload, m, asked), None)
    ensures
      if it == |buf| then Took(before, buf, have, it, Parser(Payload, m + buf[p..it], asked), None)
      else Took(before, buf, have, it + 1, Parser(Ready, m + buf[p..it], asked), None)
  {
    assert buf[..it] == buf[..p] + buf[p..it];
    FeedAppend(before, buf[..p], buf[p..it], have);
    FeedPayload(Parser(Payload, m, asked), buf[p..it], have);
    if it < |buf| {
      var now := Parser(Payload, m + buf[p..it], asked);
      assert buf[..it + 1] == buf[..it] + [buf[it]];
      FeedAppend(before, buf[..it], [buf[it]], have);
      assert [buf[it]][1..] == [];
      assert Feed(Fresh(asked), [], have) == Fed(Fresh(asked), [], None);
      assert Feed(now, [buf[it]], have) == Fed(Fresh(asked), [now.msg], None);
    }
  }

  class Processor {
    var phase: Phase
    var msg: Option<bytes>
    var asked: nat

    ghost predicate Valid()
      reads this
    {
      phase == Payload || phase == Ready ==> msg.Some?
    }

    ghost function State(): Parser
      reads this
      requires Valid()
    {
      Parser(phase, if phase == Payload || phase == Ready then msg.value else [], asked)
    }

    constructor ()
      ensures Valid() && State() == START
    {
      phase, msg, asked := Header, None, 0;
    }

    /** asked stands for the message manager, which is asked once for each message begun. */
    method Consume(buf: bytes, have: Manager) returns (p: nat, ec: Option<Error>)
      requires Valid()
      modifies this
      ensures Valid() && p <= |buf|
      ensures old(phase) == Ready || old(phase) == FatalError ==>
        p == 0 && ec == None && State() == old(State())
      ensures old(phase) == Header || old(phase) == Payload ==>
        && Took(old(State()), buf, have, p, State(), ec)
        && (ec == None && phase != Ready ==> p == |buf|)
    {
      p := 0;
      ec := None;
      ghost var before := State();
      while p < |buf|
        invariant p <= |buf| && Valid()
        invariant before.phase in {Ready, FatalError} ==> p == 0 && State() == before && ec == None
        invariant before.phase !in {Ready, FatalError} ==> Took(before, buf, have, p, State(), ec)
        invariant ec.Some? ==> phase == FatalError
        decreases |buf| - p, phase != FatalError
      {
        if phase == Header {
          TookHeader(before, buf, have, p, asked);
          if buf[p] == MSG_HDR {
            p := p + 1;
            asked := asked + 1;
            if !have(asked - 1) {
              ec := Some(NoIncomingBuffers);
              phase, msg := FatalError, None;
            } else {
              phase, msg := Payload, Some([]);
            }
          } else {
            ec := Some(ProtocolViolation);
            phase := FatalError;
          }
        } else if phase == Payload {
          var it := Find(buf, p, MSG_FTR);
          TookPayload(before, buf, have, p, msg.value, asked, it);
          msg := Some(msg.value + buf[p..it]);
          p := it;
          if it != |buf| {
            p := p + 1;
            phase := Ready;
          }
        } else {
          break;
        }
      }
      assert buf[..|buf|] == buf;
    }

    predicate IsReady()
      reads this
    {
      phase == Ready
    }

    method GetMessage() returns (m: Option<bytes>)
      requires Valid()
      modifies this
      ensures Valid() && State() == Fresh(old(asked)) && msg == None && m == old(msg)
    {
      m := msg;
      msg := None;
      phase := Header;
    }
  }

  lemma FeedNothing(p: Parser, have: Manager)
    ensures Feed(p, [], have) == Fed(p, [], None)
  {
  }

  lemma FeedReady(p: Parser, s: bytes, have: Manager)
    requires p.phase == FatalError ==> s == []
    ensures p.phase == Ready && s != [] ==> Feed(p, s, have) == Deliver(p.msg, Feed(Fresh(p.asked), s, have))
  {
  }

  /** One consume in the read loop, and what is left to feed behind it. */
  lemma OneConsume(before: Parser, rest: bytes, n: nat, now: Parser, ec: Option<Error>, have: Manager)
    requires before.phase != FatalError && rest != [] && n <= |rest|
    requires before.phase == Ready ==> n == 0 && ec == None && now == before
    requires before.phase != Ready ==>
      Took(before, rest, have, n, now, ec) && (ec == None && now.phase != Ready ==> n == |rest|)
    ensures ec.Some? ==> Feed(before, rest, have) == Fed(now, [], ec)
    ensures ec.None? && now.phase == Ready ==>
      Feed(before, rest, have) == Deliver(now.msg, Feed(Fresh(now.asked), rest[n..], have))
    ensures ec.None? && now.phase != Ready ==>
      n == |rest| && now.phase != FatalError && Feed(before, rest, have) == Fed(now, [], None)
  {
    hide Feed;
    FeedReady(before, rest, have);
    if before.phase != Ready && ec.None? {
      assert rest == rest[..n] + rest[n..];
      FeedAppend(before, rest[..n], rest[n..], have);
      FeedNothing(now, have);
    }
  }

  /** The frame loop of handle_read_frame over one read, with a parser that is not fatal. */
  method FrameLoop(proc: Processor, buf: bytes, have: Manager) returns (delivered: seq<bytes>, error: Option<Error>)
    requires proc.Valid() && (proc.phase == FatalError ==> buf == [])
    modifies proc
    ensures proc.Valid() && Fed(proc.State(), delivered, error) == Feed(old(proc.State()), buf, have)
  {
    hide Feed, Took;
    var p := 0;
    delivered, error := [], None;
    ghost var all := Feed(proc.State(), buf, have);
    assert buf[0..] == buf;
    assert [] + all.delivered == all.delivered;
    while p < |buf|
      invariant p <= |buf| && proc.Valid()
      invariant p < |buf| ==> proc.phase != FatalError
      invariant var rest := Feed(proc.State(), buf[p..], have);
                all == rest.(delivered := delivered + rest.delivered)
      decreases |buf| - p, proc.phase == Ready
    {
      ghost var before := proc.State();
      ghost var rest := buf[p..];
      var n, ec := proc.Consume(buf[p..], have);
      OneConsume(before, rest, n, proc.State(), ec, have);
      p := p + n;
      assert rest[n..] == buf[p..];
      if ec.Some? {
        assert delivered + [] == delivered;
        return delivered, ec;
      }
      if proc.IsReady() {
        ghost var after := Feed(Fresh(proc.asked), buf[p..], have);
        var m := proc.GetMessage();
        assert delivered + ([m.value] + after.delivered) == delivered + [m.value] + after.delivered;
        delivered := delivered + [m.value];
      } else {
        assert buf[p..] == [];
        FeedNothing(proc.State(), have);
      }
    }
    assert buf[p..] == [] && delivered + [] == delivered;
    FeedNothing(proc.State(), have);
  }

  /**
   One read. A fatal parser takes no byte and reports no error, so given a byte the frame loop of
   the source goes round for ever (see SpinsWhenFatal): here it ends there and spins tells so.
   */
  method HandleRead(proc: Processor, buf: bytes, have: Manager)
    returns (delivered: seq<bytes>, error: Option<Error>, spins: bool)
    requires proc.Valid()
    modifies proc
    ensures proc.Valid() && (spins <==> old(proc.phase) == FatalError && buf != [])
    ensures spins ==> proc.State() == old(proc.State()) && delivered == [] && error == None
    ensures !spins ==> Fed(proc.State(), delivered, error) == Feed(old(proc.State()), buf, have)
  {
    hide Feed, Took;
    if proc.phase == FatalError && buf != [] {
      // the first round changes nothing, and so does every other
      var n, ec := proc.Consume(buf, have);
      return [], None, n == 0 && ec.None? && !proc.IsReady();
    }
    delivered, error := FrameLoop(proc, buf, have);
    spins := false;
  }

  lemma FeedChunksCons(p: Parser, chunks: seq<bytes>, have: Manager)
    requires p.phase != FatalError
    ensures chunks == [] ==> FeedChunks(p, chunks, have) == Fed(p, [], None)
    ensures chunks != [] && Feed(p, chunks[0], have).error.Some? ==>
      FeedChunks(p, chunks, have) == Feed(p, chunks[0], have)
    ensures chunks != [] && Feed(p, chunks[0], have).error.None? ==>
      Feed(p, chunks[0], have).parser.phase != FatalError &&
      var rest := FeedChunks(Feed(p, chunks[0], have).parser, chunks[1..], have);
      FeedChunks(p, chunks, have) == rest.(delivered := Feed(p, chunks[0], have).delivered + rest.delivered)
  {
    hide Feed;
    if chunks != [] {
      FeedKeepsGoing(p, chunks[0], have);
    }
  }

  /** The reads of a connection until one ends in an error (module ReadLoop has those behind it). */
  method ReceiveAll(chunks: seq<bytes>, have: Manager) returns (delivered: seq<bytes>, error: Option<Error>)
    ensures var r := FeedChunks(START, chunks, have);
            delivered == r.delivered && error == r.error
  {
    hide Feed, FeedChunks;
    var proc := new Processor();
    delivered, error := [], None;
    var i := 0;
    assert chunks[0..] == chunks;
    while i < |chunks| && error == None
      invariant i <= |chunks| && proc.Valid() && fresh(proc)
      invariant error == None ==> proc.phase != FatalError
      invariant var all := FeedChunks(START, chunks, have);
                if error.Some? then all == Fed(proc.State(), delivered, error)
                else var rest := FeedChunks(proc.State(), chunks[i..], have);
                     all == rest.(delivered := delivered + rest.delivered)
    {
      FeedKeepsGoing(proc.State(), chunks[i], have);
      FeedChunksCons(proc.State(), chunks[i..], have);
      assert chunks[i..][1..] == chunks[i + 1..] && chunks[i..][0] == chunks[i];
      var got, ec, _ := HandleRead(proc, chunks[i], have);
      delivered, error := delivered + got, ec;
      i := i + 1;
    }
    if error == None {
      FeedChunksCons(proc.State(), chunks[i..], have);
    }
  }

  /** A fatal parser that is given bytes keeps the frame loop at its first byte for ever. */
  method SpinsWhenFatal(proc: Processor, buf: bytes, have: Manager, iterations: nat) returns (p: nat)
    requires proc.Valid() && proc.phase == FatalError && buf != []
    modifies proc
    ensures p == 0 < |buf| && proc.Valid() && proc.State() == old(proc.State())
  {
    p := 0;
    for i := 0 to iterations
      invariant p == 0 && proc.Valid() && proc.State() == old(proc.State())
    {
      assert buf[p..] == buf;
      var n, ec := proc.Consume(buf[p..], have);
      p := p + n;
      if ec.Some? || proc.IsReady() {
        assert false;
      }
    }
  }

  // ----- the round trip ----------------------------------------------------------------

  function Wire(payloads: seq<bytes>): (w: bytes) {
    if payloads == [] then [] else Frame(payloads[0]) + Wire(payloads[1..])
  }

  lemma {:induction false} WireSnoc(payloads: seq<bytes>, last: bytes)
    ensures Wire(payloads + [last]) == Wire(payloads) + Frame(last)
  {
    if payloads == [] {
      assert payloads + [last] == [last] && [last][1..] == [];
    } else {
      assert (payloads + [last])[1..] == payloads[1..] + [last];
      WireSnoc(payloads[1..], last);
    }
  }

  lemma FeedFrame(m: bytes, rest: bytes, asked: nat, have: Manager)
    requires MSG_FTR !in m && have(asked)
    ensures Feed(Fresh(asked), Frame(m) + rest, have) == Deliver(m, Feed(Fresh(asked + 1), rest, have))
  {
    var open := Parser(Payload, [], asked + 1);
    assert Frame(m) + rest == [MSG_HDR] + (m + ([MSG_FTR] + rest));
    assert ([MSG_HDR] + (m + ([MSG_FTR] + rest)))[1..] == m + ([MSG_FTR] + rest);
    FeedAppend(open, m, [MSG_FTR] + rest, have);
    FeedPayload(open, m, have);
    assert [] + m == m && ([MSG_FTR] + rest)[1..] == rest;
    assert Feed(Parser(Payload, m, asked + 1), [MSG_FTR] + rest, have) == Deliver(m, Feed(Fresh(asked + 1), rest, have));
  }

  /** A frame reads back as its payload exactly when the payload lacks the trailer byte and a message is handed out. */
  lemma FrameReadsBackIff(m: bytes, have: Manager)
    ensures Feed(START, Frame(m), have) == Fed(Fresh(1), [m], None) <==> MSG_FTR !in m && have(0)
  {
    if !have(0) {
      assert Frame(m)[0] == MSG_HDR;
    } else if MSG_FTR !in m {
      FeedFrame(m, [], 0, have);
      assert Frame(m) + [] == Frame(m);
    } else {
      var k := Find(m, 0, MSG_FTR);
      assert m[0..k] == m[..k];
      assert Frame(m) == Frame(m[..k]) + (m[k + 1..] + [MSG_FTR]);
      FeedFrame(m[..k], m[k + 1..] + [MSG_FTR], 0, have);
      assert Feed(START, Frame(m), have).delivered[0] == m[..k];
      assert |m[..k]| < |m|;
    }
  }

  /** How many of m requests from the n-th on are granted before one is refused. */
  function Granted(have: Manager, n: nat, m: nat): (k: nat)
    ensures k <= m
    decreases m
  {
    if m == 0 || !have(n) then 0 else 1 + Granted(have, n + 1, m - 1)
  }

  /** The frames of valid payloads, with any bytes behind: delivered until the manager refuses one. */
  lemma {:induction false} FeedWire(payloads: seq<bytes>, rest: bytes, asked: nat, have: Manager)
    requires forall i :: 0 <= i < |payloads| ==> IsUtf8(payloads[i])
    ensures
      var k, r := Granted(have, asked, |payloads|), Feed(Fresh(asked), Wire(payloads) + rest, have);
      if k < |payloads| then r.delivered == payloads[..k] && r.error == Some(NoIncomingBuffers)
      else
        var f := Feed(Fresh(asked + k), rest, have);
        r == Fed(f.parser, payloads + f.delivered, f.error)
    decreases |payloads|
  {
    hide Feed, Wire, Frame, Granted, IsUtf8, Deliver, Run;
    WireCons(payloads, rest);
    GrantedCons(have, asked, |payloads|);
    if payloads == [] {
      var f := Feed(Fresh(asked), rest, have);
      assert [] + f.delivered == f.delivered;
    } else {
      var m, more := payloads[0], Wire(payloads[1..]) + rest;
      if have(asked) {
        Utf8IsAccepted(0, m);
        AcceptedHasNoFF(Decoder(ACCEPT, 0), m);
        FeedFrame(m, more, asked, have);
        FeedWire(payloads[1..], rest, asked + 1, have);
        var k, r := Granted(have, asked + 1, |payloads| - 1), Feed(Fresh(asked + 1), more, have);
        DeliverIs(m, r);
        if k + 1 < |payloads| {
          assert payloads[..k + 1] == [m] + payloads[1..][..k];
        } else {
          Assoc([m], payloads[1..], Feed(Fresh(asked + 1 + k), rest, have).delivered);
          assert payloads == [m] + payloads[1..];
        }
      } else {
        FeedRefused(m, more, asked, have);
        assert payloads[..0] == [];
      }
    }
  }

  lemma DeliverIs(m: bytes, r: Fed)
    ensures Deliver(m, r) == Fed(r.parser, [m] + r.delivered, r.error)
  {
  }

  lemma WireCons(payloads: seq<bytes>, rest: bytes)
    ensures payloads == [] ==> Wire(payloads) + rest == rest
    ensures payloads != [] ==> Wire(payloads) + rest == Frame(payloads[0]) + (Wire(payloads[1..]) + rest)
  {
  }

  lemma GrantedCons(have: Manager, n: nat, m: nat)
    ensures Granted(have, n, m) == if m == 0 || !have(n) then 0 else 1 + Granted(have, n + 1, m - 1)
  {
  }

  lemma FeedRefused(m: bytes, rest: bytes, asked: nat, have: Manager)
    requires !have(asked)
    ensures Feed(Fresh(asked), Frame(m) + rest, have) == Fed(Parser(FatalError, [], asked + 1), [], Some(NoIncomingBuffers))
  {
    assert (Frame(m) + rest)[0] == MSG_HDR;
  }

  /** Where the stream is cut into reads makes no difference. */
  lemma {:induction false} FeedChunksIsFeed(p: Parser, chunks: seq<bytes>, have: Manager)
    requires p.phase !in {Ready, FatalError}
    ensures FeedChunks(p, chunks, have) == Feed(p, Flatten(chunks), have)
    decreases |chunks|
  {
    if chunks != [] {
      FeedKeepsGoing(p, chunks[0], have);
      FeedAppend(p, chunks[0], Flatten(chunks[1..]), have);
      var first := Feed(p, chunks[0], have);
      if first.error.None? {
        assert first.parser.phase != Ready;
        FeedChunksIsFeed(first.parser, chunks[1..], have);
      }
    }
  }

  /**
   Accepted payloads, framed and cut into reads anywhere, are delivered as they were, all of them
   unless the message manager refuses a message, and then those before it.
   */
  lemma RoundTrip(payloads: seq<bytes>, chunks: seq<bytes>, have: Manager)
    requires forall i :: 0 <= i < |payloads| ==> IsUtf8(payloads[i])
    requires Flatten(chunks) == Wire(payloads)
    ensures
      var k, r := Granted(have, 0, |payloads|), FeedChunks(START, chunks, have);
      if k == |payloads| then r == Fed(Fresh(k), payloads, None)
      else r.delivered == payloads[..k] && r.error == Some(NoIncomingBuffers)
  {
    hide IsUtf8, Granted;
    FeedChunksIsFeed(START, chunks, have);
    FeedWire(payloads, [], 0, have);
    assert Wire(payloads) + [] == Wire(payloads) && payloads + [] == payloads;
  }

  // ----- the streams that are taken ------------------------------------------------------

  /** The first 0xFF behind the first byte. */
  predicate EndsAt(s: bytes, k: int) { 0 < k < |s| && s[k] == 0xFF && 0xFF !in s[1..k] }

  lemma OneEnd(s: bytes, i: int, k: int)
    requires EndsAt(s, i) && 0 < k <= |s| && 0xFF !in s[1..k]
    ensures k <= i && (EndsAt(s, k) ==> k == i)
  {
    if k < i {
      assert s[k] in s[1..i];
    }
  }

  /** Whole frames: each a zero byte, bytes other than 0xFF, and then 0xFF. */
  ghost predicate WholeFrames(s: bytes)
    decreases |s|
  {
    s == [] || (s[0] == 0x00 && exists k :: EndsAt(s, k) && WholeFrames(s[k + 1..]))
  }

  lemma WholeFirst(s: bytes, k: nat)
    requires 0 < k <= |s| && s[0] == 0x00 && 0xFF !in s[1..k]
    ensures k == |s| ==> !WholeFrames(s)
    ensures k < |s| && s[k] == 0xFF ==> (WholeFrames(s) <==> WholeFrames(s[k + 1..]))
  {
    if i :| EndsAt(s, i) && WholeFrames(s[i + 1..]) {
      OneEnd(s, i, k);
    }
    assert k < |s| && s[k] == 0xFF ==> EndsAt(s, k);
  }

  ghost predicate Grants(have: Manager) { forall n :: have(n) }

  /** What comes of a first frame, whole or only begun. */
  lemma FeedFirst(s: bytes, k: nat, asked: nat, have: Manager)
    requires 0 < k <= |s| && s[0] == 0x00 && 0xFF !in s[1..k] && have(asked)
    ensures k == |s| ==> Feed(Fresh(asked), s, have) == Fed(Parser(Payload, s[1..], asked + 1), [], None)
    ensures k < |s| && s[k] == 0xFF ==>
      Feed(Fresh(asked), s, have) == Deliver(s[1..k], Feed(Fresh(asked + 1), s[k + 1..], have))
  {
    if k == |s| {
      assert s[1..k] == s[1..] && [] + s[1..] == s[1..];
      FeedPayload(Parser(Payload, [], asked + 1), s[1..], have);
    } else if s[k] == 0xFF {
      hide Feed, Deliver;
      FrameParts(s, k);
      FeedFrame(s[1..k], s[k + 1..], asked, have);
    }
  }

  lemma FrameParts(s: bytes, k: nat)
    requires 0 < k < |s| && s[0] == 0x00 && s[k] == 0xFF
    ensures Frame(s[1..k]) + s[k + 1..] == s
  {
  }

  /** A stream leaves the parser between two messages exactly if it is whole frames. */
  lemma {:induction false} WholeIff(s: bytes, asked: nat, have: Manager)
    requires Grants(have)
    ensures var r := Feed(Fresh(asked), s, have); r.error.None? && r.parser.phase == Header <==> WholeFrames(s)
    decreases |s|
  {
    if s != [] && s[0] == 0x00 {
      var k := Find(s, 1, 0xFF);
      hide Feed, WholeFrames;
      FeedFirst(s, k, asked, have);
      WholeFirst(s, k);
      if k < |s| {
        WholeIff(s[k + 1..], asked + 1, have);
      }
    }
  }

  /** It is a protocol violation exactly if whole frames are followed by a byte other than zero. */
  ghost predicate ViolatesAt(s: bytes, p: int) { 0 <= p < |s| && s[p] != 0x00 && WholeFrames(s[..p]) }

  lemma {:induction false} ViolationIff(s: bytes, asked: nat, have: Manager)
    requires Grants(have)
    ensures Feed(Fresh(asked), s, have).error == if exists p :: ViolatesAt(s, p) then Some(ProtocolViolation) else None
    decreases |s|
  {
    if s == [] {
    } else if s[0] != 0x00 {
      assert s[..0] == [];
      assert ViolatesAt(s, 0);
    } else {
      var k := Find(s, 1, 0xFF);
      FeedFirst(s, k, asked, have);
      hide Feed;
      if k < |s| {
        ViolationIff(s[k + 1..], asked + 1, have);
        var rest := s[k + 1..];
        if p :| ViolatesAt(rest, p) {
          ViolatesBehind(s, k, p + k + 1);
        }
      }
      if p :| ViolatesAt(s, p) {
        ViolatesBehind(s, k, p);
      }
    }
  }

  /** With a first frame up to k, a violation is one of the stream behind it. */
  lemma ViolatesBehind(s: bytes, k: nat, p: int)
    requires 0 < k <= |s| && s[0] == 0x00 && 0xFF !in s[1..k] && (k < |s| ==> s[k] == 0xFF)
    ensures ViolatesAt(s, p) <==> k < p < |s| && ViolatesAt(s[k + 1..], p - k - 1)
  {
    hide WholeFrames;
    if 0 < p <= k && p < |s| {
      assert s[..p][1..p] == s[1..k][..p - 1];
      WholeFirst(s[..p], p);
    } else if k < p < |s| {
      assert s[..p][1..k] == s[1..k] && s[..p][k + 1..] == s[k + 1..][..p - k - 1];
      WholeFirst(s[..p], k);
    }
  }

  ghost function Accepted(payloads: seq<bytes>): seq<bytes> {
    if payloads == [] then []
    else (if IsUtf8(payloads[0]) then [payloads[0]] else []) + Accepted(payloads[1..])
  }

  lemma {:induction false} AcceptedSnoc(payloads: seq<bytes>, last: bytes)
    ensures Accepted(payloads + [last]) == Accepted(payloads) + (if IsUtf8(last) then [last] else [])
  {
    if payloads == [] {
      assert payloads + [last] == [last] && [last][1..] == [];
    } else {
      assert (payloads + [last])[1..] == payloads[1..] + [last];
      AcceptedSnoc(payloads[1..], last);
    }
  }

  /** Text messages prepared one after the other; the refused ones leave nothing on the wire. */
  method PrepareAll(payloads: seq<bytes>) returns (accepted: seq<bytes>, wire: bytes)
    ensures accepted == Accepted(payloads) && wire == Wire(accepted)
    ensures forall i :: 0 <= i < |accepted| ==> IsUtf8(accepted[i])
  {
    accepted, wire := [], [];
    var i := 0;
    while i < |payloads|
      invariant i <= |payloads|
      invariant accepted == Accepted(payloads[..i]) && wire == Wire(accepted)
      invariant forall i :: 0 <= i < |accepted| ==> IsUtf8(accepted[i])
    {
      var r := PrepareDataFrame(
        Some(Message(OPCODE_TEXT, [], payloads[i], false)), Some(Message(OPCODE_TEXT, [], [], false)));
      assert payloads[..i + 1] == payloads[..i] + [payloads[i]];
      AcceptedSnoc(payloads[..i], payloads[i]);
      if r.Success? {
        WireSnoc(accepted, payloads[i]);
        accepted, wire := accepted + [payloads[i]], wire + (r.value.header + r.value.payload);
      }
      i := i + 1;
    }
    assert payloads[..i] == payloads;
  }
}
