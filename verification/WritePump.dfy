/**
 The write pump of a connection (websocketpp/impl/connection_impl.hpp): a queue, a write
 flag, the batch being written and the dispatched wake-ups. Each section under
 m_write_lock is one step; so is each dispatch, each call into the transport and each
 completion. The theorems hold over every interleaving of those steps.
 */
module WritePump {
  import opened Bytes
  import opened Wrappers

  datatype Message = Message(header: bytes, payload: bytes, terminal: bool)

  const SIZE_MODULUS: nat := 0x1_0000_0000_0000_0000
  type size_t = n: nat | n < SIZE_MODULUS

  /** m_send_queue, m_send_buffer_size, m_write_flag, m_current_msgs, m_send_buffer */
  datatype Pump = Pump(
    queue: seq<Message>, bufferSize: size_t, flag: bool, current: seq<Message>, buffer: seq<bytes>)

  const IDLE := Pump([], 0, false, [], [])

  function Total(q: seq<Message>): (n: nat) {
    if q == [] then 0 else |q[0].payload| + Total(q[1..])
  }

  lemma {:induction false} TotalAppend(a: seq<Message>, b: seq<Message>)
    ensures Total(a + b) == Total(a) + Total(b)
  {
    if a == [] {
      assert a + b == b;
    } else {
      assert (a + b)[0] == a[0] && (a + b)[1..] == a[1..] + b;
      TotalAppend(a[1..], b);
    }
  }

  /** A size_t counter once the payloads of q have been taken off it. */
  function Less(size: size_t, q: seq<Message>): size_t { (size - Total(q)) % SIZE_MODULUS }

  lemma LessNone(size: size_t)
    ensures Less(size, []) == size
  {
  }

  lemma LessSnoc(q: seq<Message>, k: nat, size: size_t)
    requires k < |q|
    ensures (Less(size, q[..k]) - |q[k].payload|) % SIZE_MODULUS == Less(size, q[..k + 1])
  {
    assert q[..k + 1] == q[..k] + [q[k]];
    TotalAppend(q[..k], [q[k]]);
    assert [q[k]][1..] == [];
  }

  /** Where write_frame stops pulling: behind the first terminal message, or at the end. */
  function BatchLength(q: seq<Message>): (n: nat)
    ensures n <= |q| && (q != [] ==> n > 0)
    ensures forall i :: 0 <= i < n - 1 ==> !q[i].terminal
    ensures n < |q| ==> q[n - 1].terminal
  {
    if q == [] then 0
    else if q[0].terminal then 1
    else 1 + BatchLength(q[1..])
  }

  /** All but the last message of a batch are non-terminal. */
  predicate IsBatch(b: seq<Message>) { forall i :: 0 <= i < |b| - 1 ==> !b[i].terminal }

  predicate EndsTerminal(b: seq<Message>) { b != [] && b[|b| - 1].terminal }

  lemma {:induction false} BatchEnds(q: seq<Message>, k: nat)
    requires k <= |q| && IsBatch(q[..k])
    requires if k < |q| then EndsTerminal(q[..k]) else true
    ensures BatchLength(q) == k
  {
    if q != [] && !q[0].terminal {
      assert q[..k][1..] == q[1..][..k - 1];
      assert k > 0;
      forall i | 0 <= i < k - 2 ensures !q[1..][i].terminal {
        assert q[..k][i + 1] == q[1..][i];
      }
      BatchEnds(q[1..], k - 1);
    }
  }

  // ----- what each locked section does to the fields -----------------------------------

  function Pushed(p: Pump, m: Message): Pump {
    p.(queue := p.queue + [m], bufferSize := (p.bufferSize + |m.payload|) % SIZE_MODULUS)
  }

  function Taken(p: Pump): Pump {
    if p.flag then p
    else
      var n := BatchLength(p.queue);
      p.(queue := p.queue[n..],
         bufferSize := Less(p.bufferSize, p.queue[..n]),
         flag := p.current + p.queue[..n] != [],
         current := p.current + p.queue[..n])
  }

  lemma TakenIs(p: Pump)
    ensures p.flag ==> Taken(p) == p
    ensures !p.flag ==>
      var n := BatchLength(p.queue);
      Taken(p) == Pump(p.queue[n..], Less(p.bufferSize, p.queue[..n]), p.current + p.queue[..n] != [],
                       p.current + p.queue[..n], p.buffer)
  {
    hide BatchLength;
  }

  /** What write_frame does between its lock and async_write, which is given the buffer. */
  function Gathered(p: Pump): Pump { p.(buffer := p.buffer + Buffers(p.current)) }

  function Cleared(p: Pump): Pump { p.(current := [], buffer := []) }

  function Released(p: Pump): Pump { p.(flag := false) }

  /** The buffers of a batch in the order they go to the transport. */
  function Buffers(b: seq<Message>): (r: seq<bytes>) {
    if b == [] then [] else Buffers(b[..|b| - 1]) + [b[|b| - 1].header, b[|b| - 1].payload]
  }

  class Connection {
    var sendQueue: seq<Message>
    var sendBufferSize: size_t
    var writeFlag: bool
    var currentMsgs: seq<Message>
    var sendBuffer: seq<bytes>

    ghost function Fields(): Pump
      reads this
    {
      Pump(sendQueue, sendBufferSize, writeFlag, currentMsgs, sendBuffer)
    }

    constructor ()
      ensures Fields() == IDLE
    {
      sendQueue, sendBufferSize, writeFlag, currentMsgs, sendBuffer := [], 0, false, [], [];
    }

    method WritePush(msg: Message)
      modifies this`sendQueue, this`sendBufferSize
      ensures Fields() == Pushed(old(Fields()), msg)
    {
      sendBufferSize := (sendBufferSize + |msg.payload|) % SIZE_MODULUS;
      sendQueue := sendQueue + [msg];
    }

    method WritePop() returns (msg: Option<Message>)
      modifies this`sendQueue, this`sendBufferSize
      ensures old(sendQueue) == [] ==> msg == None && Fields() == old(Fields())
      ensures old(sendQueue) != [] ==>
        && msg == Some(old(sendQueue)[0]) && sendQueue == old(sendQueue)[1..]
        && sendBufferSize == (old(sendBufferSize) - |old(sendQueue)[0].payload|) % SIZE_MODULUS
    {
      if sendQueue == [] {
        return None;
      }
      var front := sendQueue[0];
      msg := Some(front);
      sendBufferSize := (sendBufferSize - |front.payload|) % SIZE_MODULUS;
      sendQueue := sendQueue[1..];
    }

    /** The locked section of send, ping, pong and send_close_frame. */
    method LockedPush(msg: Message) returns (needsWriting: bool)
      modifies this`sendQueue, this`sendBufferSize
      ensures Fields() == Pushed(old(Fields()), msg)
      ensures needsWriting <==> !old(writeFlag)
    {
      WritePush(msg);
      needsWriting := !writeFlag && sendQueue != [];
    }

    /** The locked section of write_frame; false when it returns without anything to send. */
    method LockedTake() returns (took: bool)
      modifies this`sendQueue, this`sendBufferSize, this`writeFlag, this`currentMsgs
      ensures Fields() == Taken(old(Fields()))
      ensures took <==> !old(writeFlag) && writeFlag
    {
      TakenIs(Fields());
      hide Taken, BatchLength, Less;
      if writeFlag {
        return false;
      }
      PopBatch();
      if currentMsgs == [] {
        return false;
      }
      writeFlag := true;
      took := true;
    }

    /** The loop of write_frame: it ends behind a terminal message or with the queue. */
    method PopBatch()
      modifies this`sendQueue, this`sendBufferSize, this`currentMsgs
      ensures
        var q, n := old(sendQueue), BatchLength(old(sendQueue));
        sendQueue == q[n..] && currentMsgs == old(currentMsgs) + q[..n] && sendBufferSize == Less(old(sendBufferSize), q[..n])
    {
      hide Less, BatchLength, SIZE_MODULUS;
      ghost var q, size, k := sendQueue, sendBufferSize, 0;
      LessNone(size);
      if q != [] {
        LessSnoc(q, 0, size);
      }
      var next := WritePop();
      ghost var popped := |q| - |sendQueue|;
      while next.Some?
        invariant k <= popped <= |q| && IsBatch(q[..k])
        invariant popped == if next.Some? then k + 1 else k
        invariant next.Some? ==> next.value == q[k] && !EndsTerminal(q[..k])
        invariant next.None? && k < |q| ==> EndsTerminal(q[..k])
        invariant currentMsgs == old(currentMsgs) + q[..k]
        invariant sendQueue == q[popped..]
        invariant sendBufferSize == Less(size, q[..popped])
        decreases |q| - k
      {
        assert q[..k + 1] == q[..k] + [q[k]];
        currentMsgs := currentMsgs + [next.value];
        k := k + 1;
        if !next.value.terminal {
          if k < |q| {
            LessSnoc(q, k, size);
          }
          next := WritePop();
          if next.Some? {
            popped := k + 1;
          }
        } else {
          next := None;
        }
      }
      BatchEnds(q, k);
    }

    /** The rest of write_frame: what async_write is given. */
    method GatherBuffers()
      modifies this`sendBuffer
      ensures Fields() == Gathered(old(Fields()))
    {
      var i := 0;
      while i < |currentMsgs|
        invariant i <= |currentMsgs|
        invariant sendBuffer == old(sendBuffer) + Buffers(currentMsgs[..i])
      {
        assert currentMsgs[..i + 1][..i] == currentMsgs[..i];
        sendBuffer := sendBuffer + [currentMsgs[i].header];
        sendBuffer := sendBuffer + [currentMsgs[i].payload];
        i := i + 1;
      }
      assert currentMsgs[..i] == currentMsgs;
    }

    /** handle_write_frame before it takes the lock; back() needs a batch (see BackIsSafe). */
    method ClearBatch() returns (terminal: bool)
      requires currentMsgs != []
      modifies this`sendBuffer, this`currentMsgs
      ensures Fields() == Cleared(old(Fields()))
      ensures terminal <==> EndsTerminal(old(currentMsgs))
    {
      terminal := currentMsgs[|currentMsgs| - 1].terminal;
      sendBuffer := [];
      currentMsgs := [];
    }

    /** The locked section of handle_write_frame. */
    method LockedRelease() returns (needsWriting: bool)
      modifies this`writeFlag
      ensures Fields() == Released(old(Fields()))
      ensures needsWriting <==> sendQueue != []
    {
      writeFlag := false;
      needsWriting := sendQueue != [];
    }
  }

  // ----- all interleavings ----------------------------------------------------------------

  /**
   The fields, the activities in flight, and the history. owed counts callers that computed
   needs_writing and have yet to dispatch; dispatched the write_frame calls pending; taken
   those that hold a batch not yet given to the transport; writing the transport writes
   outstanding; completing the successful completions that have yet to release the flag;
   stopped says a terminal or failed write has completed, broken that one has failed; sent
   is what the transport was given, buffer by buffer.
   */
  datatype System = System(
    pump: Pump, owed: nat, dispatched: nat, taken: nat, writing: nat, completing: nat, stopped: bool,
    broken: bool, pushed: seq<Message>, handed: seq<Message>, sent: seq<bytes>)

  /** Nothing queued, nothing in flight, nothing done. */
  predicate Initial(s: System) {
    && s.pump.queue == [] && s.pump.bufferSize == 0 && !s.pump.flag && s.pump.current == [] && s.pump.buffer == []
    && s.owed == s.dispatched == s.taken == s.writing == s.completing == 0
    && !s.stopped && !s.broken && s.pushed == [] && s.handed == [] && s.sent == []
  }

  datatype Event =
    | Push(m: Message)      // the locked section of a sender
    | Dispatch              // a sender or completion dispatches write_frame
    | WriteFrame            // the locked section of a dispatched write_frame
    | Hand                  // write_frame calls async_write
    | Complete(failed: bool) // handle_write_frame up to its lock
    | Release               // the locked section of handle_write_frame

  predicate Enabled(s: System, e: Event) {
    match e
    case Push(_) => true
    case Dispatch => s.owed > 0
    case WriteFrame => s.dispatched > 0
    case Hand => s.taken > 0
    case Complete(_) => s.writing > 0
    case Release => s.completing > 0
  }

  function Next(s: System, e: Event): System
    requires Enabled(s, e)
  {
    match e
    case Push(m) =>
      s.(pump := Pushed(s.pump, m), owed := if s.pump.flag then s.owed else s.owed + 1, pushed := s.pushed + [m])
    case Dispatch => s.(owed := s.owed - 1, dispatched := s.dispatched + 1)
    case WriteFrame =>
      var p := Taken(s.pump);
      s.(pump := p, dispatched := s.dispatched - 1, taken := if !s.pump.flag && p.flag then s.taken + 1 else s.taken)
    case Hand =>
      var p := Gathered(s.pump);
      s.(pump := p, taken := s.taken - 1, writing := s.writing + 1, handed := s.handed + p.current, sent := s.sent + p.buffer)
    case Complete(failed) =>
      var last := failed || EndsTerminal(s.pump.current);
      s.(pump := Cleared(s.pump), writing := s.writing - 1, stopped := s.stopped || last,
         broken := s.broken || failed, completing := if last then s.completing else s.completing + 1)
    case Release =>
      s.(pump := Released(s.pump), completing := s.completing - 1,
         owed := if s.pump.queue == [] then s.owed else s.owed + 1)
  }

  /** The state a run leads to, or None if some event was not possible. */
  function Exec(s: System, run: seq<Event>): (r: Option<System>)
    decreases |run|
  {
    if run == [] then Some(s)
    else if !Enabled(s, run[0]) then None
    else Exec(Next(s, run[0]), run[1..])
  }

  ghost predicate Reachable(run: seq<Event>, s: System) {
    exists start :: Initial(start) && Exec(start, run) == Some(s)
  }

  function Count(b: bool): nat { if b then 1 else 0 }

  /** Whoever holds the flag is the one activity that may touch the batch. */
  predicate OneOwner(s: System) {
    && s.taken + s.writing + s.completing + Count(s.stopped) == Count(s.pump.flag)
    && (s.pump.current != [] <==> s.taken + s.writing > 0)
    && IsBatch(s.pump.current)
  }

  /** Pushed messages are handed over, in the batch about to be handed over, or queued. */
  predicate Conserved(s: System) {
    s.pushed == s.handed + (if s.taken > 0 then s.pump.current else []) + s.pump.queue
  }

  predicate Accounted(s: System) { s.pump.bufferSize == Total(s.pump.queue) % SIZE_MODULUS }

  predicate NoLostWakeup(s: System) { s.pump.queue != [] ==> s.pump.flag || s.owed + s.dispatched > 0 }

  /** A terminal message is the last ever handed over, and the flag stays with it. */
  predicate TerminalIsLast(s: System) {
    && IsBatch(s.handed)
    && (EndsTerminal(s.handed) ==> s.writing > 0 || s.stopped)
    && (s.stopped && !s.broken ==> EndsTerminal(s.handed))
    && (s.writing > 0 ==> SuffixOf(s.pump.current, s.handed))
  }

  predicate SuffixOf(b: seq<Message>, s: seq<Message>) { |b| <= |s| && s[|s| - |b|..] == b }

  /** The buffer list is empty but during a write; the transport was given the buffers of the messages handed over. */
  predicate BufferInStep(s: System) {
    && s.pump.buffer == (if s.writing > 0 then Buffers(s.pump.current) else [])
    && s.sent == Buffers(s.handed)
  }

  predicate Inv(s: System) {
    OneOwner(s) && Conserved(s) && Accounted(s) && NoLostWakeup(s) && TerminalIsLast(s) && BufferInStep(s)
  }

  lemma {:induction false} BuffersAppend(a: seq<Message>, b: seq<Message>)
    ensures Buffers(a + b) == Buffers(a) + Buffers(b)
    decreases |b|
  {
    if b == [] {
      assert a + b == a;
    } else {
      var n := |b| - 1;
      assert (a + b)[..|a + b| - 1] == a + b[..n];
      BuffersAppend(a, b[..n]);
    }
  }

  /** Each write is given the buffers of its batch and nothing else. */
  lemma StepBufferInStep(s: System, e: Event)
    requires Inv(s) && Enabled(s, e)
    ensures BufferInStep(Next(s, e))
    ensures e == Hand ==> Next(s, e).sent == s.sent + Buffers(s.pump.current)
  {
    if e == Hand {
      BuffersAppend(s.handed, s.pump.current);
      assert [] + Buffers(s.pump.current) == Buffers(s.pump.current);
    }
  }

  lemma StepOneOwner(s: System, e: Event)
    requires Inv(s) && Enabled(s, e)
    ensures OneOwner(Next(s, e))
  {
    if e == WriteFrame && !s.pump.flag {
      var b := s.pump.queue[..BatchLength(s.pump.queue)];
      assert s.pump.current + b == b;
      assert IsBatch(b);
    }
  }

  lemma StepConserved(s: System, e: Event)
    requires Inv(s) && Enabled(s, e)
    ensures Conserved(Next(s, e))
  {
    match e
    case Push(m) =>
      var front := s.handed + (if s.taken > 0 then s.pump.current else []);
      assert front + s.pump.queue + [m] == front + (s.pump.queue + [m]);
    case WriteFrame =>
      if !s.pump.flag {
        TakeConserves(s);
      }
    case Hand =>
      assert s.handed + s.pump.current + [] == s.handed + s.pump.current;
    case _ =>
  }

  lemma TakeConserves(s: System)
    requires OneOwner(s) && Conserved(s) && !s.pump.flag
    ensures var p := Taken(s.pump); s.pushed == s.handed + p.current + p.queue
    ensures !Taken(s.pump).flag ==> s.pump.queue == []
  {
    var n := BatchLength(s.pump.queue);
    var b, rest := s.pump.queue[..n], s.pump.queue[n..];
    assert s.pump.queue == b + rest;
    assert s.handed + [] + s.pump.queue == s.handed + b + rest;
    assert s.pump.current + b == b;
  }

  lemma ModSub(a: nat, b: nat)
    ensures ((a + b) % SIZE_MODULUS - a) % SIZE_MODULUS == b % SIZE_MODULUS
  {
  }

  lemma ModAdd(a: nat, b: nat)
    ensures (a % SIZE_MODULUS + b) % SIZE_MODULUS == (a + b) % SIZE_MODULUS
  {
  }

  lemma PushAccounted(q: seq<Message>, m: Message)
    ensures (Total(q) % SIZE_MODULUS + |m.payload|) % SIZE_MODULUS == Total(q + [m]) % SIZE_MODULUS
  {
    TotalAppend(q, [m]);
    assert [m][1..] == [];
    ModAdd(Total(q), |m.payload|);
  }

  lemma TakeAccounted(q: seq<Message>, n: nat)
    requires n <= |q|
    ensures Less(Total(q) % SIZE_MODULUS, q[..n]) == Total(q[n..]) % SIZE_MODULUS
  {
    hide *;
    assert q == q[..n] + q[n..];
    TotalAppend(q[..n], q[n..]);
    LessIs(Total(q[..n]), Total(q[n..]), q[..n]);
  }

  lemma LessIs(a: nat, b: nat, q: seq<Message>)
    requires a == Total(q)
    ensures Less((a + b) % SIZE_MODULUS, q) == b % SIZE_MODULUS
  {
    hide Total;
    ModSub(a, b);
  }

  lemma StepAccounted(s: System, e: Event)
    requires Inv(s) && Enabled(s, e)
    ensures Accounted(Next(s, e))
  {
    hide Total, Less, BatchLength, SIZE_MODULUS, Buffers;
    match e
    case Push(m) => PushAccounted(s.pump.queue, m);
    case WriteFrame => TakeAccounted(s.pump.queue, BatchLength(s.pump.queue));
    case _ =>
  }

  lemma StepTerminalIsLast(s: System, e: Event)
    requires Inv(s) && Enabled(s, e)
    ensures TerminalIsLast(Next(s, e))
  {
    match e
    case Hand =>
      var h := s.handed + s.pump.current;
      assert h[|h| - |s.pump.current|..] == s.pump.current;
    case Complete(failed) =>
      if EndsTerminal(s.handed) || EndsTerminal(s.pump.current) {
        assert s.handed[|s.handed| - |s.pump.current|..][|s.pump.current| - 1] == s.handed[|s.handed| - 1];
      }
    case _ =>
  }

  lemma StepInv(s: System, e: Event)
    requires Inv(s) && Enabled(s, e)
    ensures Inv(Next(s, e))
  {
    StepOneOwner(s, e);
    StepConserved(s, e);
    StepAccounted(s, e);
    StepTerminalIsLast(s, e);
    StepBufferInStep(s, e);
  }

  lemma {:induction false} ExecInv(s: System, run: seq<Event>)
    requires Inv(s) && Exec(s, run).Some?
    ensures Inv(Exec(s, run).value)
    decreases |run|
  {
    if run != [] {
      StepInv(s, run[0]);
      ExecInv(Next(s, run[0]), run[1..]);
    }
  }

  lemma InitialInv(s: System)
    requires Initial(s)
    ensures Inv(s)
  {
  }

  lemma ReachableInv(run: seq<Event>, s: System)
    requires Reachable(run, s)
    ensures Inv(s)
  {
    var start :| Initial(start) && Exec(start, run) == Some(s);
    InitialInv(start);
    ExecInv(start, run);
  }

  /** Safety over every interleaving. */
  lemma PumpSafety(run: seq<Event>, s: System)
    requires Reachable(run, s)
    ensures Conserved(s) && s.sent == Buffers(s.handed)
    ensures s.taken + s.writing + s.completing <= 1 && (s.pump.flag <==> s.taken + s.writing + s.completing == 1 || s.stopped)
    ensures NoLostWakeup(s)
    ensures forall i :: 0 <= i < |s.handed| - 1 ==> !s.handed[i].terminal
  {
    ReachableInv(run, s);
  }

  /** handle_write_frame always finds a batch to look at the back of. */
  lemma BackIsSafe(run: seq<Event>, s: System)
    requires Reachable(run, s)
    ensures s.pump.current != [] <==> s.taken + s.writing > 0
    ensures forall i :: 0 <= i < |s.pump.current| - 1 ==> !s.pump.current[i].terminal
  {
    ReachableInv(run, s);
  }

  /** The byte count is the sum of the queued payloads, and exact while that fits a size_t. */
  lemma BufferSize(run: seq<Event>, s: System)
    requires Reachable(run, s)
    ensures s.pump.bufferSize == Total(s.pump.queue) % SIZE_MODULUS
    ensures s.pump.bufferSize == Total(s.pump.queue) <==> Total(s.pump.queue) < SIZE_MODULUS
    ensures s.pump.queue != [] && Total(s.pump.queue) < SIZE_MODULUS ==>
              |s.pump.queue[0].payload| <= s.pump.bufferSize
  {
    ReachableInv(run, s);
  }

  lemma {:induction false} StoppedIsFinal(s: System, run: seq<Event>)
    requires Inv(s) && s.stopped && Exec(s, run).Some?
    ensures Exec(s, run).value.stopped && Exec(s, run).value.handed == s.handed
    decreases |run|
  {
    if run != [] {
      StepInv(s, run[0]);
      StoppedIsFinal(Next(s, run[0]), run[1..]);
    }
  }

  lemma {:induction false} ExecAppend(s: System, a: seq<Event>, b: seq<Event>)
    requires Exec(s, a).Some?
    ensures Exec(s, a + b) == Exec(Exec(s, a).value, b)
    decreases |a|
  {
    if a == [] {
      assert a + b == b;
    } else {
      assert (a + b)[0] == a[0] && (a + b)[1..] == a[1..] + b;
      ExecAppend(Next(s, a[0]), a[1..], b);
    }
  }

  /** After a terminal or failed write completes nothing is handed to the transport again. */
  lemma NothingAfterStop(run: seq<Event>, more: seq<Event>, s: System, t: System)
    requires Reachable(run, s) && s.stopped && Reachable(run + more, t)
    ensures t.stopped && t.handed == s.handed
  {
    ReachableInv(run, s);
    var start :| Initial(start) && Exec(start, run) == Some(s);
    ExecAppend(start, run, more);
    StoppedIsFinal(s, more);
  }

  // ----- which events stop the pump ------------------------------------------------------------

  /** The event completes a write that failed, or one whose last message is terminal. */
  predicate Ends(s: System, e: Event) {
    e.Complete? && (e.failed || (s.handed != [] && s.handed[|s.handed| - 1].terminal))
  }

  /** During a write the last message handed over is the last one of the batch. */
  lemma LastHanded(s: System)
    requires Inv(s) && s.writing > 0
    ensures EndsTerminal(s.pump.current) <==> s.handed != [] && s.handed[|s.handed| - 1].terminal
  {
    assert s.pump.current != [];
    assert s.handed[|s.handed| - |s.pump.current|..][|s.pump.current| - 1] == s.handed[|s.handed| - 1];
  }

  lemma StoppedStepIff(s: System, e: Event)
    requires Inv(s) && Enabled(s, e)
    ensures Next(s, e).stopped <==> s.stopped || Ends(s, e)
  {
    if e.Complete? {
      LastHanded(s);
    }
  }

  /** The i-th event of the run ends the pump. */
  predicate EndsAt(start: System, run: seq<Event>, i: nat) {
    i < |run| && var p := Exec(start, run[..i]); p.Some? && Ends(p.value, run[i])
  }

  lemma ExecSnoc(s: System, run: seq<Event>, e: Event)
    requires Exec(s, run + [e]).Some?
    ensures Exec(s, run).Some? && Enabled(Exec(s, run).value, e)
    ensures Exec(s, run + [e]) == Some(Next(Exec(s, run).value, e))
  {
    ExecFront(s, run, [e]);
    ExecAppend(s, run, [e]);
    assert [e][1..] == [];
  }

  lemma {:induction false} ExecFront(s: System, a: seq<Event>, b: seq<Event>)
    requires Exec(s, a + b).Some?
    ensures Exec(s, a).Some?
    decreases |a|
  {
    if a != [] {
      assert (a + b)[0] == a[0] && (a + b)[1..] == a[1..] + b;
      ExecFront(Next(s, a[0]), a[1..], b);
    }
  }

  /** The pump has stopped exactly if the run completed a failed write or one that ends in a terminal message. */
  lemma {:induction false} StoppedIff(start: System, run: seq<Event>)
    requires Inv(start) && !start.stopped && Exec(start, run).Some?
    ensures Exec(start, run).value.stopped <==> exists i :: EndsAt(start, run, i)
    decreases |run|
  {
    hide Next, Inv, Ends;
    if run != [] {
      var n := |run| - 1;
      var front := run[..n];
      assert run == front + [run[n]];
      ExecSnoc(start, front, run[n]);
      StoppedIff(start, front);
      ExecInv(start, front);
      StoppedStepIff(Exec(start, front).value, run[n]);
      forall i | 0 <= i < n ensures EndsAt(start, run, i) <==> EndsAt(start, front, i) {
        assert front[..i] == run[..i] && front[i] == run[i];
      }
      if exists i :: EndsAt(start, run, i) {
        var i :| EndsAt(start, run, i);
        assert i == n || EndsAt(start, front, i);
      }
      assert EndsAt(start, run, n) <==> Ends(Exec(start, front).value, run[n]);
    }
  }

  /** Behind such an event nothing is handed over. */
  lemma NothingBehind(s: System, e: Event, run: seq<Event>)
    requires Inv(s) && Enabled(s, e) && Ends(s, e) && Exec(Next(s, e), run).Some?
    ensures Exec(Next(s, e), run).value.handed == s.handed
  {
    StepInv(s, e);
    StoppedStepIff(s, e);
    StoppedIsFinal(Next(s, e), run);
  }

  /** Over whole runs: what has been handed over when the first such event comes is all that ever is. */
  lemma NothingBehindEnd(start: System, run: seq<Event>, i: nat)
    requires Initial(start) && Exec(start, run).Some? && EndsAt(start, run, i)
    ensures Exec(start, run).value.handed == Exec(start, run[..i]).value.handed
  {
    InitialInv(start);
    ExecInv(start, run[..i]);
    var s := Exec(start, run[..i]).value;
    assert run == run[..i] + ([run[i]] + run[i + 1..]);
    ExecAppend(start, run[..i], [run[i]] + run[i + 1..]);
    assert ([run[i]] + run[i + 1..])[1..] == run[i + 1..];
    NothingBehind(s, run[i], run[i + 1..]);
  }

  /** The messages of the pushes of a run, in order. */
  function Pushes(run: seq<Event>): seq<Message> {
    if run == [] then [] else (if run[0].Push? then [run[0].m] else []) + Pushes(run[1..])
  }

  /** The history is that of the events: what was pushed, and whether a write failed. */
  lemma {:induction false} HistoryIs(s: System, run: seq<Event>)
    requires Exec(s, run).Some?
    ensures Exec(s, run).value.pushed == s.pushed + Pushes(run)
    ensures Exec(s, run).value.broken <==> s.broken || Complete(true) in run
    decreases |run|
  {
    if run == [] {
      assert s.pushed + [] == s.pushed;
    } else {
      HistoryIs(Next(s, run[0]), run[1..]);
      assert run == [run[0]] + run[1..];
      if run[0].Push? {
        assert s.pushed + [run[0].m] + Pushes(run[1..]) == s.pushed + ([run[0].m] + Pushes(run[1..]));
      } else {
        assert [] + Pushes(run[1..]) == Pushes(run[1..]);
      }
    }
  }

  // ----- draining ----------------------------------------------------------------------------

  /** Work left when nobody pushes any more. */
  function Measure(s: System): nat {
    10 * |s.pump.queue| + 5 * s.taken + 4 * s.writing + 3 * s.completing + 2 * s.owed + s.dispatched
  }

  lemma InternalDecreases(s: System, e: Event)
    requires Inv(s) && Enabled(s, e) && !e.Push?
    ensures Measure(Next(s, e)) < Measure(s)
  {
  }

  predicate NoPush(run: seq<Event>) { forall i :: 0 <= i < |run| ==> !run[i].Push? }

  lemma {:induction false} DrainBound(s: System, run: seq<Event>)
    requires Inv(s) && NoPush(run) && Exec(s, run).Some?
    ensures |run| + Measure(Exec(s, run).value) <= Measure(s)
    decreases |run|
  {
    if run != [] {
      StepInv(s, run[0]);
      InternalDecreases(s, run[0]);
      DrainBound(Next(s, run[0]), run[1..]);
    }
  }

  ghost predicate Quiet(s: System) { forall e: Event :: Enabled(s, e) ==> e.Push? }

  /**
   Without further pushes every run ends, at the latest after Measure steps. Where it ends
   with no write having failed, the messages up to the first terminal one have been handed
   over and nothing else: all of them when none is terminal.
   */
  lemma Drained(run: seq<Event>, more: seq<Event>, s: System, t: System)
    requires Reachable(run, s) && NoPush(more) && Reachable(run + more, t)
    ensures |more| <= Measure(s)
    ensures Quiet(t) && !t.broken ==> t.handed == t.pushed[..BatchLength(t.pushed)]
  {
    ReachableInv(run, s);
    ReachableInv(run + more, t);
    var start :| Initial(start) && Exec(start, run) == Some(s);
    ExecAppend(start, run, more);
    DrainBound(s, more);
    if Quiet(t) && !t.broken {
      assert !Enabled(t, Dispatch) && !Enabled(t, WriteFrame) && !Enabled(t, Hand);
      assert !Enabled(t, Complete(false)) && !Enabled(t, Release);
      assert t.pushed == t.handed + t.pump.queue;
      assert t.pushed[..|t.handed|] == t.handed;
      BatchEnds(t.pushed, |t.handed|);
    }
  }

  /** The same without the flags of the model: no failed write in the run, nothing left to do, and so all is out. */
  lemma AllHandedOver(start: System, run: seq<Event>)
    requires Initial(start) && Exec(start, run).Some? && Complete(true) !in run && Quiet(Exec(start, run).value)
    ensures Exec(start, run).value.handed == Pushes(run)[..BatchLength(Pushes(run))]
  {
    hide *;
    var t := Exec(start, run).value;
    FromInitial(start, run);
    HistoryIs(start, run);
    assert start.pushed + Pushes(run) == Pushes(run);
    assert run + [] == run;
    Drained(run, [], t, t);
  }

  lemma FromInitial(start: System, run: seq<Event>)
    requires Initial(start) && Exec(start, run).Some?
    ensures Reachable(run, Exec(start, run).value) && start.pushed == [] && !start.broken && NoPush([])
  {
    assert Exec(start, run) == Some(Exec(start, run).value);
  }
}
