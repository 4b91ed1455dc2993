/**
 close() at the granularity of its lock (websocketpp/impl/connection_impl.hpp:304-324): it
 looks at the state and queues the close frame while it holds the state lock, but terminate
 takes no lock, so handlers of the strand can run in between.
 */
module CloseRace {
  import opened Session
  import opened Wrappers

  /** A connection, and whether a close() holds the lock between its check and its frame. */
  datatype Gap = Gap(conn: Conn, checked: bool)

  datatype GapEvent = Step(e: Event) | CloseCheck | CloseSet(terminal: bool, prepared: Ec)

  /** The events that need the state lock, and so wait while a close() holds it. */
  predicate TakesLock(cfg: Config, c: Conn, e: Event) {
    match e
    case Send(_) => true
    case SendPing(_) => true
    case SendPong(_) => true
    case CloseCall(_, _) => true
    case SendHttpResponse => true
    case HandshakeRead(ec, _) => ec == NoError
    case ResponseWritten(ec) => ec == NoError
    case FrameRead(ec, f) =>
      ec == NoError && c.internal == ProcessConnection &&
      (if f.BadBytes? then !cfg.dropOnProtocolError else f.Ping? && c.state == Open && f.reply)
    case _ => false
  }

  predicate GapEnabled(cfg: Config, g: Gap, e: GapEvent) {
    match e
    case Step(s) => Enabled(g.conn, s) && (g.checked ==> !TakesLock(cfg, g.conn, s))
    case CloseCheck => !g.checked
    case CloseSet(_, _) => g.checked
  }

  function GapNext(cfg: Config, g: Gap, e: GapEvent): Gap
    requires GapEnabled(cfg, g, e)
  {
    match e
    case Step(s) => g.(conn := Next(cfg, g.conn, s))
    case CloseCheck => g.(checked := g.conn.state == Open)
    case CloseSet(terminal, prepared) => Gap(SendCloseFrame(g.conn, false, terminal, prepared).0, false)
  }

  function GapExec(cfg: Config, g: Gap, run: seq<GapEvent>): Option<Gap>
    decreases |run|
  {
    if run == [] then Some(g)
    else if !GapEnabled(cfg, g, run[0]) then None
    else GapExec(cfg, GapNext(cfg, g, run[0]), run[1..])
  }

  predicate GapInv(g: Gap) { Inv(g.conn) && (g.checked ==> g.conn.state != Connecting) }

  /** A close() that comes to queue its frame after the connection has been terminated. */
  predicate Revives(g: Gap, e: GapEvent) {
    e.CloseSet? && e.prepared == NoError && g.conn.state == Closed
  }

  /** One step keeps the invariant and moves forward exactly if it revives nothing. */
  lemma GapStepIff(cfg: Config, g: Gap, e: GapEvent)
    requires GapInv(g) && GapEnabled(cfg, g, e)
    ensures GapInv(GapNext(cfg, g, e)) <==> !Revives(g, e)
    ensures Forward(g.conn, GapNext(cfg, g, e).conn) <==> !Revives(g, e)
  {
    match e
    case Step(s) => StepInv(cfg, g.conn, s);
    case CloseCheck =>
    case CloseSet(terminal, prepared) =>
      if g.conn.state != Closed {
        CloseStep(g.conn, false, terminal, prepared);
      }
  }

  /** No step of the run moves the connection back. */
  predicate ForwardAlong(cfg: Config, g: Gap, run: seq<GapEvent>)
    requires GapExec(cfg, g, run).Some?
    decreases |run|
  {
    run == [] ||
    var d := GapNext(cfg, g, run[0]);
    Forward(g.conn, d.conn) && ForwardAlong(cfg, d, run[1..])
  }

  /** Every close() of the run queues its frame before anything terminates the connection. */
  predicate InTime(cfg: Config, g: Gap, run: seq<GapEvent>)
    requires GapExec(cfg, g, run).Some?
    decreases |run|
  {
    run == [] || (!Revives(g, run[0]) && InTime(cfg, GapNext(cfg, g, run[0]), run[1..]))
  }

  /**
   A run never moves the connection back exactly if every close() queued its frame in time;
   then all that is proved of whole handlers holds of the run as well.
   */
  lemma {:induction false} ForwardIffInTime(cfg: Config, g: Gap, run: seq<GapEvent>)
    requires GapInv(g) && GapExec(cfg, g, run).Some?
    ensures ForwardAlong(cfg, g, run) <==> InTime(cfg, g, run)
    ensures InTime(cfg, g, run) ==> GapInv(GapExec(cfg, g, run).value) && Forward(g.conn, GapExec(cfg, g, run).value.conn)
    decreases |run|
  {
    hide Forward, Inv, Revives, GapNext, GapEnabled;
    if run == [] {
      SameForward(g.conn);
    } else {
      var d := GapNext(cfg, g, run[0]);
      GapStepIff(cfg, g, run[0]);
      if !Revives(g, run[0]) {
        ForwardIffInTime(cfg, d, run[1..]);
        if InTime(cfg, d, run[1..]) {
          ForwardTwice(g.conn, d.conn, GapExec(cfg, d, run[1..]).value.conn);
        }
      }
    }
  }

  /** At most one shutdown and one close handler when every close() is in time. */
  lemma OneShutdown(cfg: Config, start: Conn, run: seq<GapEvent>, g: Gap)
    requires Initial(start) && GapExec(cfg, Gap(start, false), run) == Some(g) && InTime(cfg, Gap(start, false), run)
    ensures |g.conn.requested| <= 1 && g.conn.closes + g.conn.fails <= 1 && g.conn.ended <= 1
  {
    ForwardIffInTime(cfg, Gap(start, false), run);
  }

  /** The peer drops the connection in the gap, the close frame goes in, and its timer fires. */
  const DROPPED := Step(FrameRead(Eof, Message))
  const TIMED_OUT := Step(CloseTimeout(NoError))
  const DONE := Step(ShutdownDone)

  /** From every open connection: two shutdowns are asked for and the close handler runs twice. */
  lemma CloseHandlerTwice(cfg: Config, c: Conn, terminal: bool)
    requires Inv(c) && c.state == Open
    ensures var end := GapExec(cfg, Gap(c, false), [CloseCheck, DROPPED, CloseSet(terminal, NoError), TIMED_OUT, DONE, DONE]);
            end.Some? && |end.value.conn.requested| == 2 && end.value.conn.closes == 2
  {
    hide *;
    var c2, c3, c4 := DroppedThenTimedOut(cfg, c, terminal);
    TwoEndings(cfg, Gap(c4, false));
    GapCons(cfg, Gap(c3, false), TIMED_OUT, [DONE, DONE]);
    GapCons(cfg, Gap(c2, true), CloseSet(terminal, NoError), [TIMED_OUT, DONE, DONE]);
    GapCons(cfg, Gap(c, true), DROPPED, [CloseSet(terminal, NoError), TIMED_OUT, DONE, DONE]);
    GapCons(cfg, Gap(c, false), CloseCheck, [DROPPED, CloseSet(terminal, NoError), TIMED_OUT, DONE, DONE]);
    assert [CloseCheck] + [DROPPED, CloseSet(terminal, NoError), TIMED_OUT, DONE, DONE] ==
           [CloseCheck, DROPPED, CloseSet(terminal, NoError), TIMED_OUT, DONE, DONE];
    assert [DROPPED] + [CloseSet(terminal, NoError), TIMED_OUT, DONE, DONE] ==
           [DROPPED, CloseSet(terminal, NoError), TIMED_OUT, DONE, DONE];
    assert [CloseSet(terminal, NoError)] + [TIMED_OUT, DONE, DONE] == [CloseSet(terminal, NoError), TIMED_OUT, DONE, DONE];
    assert [TIMED_OUT] + [DONE, DONE] == [TIMED_OUT, DONE, DONE];
  }

  /** That run up to the second shutdown request, step by step. */
  lemma DroppedThenTimedOut(cfg: Config, c: Conn, terminal: bool) returns (c2: Conn, c3: Conn, c4: Conn)
    requires Inv(c) && c.state == Open
    ensures GapEnabled(cfg, Gap(c, false), CloseCheck) && GapNext(cfg, Gap(c, false), CloseCheck) == Gap(c, true)
    ensures GapEnabled(cfg, Gap(c, true), DROPPED) && GapNext(cfg, Gap(c, true), DROPPED) == Gap(c2, true)
    ensures GapEnabled(cfg, Gap(c2, true), CloseSet(terminal, NoError))
    ensures GapNext(cfg, Gap(c2, true), CloseSet(terminal, NoError)) == Gap(c3, false)
    ensures GapEnabled(cfg, Gap(c3, false), TIMED_OUT) && GapNext(cfg, Gap(c3, false), TIMED_OUT) == Gap(c4, false)
    ensures c4.requested == c4.pending == [ClosedStatus, ClosedStatus] && c4.closes == 0
  {
    c2 := Terminate(c, Eof);
    c3 := SendCloseFrame(c2, false, terminal, NoError).0;
    c4 := Terminate(c3, CLOSE_HANDSHAKE_TIMEOUT);
  }

  lemma TwoEndings(cfg: Config, g: Gap)
    requires g.conn.pending == [ClosedStatus, ClosedStatus] && !g.checked
    ensures var end := GapExec(cfg, g, [DONE, DONE]);
            end.Some? && end.value.conn.requested == g.conn.requested && end.value.conn.closes == g.conn.closes + 2
  {
    var d := GapNext(cfg, g, DONE);
    assert d.conn.pending == [ClosedStatus];
    assert [DONE, DONE][1..] == [DONE];
    GapCons(cfg, d, DONE, []);
    GapCons(cfg, g, DONE, [DONE]);
  }

  lemma GapCons(cfg: Config, g: Gap, e: GapEvent, rest: seq<GapEvent>)
    requires GapEnabled(cfg, g, e)
    ensures GapExec(cfg, g, [e] + rest) == GapExec(cfg, GapNext(cfg, g, e), rest)
  {
    assert ([e] + rest)[0] == e && ([e] + rest)[1..] == rest;
  }
}
