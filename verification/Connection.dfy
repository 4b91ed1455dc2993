/**
 The server connection as the object it is (websocketpp/impl/connection_impl.hpp): its
 handlers update fields, keep the invariant, and never move the connection back.
 */
module Connection {
  import opened Session
  import opened Wrappers

  class ServerConnection {
    const cfg: Config
    var state: State
    var internal: Internal
    var isHttp: bool
    var http: HttpState
    var ec: Ec
    var wasClean: bool
    var response: Response
    // what has been asked of the environment
    var queued: seq<Frame>
    var requested: seq<TerminateStatus>
    var pending: seq<TerminateStatus>
    var opens: nat
    var closes: nat
    var fails: nat
    var ended: nat
    var closeReceived: bool

    ghost function Fields(): Conn
      reads this
    {
      Conn(state, internal, isHttp, http, ec, wasClean, response,
           queued, requested, pending, opens, closes, fails, ended, closeReceived)
    }

    constructor (cfg: Config)
      ensures Initial(Fields()) && this.cfg == cfg
    {
      this.cfg := cfg;
      state, internal := Connecting, UserInit;
      isHttp, http, ec := false, HttpInit, NoError;
      wasClean, response := false, Uninitialized;
      queued, requested, pending := [], [], [];
      opens, closes, fails, ended, closeReceived := 0, 0, 0, 0, false;
    }

    /** The transport is asked to shut down and to come back with a status. */
    method AsyncShutdown(tstat: TerminateStatus)
      modifies this
      ensures Fields() == old(Fields()).(requested := old(requested) + [tstat], pending := old(pending) + [tstat])
    {
      requested, pending := requested + [tstat], pending + [tstat];
    }

    method Terminate(ec: Ec)
      requires Inv(Fields())
      modifies this
      ensures Fields() == Session.Terminate(old(Fields()), ec)
      ensures Inv(Fields()) && Forward(old(Fields()), Fields())
    {
      hide Inv, Forward;
      TerminateStep(Fields(), ec);
      ghost var c := Fields();
      var tstat := ClosedStatus;
      if ec != NoError {
        this.ec := ec;
      }
      if isHttp {
        http := HttpClosed;
      }
      assert Fields() == c.(ec := this.ec, http := http);
      if state == Connecting {
        state := Closed;
        tstat := FailedStatus;
      } else if state != Closed {
        state := Closed;
        tstat := ClosedStatus;
      } else {
        return;
      }
      AsyncShutdown(tstat);
    }

    method HandleTerminate()
      requires pending != []
      requires Inv(Fields())
      modifies this
      ensures var c := old(Fields()); Fields() == Session.HandleTerminate(c.(pending := c.pending[1..]), c.pending[0])
      ensures Inv(Fields()) && Forward(old(Fields()), Fields())
    {
      hide Inv, Forward;
      HandleTerminateStep(Fields());
      var tstat := pending[0];
      pending := pending[1..];
      if tstat == FailedStatus {
        if ec != HttpConnectionEnded {
          fails := fails + 1;
        }
      } else {
        closes := closes + 1;
      }
      ended := ended + 1;
    }

    method SendFrame(f: Frame, prepared: Ec) returns (r: Ec)
      requires Inv(Fields()) && !f.CloseFrame?
      modifies this
      ensures (Fields(), r) == Session.SendFrame(old(Fields()), f, prepared)
      ensures Inv(Fields()) && Forward(old(Fields()), Fields())
    {
      hide Inv, Forward;
      SendStep(Fields(), f, prepared);
      if state != Open {
        return InvalidState;
      }
      if prepared != NoError {
        return prepared;
      }
      queued := queued + [f];
      r := NoError;
    }

    method SendCloseFrame(ack: bool, terminal: bool, prepared: Ec) returns (r: Ec)
      requires Inv(Fields()) && (state == Open || state == Closing) && (ack ==> closeReceived)
      modifies this
      ensures (Fields(), r) == Session.SendCloseFrame(old(Fields()), ack, terminal, prepared)
      ensures Inv(Fields()) && Forward(old(Fields()), Fields())
    {
      hide Inv, Forward;
      CloseStep(Fields(), ack, terminal, prepared);
      if prepared != NoError {
        return prepared;
      }
      state := Closing;
      if ack {
        wasClean := true;
      }
      queued := queued + [CloseFrame(terminal)];
      r := NoError;
    }

    method Close(terminal: bool, prepared: Ec) returns (r: Ec)
      requires Inv(Fields())
      modifies this
      ensures (Fields(), r) == Session.Close(old(Fields()), terminal, prepared)
      ensures Inv(Fields()) && Forward(old(Fields()), Fields())
    {
      hide Inv, Forward;
      CallStep(cfg, Fields(), CloseCall(terminal, prepared));
      if state != Open {
        return InvalidState;
      }
      r := SendCloseFrame(false, terminal, prepared);
    }

    method WriteHttpResponse(ec: Ec)
      requires Inv(Fields())
      modifies this
      ensures Fields() == Session.WriteHttpResponse(old(Fields()), ec)
      ensures Inv(Fields()) && Forward(old(Fields()), Fields())
    {
      hide Inv, Forward;
      WriteStep(Fields(), ec);
      if ec == HttpConnectionEnded {
        return;
      }
      if response == Uninitialized {
        response := OtherStatus;
        this.ec := GENERAL;
      } else {
        this.ec := ec;
      }
    }

    method WriteHttpResponseError(ec: Ec)
      requires Inv(Fields())
      modifies this
      ensures Fields() == Session.WriteHttpResponseError(old(Fields()), ec)
      ensures Inv(Fields()) && Forward(old(Fields()), Fields())
    {
      hide Inv, Forward;
      WriteErrorStep(Fields(), ec);
      if internal != ReadHttpRequest {
        Terminate(InvalidState);
        return;
      }
      MoveOn(Fields());
      internal := ProcessHttpRequest;
      WriteHttpResponse(ec);
    }

    method HandleReadHandshake(ec: Ec, r: Request)
      requires Inv(Fields())
      modifies this
      ensures Fields() == Session.HandleReadHandshake(old(Fields()), ec, r)
      ensures Inv(Fields()) && Forward(old(Fields()), Fields())
    {
      hide Inv, Forward, Session.Terminate, Session.WriteHttpResponse, Session.WriteHttpResponseError;
      HandshakeStep(Fields(), ec, r);
      var ecm := ec;
      if ecm == NoError {
        if state == Connecting {
          if internal != ReadHttpRequest {
            ecm := InvalidState;
          }
        } else if state == Closed {
          return;
        } else {
          ecm := InvalidState;
        }
      }
      if ecm != NoError {
        if ecm == Eof && state == Closed {
          return;
        }
        Terminate(ecm);
        return;
      }
      match r {
        case OutOfBounds =>
          Terminate(GENERAL);
        case HttpException =>
          HttpStep(Fields(), Fields().(response := OtherStatus));
          response := OtherStatus;
          WriteHttpResponseError(HTTP_PARSE_ERROR);
        case Incomplete =>
        case Rejected(e) =>
          HttpStep(Fields(), Fields().(response := OtherStatus));
          response := OtherStatus;
          WriteHttpResponseError(e);
        case Complete(plain, http, response, e) =>
          CompleteStep(Fields(), r);
          internal := ProcessHttpRequest;
          if plain {
            isHttp := true;
            this.http := http;
          }
          this.response := response;
          if !isHttp || this.http == HttpInit {
            WriteHttpResponse(e);
          }
      }
    }

    method HandleWriteHttpResponse(ec: Ec)
      requires Inv(Fields())
      modifies this
      ensures Fields() == Session.HandleWriteHttpResponse(old(Fields()), ec)
      ensures Inv(Fields()) && Forward(old(Fields()), Fields())
    {
      ResponseStep(Fields(), ec);
      var ecm := ec;
      if ecm == NoError {
        if state == Connecting {
          if internal != ProcessHttpRequest {
            ecm := InvalidState;
          }
        } else if state == Closed {
          return;
        } else {
          ecm := InvalidState;
        }
      }
      if ecm != NoError {
        if ecm == Eof && state == Closed {
          return;
        }
        Terminate(ecm);
        return;
      }
      if response != SwitchingProtocols {
        if isHttp {
          this.ec := HttpConnectionEnded;
        }
        Terminate(this.ec);
        return;
      }
      internal := ProcessConnection;
      state := Open;
      opens := opens + 1;
    }

    method ProcessControlFrame(f: Incoming)
      requires Inv(Fields()) && internal == ProcessConnection
      modifies this
      ensures Fields() == Session.ProcessControlFrame(cfg, old(Fields()), f)
      ensures Inv(Fields()) && Forward(old(Fields()), Fields())
    {
      hide Inv, Forward, Session.Terminate;
      ControlStep(cfg, Fields(), f);
      if state == Closed {
        return;
      }
      if !f.CloseIn? && state != Open {
        return;
      }
      match f {
        case Ping(reply, prepared) =>
          if reply {
            var r := SendFrame(PongFrame, prepared);
          }
        case CloseIn(codeOk, reasonOk, prepared) =>
          ReceivedStep(Fields());
          closeReceived := true;
          if !codeOk || !reasonOk {
            if cfg.dropOnProtocolError {
              Terminate(PROTOCOL_VIOLATION);
            } else {
              var r := SendCloseFrame(true, true, prepared);
            }
            return;
          }
          if state == Open {
            var r := SendCloseFrame(true, true, prepared);
          } else if state == Closing && !wasClean {
            wasClean := true;
            Terminate(NoError);
          }
        case _ =>
      }
    }

    method HandleReadFrame(ec: Ec, f: Incoming)
      requires Inv(Fields())
      modifies this
      ensures Fields() == Session.HandleReadFrame(cfg, old(Fields()), ec, f)
      ensures Inv(Fields()) && Forward(old(Fields()), Fields())
    {
      hide Inv, Forward;
      ReadStep(cfg, Fields(), ec, f);
      var ecm := ec;
      if ecm == NoError && internal != ProcessConnection {
        ecm := InvalidState;
      }
      if ecm != NoError {
        if ecm == Eof {
          if state == Closed {
            return;
          }
        } else if ecm == InvalidState {
          if state == Closed {
            return;
          }
        }
        Terminate(ecm);
        return;
      }
      match f {
        case BadBytes(terminal, prepared) =>
          if cfg.dropOnProtocolError {
            Terminate(PROTOCOL_VIOLATION);
          } else {
            var r := Close(terminal, prepared);
            if r != NoError {
              Terminate(r);
            }
          }
        case Message =>
        case _ =>
          ProcessControlFrame(f);
      }
    }

    method SendHttpResponse()
      requires Inv(Fields())
      modifies this
      ensures Fields() == Next(cfg, old(Fields()), Event.SendHttpResponse)
      ensures Inv(Fields()) && Forward(old(Fields()), Fields())
    {
      hide Inv, Forward, Session.WriteHttpResponse;
      HttpCallStep(cfg, Fields(), Event.SendHttpResponse);
      if http != Deferred {
        return;
      }
      HttpStep(Fields(), Fields().(http := BodyWritten));
      http := BodyWritten;
      WriteHttpResponse(NoError);
    }

    method Start()
      requires Inv(Fields())
      modifies this
      ensures Fields() == Next(cfg, old(Fields()), Event.Start)
      ensures Inv(Fields()) && Forward(old(Fields()), Fields())
    {
      hide Inv, Forward, Session.Terminate;
      HandlerStep(cfg, Fields(), Event.Start);
      if internal != UserInit {
        Terminate(InvalidState);
        return;
      }
      internal := TransportInit;
    }

    method HandleTransportInit(ec: Ec)
      requires Inv(Fields())
      modifies this
      ensures Fields() == Next(cfg, old(Fields()), TransportReady(ec))
      ensures Inv(Fields()) && Forward(old(Fields()), Fields())
    {
      hide Inv, Forward, Session.Terminate;
      HandlerStep(cfg, Fields(), TransportReady(ec));
      var ecm := ec;
      if internal != TransportInit {
        ecm := InvalidState;
      }
      if ecm != NoError {
        Terminate(ecm);
        return;
      }
      internal := ReadHttpRequest;
    }

    /** Every event of the model is a call on the object. */
    method Handle(e: Event)
      requires Enabled(Fields(), e)
      requires Inv(Fields())
      modifies this
      ensures Fields() == Next(cfg, old(Fields()), e)
      ensures Inv(Fields()) && Forward(old(Fields()), Fields())
    {
      hide Inv, Forward, Session.Terminate, Session.HandleTerminate, Session.SendFrame, Session.Close, Session.WriteHttpResponse;
      hide Session.HandleReadHandshake, Session.HandleWriteHttpResponse, Session.HandleReadFrame;
      StepInv(cfg, Fields(), e);
      match e {
        case Send(prepared) => var r := SendFrame(DataFrame, prepared);
        case SendPing(prepared) => var r := SendFrame(PingFrame, prepared);
        case SendPong(prepared) => var r := SendFrame(PongFrame, prepared);
        case CloseCall(terminal, prepared) => var r := Close(terminal, prepared);
        case DeferHttp => http := Deferred;
        case SendHttpResponse => SendHttpResponse();
        case SetStatus(r) =>
          if internal == ProcessHttpRequest {
            response := r;
          }
        case TerminateCall(ec) => Terminate(ec);
        case Start => Start();
        case TransportReady(ec) => HandleTransportInit(ec);
        case HandshakeRead(ec, r) => HandleReadHandshake(ec, r);
        case ResponseWritten(ec) => HandleWriteHttpResponse(ec);
        case FrameRead(ec, f) => HandleReadFrame(ec, f);
        case FrameWritten(ec, terminal) =>
          if ec != NoError || terminal {
            Terminate(ec);
          }
        case OpenTimeout(ec) =>
          if ec == NoError {
            Terminate(OPEN_HANDSHAKE_TIMEOUT);
          }
        case CloseTimeout(ec) =>
          if ec == NoError {
            Terminate(CLOSE_HANDSHAKE_TIMEOUT);
          }
        case ShutdownDone => HandleTerminate();
      }
    }
  }

  /** The connection as it was before each event of a run, and after the last; it never moves back. */
  ghost predicate Trace(cfg: Config, run: seq<Event>, states: seq<Conn>) {
    && |states| == |run| + 1 && Initial(states[0])
    && (forall i :: 0 <= i < |run| ==> Enabled(states[i], run[i]) && states[i + 1] == Next(cfg, states[i], run[i]))
    && (forall i :: 0 <= i <= |run| ==> Forward(states[i], states[|run|]))
  }

  /** The run and its trace lead to c. */
  ghost predicate LeadsTo(cfg: Config, run: seq<Event>, states: seq<Conn>, c: Conn) {
    && Trace(cfg, run, states) && states[|run|] == c
    && Exec(cfg, states[0], run) == Some(c)
    && Inv(c)
  }

  /** If all events can happen in their order, those before k are what has happened. */
  ghost predicate Whole(cfg: Config, events: seq<Event>, run: seq<Event>, states: seq<Conn>, k: nat) {
    states != [] && k <= |events| && (Exec(cfg, states[0], events).Some? ==> run == events[..k])
  }

  lemma LeadsStart(cfg: Config, c: Conn, events: seq<Event>)
    requires Initial(c)
    ensures LeadsTo(cfg, [], [c], c) && Whole(cfg, events, [], [c], 0)
  {
  }

  lemma LeadsOn(cfg: Config, run: seq<Event>, states: seq<Conn>, c: Conn, e: Event)
    requires LeadsTo(cfg, run, states, c) && Enabled(c, e)
    ensures LeadsTo(cfg, run + [e], states + [Next(cfg, c, e)], Next(cfg, c, e))
  {
    hide Next, Forward, Inv, Initial;
    var d := Next(cfg, c, e);
    StepInv(cfg, c, e);
    SameForward(d);
    forall i | 0 <= i <= |run| ensures Forward(states[i], d) {
      ForwardTwice(states[i], c, d);
    }
    ExecAppend(cfg, states[0], run, [e]);
    ExecCons(cfg, c, e, []);
    assert [e] + [] == [e];
  }

  lemma WholeOn(cfg: Config, events: seq<Event>, run: seq<Event>, states: seq<Conn>, k: nat, c: Conn)
    requires k < |events| && LeadsTo(cfg, run, states, c) && Whole(cfg, events, run, states, k)
    ensures Enabled(c, events[k]) ==> Whole(cfg, events, run + [events[k]], states + [Next(cfg, c, events[k])], k + 1)
    ensures !Enabled(c, events[k]) ==> Whole(cfg, events, run, states, k + 1)
  {
    hide Next, Forward, Inv, Initial;
    assert events == events[..k] + events[k..] && events[..k + 1] == events[..k] + [events[k]];
    ExecAppend(cfg, states[0], run, events[k..]);
  }

  /** What the invariant says of handlers and close frames. */
  lemma InvFacts(c: Conn)
    requires Inv(c)
    ensures c.opens <= 1 && |c.requested| <= 1 && c.ended <= |c.requested| && c.closes + c.fails <= 1
    ensures (c.closes == 1 ==> c.opens == 1) && (c.fails == 1 ==> c.opens == 0) && (c.ended == 1 ==> c.closes == c.opens)
    ensures ClosesLast(c.queued) && (c.wasClean ==> c.closeReceived && HasClose(c.queued))
  {
  }

  /**
   Any events on a new connection, one handler after the other; the completion of a shutdown
   that nobody asked for cannot happen and is passed over. The handler contract and the close
   discipline hold of the object, and it never moved back.
   */
  method RunConnection(cfg: Config, events: seq<Event>)
    returns (con: ServerConnection, ghost run: seq<Event>, ghost states: seq<Conn>)
    ensures Trace(cfg, run, states) && states[|run|] == con.Fields() && Exec(cfg, states[0], run) == Some(con.Fields())
    ensures Exec(cfg, states[0], events).Some? ==> run == events
    ensures con.opens <= 1 && |con.requested| <= 1 && con.ended <= |con.requested| && con.closes + con.fails <= 1
    ensures (con.closes == 1 ==> con.opens == 1) && (con.fails == 1 ==> con.opens == 0)
    ensures con.ended == 1 ==> con.closes == con.opens
    ensures con.ended == 1 && !con.isHttp && NonePassesEnded(run) ==> con.opens + con.fails == 1
    ensures con.closeReceived && AnswersPrepared(run) ==> con.state == Closed || HasClose(con.queued)
    ensures ClosesLast(con.queued) && (con.wasClean ==> con.closeReceived && HasClose(con.queued))
  {
    hide Next, Forward, Inv, Initial, Exec, NonePassesEnded, AnswersPrepared;
    con := new ServerConnection(cfg);
    run, states := [], [con.Fields()];
    LeadsStart(cfg, con.Fields(), events);
    for k := 0 to |events|
      invariant fresh(con) && con.cfg == cfg
      invariant LeadsTo(cfg, run, states, con.Fields()) && Whole(cfg, events, run, states, k)
    {
      ghost var c := con.Fields();
      WholeOn(cfg, events, run, states, k, c);
      if events[k] != ShutdownDone || con.pending != [] {
        LeadsOn(cfg, run, states, c, events[k]);
        con.Handle(events[k]);
        run, states := run + [events[k]], states + [con.Fields()];
      }
    }
    InvFacts(con.Fields());
    HandlerContract(cfg, run, con.Fields());
    if con.closeReceived && AnswersPrepared(run) {
      ClosesAreAnswered(cfg, run, con.Fields());
    }
  }
}
