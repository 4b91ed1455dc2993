/**
 The session and close logic of a server connection (websocketpp/impl/connection_impl.hpp),
 one step per handler. Handlers run in any order and with any outcome; only the completion
 of a shutdown needs a shutdown to have been requested. User callbacks are further events.
 */
module Session {
  import opened Wrappers

  datatype State = Connecting | Open | Closing | Closed

  /** The internal states of the server path. */
  datatype Internal = UserInit | TransportInit | ReadHttpRequest | ProcessHttpRequest | ProcessConnection

  datatype HttpState = HttpInit | Deferred | BodyWritten | HttpClosed

  datatype Ec = NoError | HttpConnectionEnded | Eof | InvalidState | OperationAborted | OtherError(code: nat)

  const GENERAL := OtherError(1)
  const HTTP_PARSE_ERROR := OtherError(2)
  const OPEN_HANDSHAKE_TIMEOUT := OtherError(3)
  const CLOSE_HANDSHAKE_TIMEOUT := OtherError(4)
  const PROTOCOL_VIOLATION := OtherError(5)

  /** terminate_status, handed to handle_terminate. */
  datatype TerminateStatus = FailedStatus | ClosedStatus

  datatype Response = Uninitialized | SwitchingProtocols | OtherStatus

  datatype Frame = DataFrame | PingFrame | PongFrame | CloseFrame(terminal: bool)

  /**
   The fields of a connection, then what it has asked of its environment: frames pushed to
   the write queue, shutdowns requested and not yet completed, handlers called, and whether
   a close frame has come in.
   */
  datatype Conn = Conn(
    state: State, internal: Internal, isHttp: bool, http: HttpState, ec: Ec, wasClean: bool, response: Response,
    queued: seq<Frame>, requested: seq<TerminateStatus>, pending: seq<TerminateStatus>,
    opens: nat, closes: nat, fails: nat, ended: nat, closeReceived: bool)

  function Rank(s: State): nat {
    match s case Connecting => 0 case Open => 1 case Closing => 2 case Closed => 3
  }

  function InternalRank(i: Internal): nat {
    match i case UserInit => 0 case TransportInit => 1 case ReadHttpRequest => 2
            case ProcessHttpRequest => 6 case ProcessConnection => 7
  }

  // ----- what each handler does -------------------------------------------------------------

  function Terminate(c: Conn, ec: Ec): Conn {
    var c := c.(ec := if ec != NoError then ec else c.ec, http := if c.isHttp then HttpClosed else c.http);
    if c.state == Closed then c
    else
      var t := if c.state == Connecting then FailedStatus else ClosedStatus;
      c.(state := Closed, requested := c.requested + [t], pending := c.pending + [t])
  }

  function HandleTerminate(c: Conn, t: TerminateStatus): Conn {
    match t
    case FailedStatus => c.(fails := if c.ec != HttpConnectionEnded then c.fails + 1 else c.fails, ended := c.ended + 1)
    case ClosedStatus => c.(closes := c.closes + 1, ended := c.ended + 1)
  }

  /** send, ping and pong; prepared is what obtaining and preparing the message answers. */
  function SendFrame(c: Conn, f: Frame, prepared: Ec): (Conn, Ec) {
    if c.state != Open then (c, InvalidState)
    else if prepared != NoError then (c, prepared)
    else (c.(queued := c.queued + [f]), NoError)
  }

  function SendCloseFrame(c: Conn, ack: bool, terminal: bool, prepared: Ec): (Conn, Ec) {
    if prepared != NoError then (c, prepared)
    else (c.(state := Closing, wasClean := c.wasClean || ack, queued := c.queued + [CloseFrame(terminal)]), NoError)
  }

  function Close(c: Conn, terminal: bool, prepared: Ec): (Conn, Ec) {
    if c.state != Open then (c, InvalidState) else SendCloseFrame(c, false, terminal, prepared)
  }

  function WriteHttpResponse(c: Conn, ec: Ec): Conn {
    if ec == HttpConnectionEnded then c
    else if c.response == Uninitialized then c.(response := OtherStatus, ec := GENERAL)
    else c.(ec := ec)
  }

  function WriteHttpResponseError(c: Conn, ec: Ec): Conn {
    if c.internal != ReadHttpRequest then Terminate(c, InvalidState)
    else WriteHttpResponse(c.(internal := ProcessHttpRequest), ec)
  }

  /** What the bytes read for the handshake turn out to be. */
  datatype Request =
    | OutOfBounds
    | HttpException
    | Incomplete
    | Rejected(ec: Ec)                               // no processor, or a short key3
    | Complete(isHttp: bool, http: HttpState, response: Response, ec: Ec)

  /** What a complete request stores. */
  function Stored(c: Conn, r: Request): Conn
    requires r.Complete?
  {
    c.(internal := ProcessHttpRequest, isHttp := c.isHttp || r.isHttp, response := r.response,
       http := if r.isHttp then r.http else c.http)
  }

  function HandleReadHandshake(c: Conn, ec: Ec, r: Request): Conn {
    if ec == NoError && c.state == Closed then c
    else
      var ecm := if ec == NoError && !(c.state == Connecting && c.internal == ReadHttpRequest) then InvalidState else ec;
      if ecm == Eof && c.state == Closed then c
      else if ecm != NoError then Terminate(c, ecm)
      else match r
        case OutOfBounds => Terminate(c, GENERAL)
        case HttpException => WriteHttpResponseError(c.(response := OtherStatus), HTTP_PARSE_ERROR)
        case Incomplete => c
        case Rejected(e) => WriteHttpResponseError(c.(response := OtherStatus), e)
        case Complete(_, _, _, e) =>
          var c := Stored(c, r);
          if !c.isHttp || c.http == HttpInit then WriteHttpResponse(c, e) else c
  }

  function HandleWriteHttpResponse(c: Conn, ec: Ec): Conn {
    if ec == NoError && c.state == Closed then c
    else
      var ecm := if ec == NoError && !(c.state == Connecting && c.internal == ProcessHttpRequest) then InvalidState else ec;
      if ecm == Eof && c.state == Closed then c
      else if ecm != NoError then Terminate(c, ecm)
      else if c.response != SwitchingProtocols then
        var c := if c.isHttp then c.(ec := HttpConnectionEnded) else c;
        Terminate(c, c.ec)
      else c.(internal := ProcessConnection, state := Open, opens := c.opens + 1)
  }

  datatype Incoming =
    | BadBytes(terminal: bool, prepared: Ec) // consume reported an error
    | Message                                // a data frame
    | Ping(reply: bool, prepared: Ec)
    | Pong
    | CloseIn(codeOk: bool, reasonOk: bool, prepared: Ec)
    | UnknownControl

  datatype Config = Config(dropOnProtocolError: bool)

  function ProcessControlFrame(cfg: Config, c: Conn, f: Incoming): Conn {
    if c.state == Closed then c
    else match f
      case Ping(reply, prepared) => if c.state == Open && reply then SendFrame(c, PongFrame, prepared).0 else c
      case CloseIn(codeOk, reasonOk, prepared) =>
        var c := c.(closeReceived := true);
        if !codeOk || !reasonOk then
          if cfg.dropOnProtocolError then Terminate(c, PROTOCOL_VIOLATION)
          else SendCloseFrame(c, true, true, prepared).0
        else if c.state == Open then SendCloseFrame(c, true, true, prepared).0
        else if c.state == Closing && !c.wasClean then Terminate(c.(wasClean := true), NoError)
        else c
      case _ => c
  }

  /** handle_read_frame over one thing read; a read of several is several events. */
  function HandleReadFrame(cfg: Config, c: Conn, ec: Ec, f: Incoming): Conn {
    var ecm := if ec == NoError && c.internal != ProcessConnection then InvalidState else ec;
    if ecm != NoError then
      if (ecm == Eof || ecm == InvalidState) && c.state == Closed then c else Terminate(c, ecm)
    else match f
      case BadBytes(terminal, prepared) =>
        if cfg.dropOnProtocolError then Terminate(c, PROTOCOL_VIOLATION)
        else
          var (c, e) := Close(c, terminal, prepared);
          if e != NoError then Terminate(c, e) else c
      case Message => c
      case _ => ProcessControlFrame(cfg, c, f)
  }

  datatype Event =
    // calls of the application
    | Send(prepared: Ec)
    | SendPing(prepared: Ec)
    | SendPong(prepared: Ec)
    | CloseCall(terminal: bool, prepared: Ec)
    | DeferHttp
    | SendHttpResponse
    | SetStatus(response: Response)
    | TerminateCall(ec: Ec)
    // handlers
    | Start
    | TransportReady(ec: Ec)
    | HandshakeRead(ec: Ec, request: Request)
    | ResponseWritten(ec: Ec)
    | FrameRead(ec: Ec, incoming: Incoming)
    | FrameWritten(ec: Ec, terminal: bool)
    | OpenTimeout(ec: Ec)
    | CloseTimeout(ec: Ec)
    | ShutdownDone

  predicate Enabled(c: Conn, e: Event) { e == ShutdownDone ==> c.pending != [] }

  function Next(cfg: Config, c: Conn, e: Event): Conn
    requires Enabled(c, e)
  {
    match e
    case Send(prepared) => SendFrame(c, DataFrame, prepared).0
    case SendPing(prepared) => SendFrame(c, PingFrame, prepared).0
    case SendPong(prepared) => SendFrame(c, PongFrame, prepared).0
    case CloseCall(terminal, prepared) => Close(c, terminal, prepared).0
    case DeferHttp => c.(http := Deferred)
    case SendHttpResponse => if c.http != Deferred then c else WriteHttpResponse(c.(http := BodyWritten), NoError)
    case SetStatus(r) => if c.internal != ProcessHttpRequest then c else c.(response := r)
    case TerminateCall(ec) => Terminate(c, ec)
    case Start => if c.internal != UserInit then Terminate(c, InvalidState) else c.(internal := TransportInit)
    case TransportReady(ec) =>
      var ecm := if c.internal != TransportInit then InvalidState else ec;
      if ecm != NoError then Terminate(c, ecm) else c.(internal := ReadHttpRequest)
    case HandshakeRead(ec, r) => HandleReadHandshake(c, ec, r)
    case ResponseWritten(ec) => HandleWriteHttpResponse(c, ec)
    case FrameRead(ec, f) => HandleReadFrame(cfg, c, ec, f)
    case FrameWritten(ec, terminal) => if ec != NoError || terminal then Terminate(c, ec) else c
    case OpenTimeout(ec) => if ec == NoError then Terminate(c, OPEN_HANDSHAKE_TIMEOUT) else c
    case CloseTimeout(ec) => if ec == NoError then Terminate(c, CLOSE_HANDSHAKE_TIMEOUT) else c
    case ShutdownDone => HandleTerminate(c.(pending := c.pending[1..]), c.pending[0])
  }

  function Exec(cfg: Config, c: Conn, run: seq<Event>): Option<Conn>
    decreases |run|
  {
    if run == [] then Some(c)
    else if !Enabled(c, run[0]) then None
    else Exec(cfg, Next(cfg, c, run[0]), run[1..])
  }

  // ----- what holds after every run ------------------------------------------------------------

  predicate HasClose(q: seq<Frame>) { exists i :: 0 <= i < |q| && q[i].CloseFrame? }

  /** Behind a close frame there are only close frames. */
  predicate ClosesLast(q: seq<Frame>) {
    forall i, j :: 0 <= i < j < |q| && q[i].CloseFrame? ==> q[j].CloseFrame?
  }

  predicate Lifecycle(c: Conn) {
    && (c.opens == if c.internal == ProcessConnection then 1 else 0)
    && (c.state == Connecting ==> c.opens == 0)
    && (c.state == Open || c.state == Closing ==> c.opens == 1)
    && (c.requested == if c.state != Closed then []
                       else if c.opens == 1 then [ClosedStatus] else [FailedStatus])
  }

  predicate Endings(c: Conn) {
    && c.pending == (if c.ended == 0 then c.requested else [])
    && c.ended <= |c.requested|
    && c.closes == (if c.ended == 1 && c.opens == 1 then 1 else 0)
    && c.fails <= c.ended
    && (c.opens == 1 ==> c.fails == 0)
  }

  predicate Frames(c: Conn) {
    && ClosesLast(c.queued)
    && (c.state == Connecting || c.state == Open ==> !HasClose(c.queued))
    && (c.state == Connecting ==> c.queued == [])
    && (c.state == Closing ==> HasClose(c.queued))
    && (c.wasClean ==> c.closeReceived && HasClose(c.queued))
  }

  predicate Inv(c: Conn) { Lifecycle(c) && Endings(c) && Frames(c) }

  /** What a step may change, seen from outside. */
  predicate Forward(c: Conn, d: Conn) {
    && Rank(c.state) <= Rank(d.state)
    && InternalRank(c.internal) <= InternalRank(d.internal)
    && c.queued <= d.queued && c.requested <= d.requested
    && c.opens <= d.opens && c.closes <= d.closes && c.fails <= d.fails
    && (c.state == Closed ==> d.queued == c.queued && d.requested == c.requested && d.opens == c.opens)
  }

  lemma TerminateStep(c: Conn, ec: Ec)
    requires Inv(c)
    ensures Inv(Terminate(c, ec)) && Forward(c, Terminate(c, ec))
  {
  }

  lemma SendStep(c: Conn, f: Frame, prepared: Ec)
    requires Inv(c) && !f.CloseFrame?
    ensures Inv(SendFrame(c, f, prepared).0) && Forward(c, SendFrame(c, f, prepared).0)
  {
    if c.state == Open {
      assert forall i :: 0 <= i < |c.queued| ==> (c.queued + [f])[i] == c.queued[i];
    }
  }

  lemma CloseStep(c: Conn, ack: bool, terminal: bool, prepared: Ec)
    requires Inv(c) && (c.state == Open || c.state == Closing) && (ack ==> c.closeReceived)
    ensures Inv(SendCloseFrame(c, ack, terminal, prepared).0) && Forward(c, SendCloseFrame(c, ack, terminal, prepared).0)
  {
    var q := c.queued + [CloseFrame(terminal)];
    assert q[|q| - 1].CloseFrame?;
  }

  /** A close frame has come in; the second answers an own one. */
  lemma ReceivedStep(c: Conn)
    requires Inv(c) && c.internal == ProcessConnection
    ensures c.state != Connecting && Inv(c.(closeReceived := true))
    ensures c.state == Closing ==> Inv(c.(closeReceived := true, wasClean := true))
  {
  }

  lemma ControlStep(cfg: Config, c: Conn, f: Incoming)
    requires Inv(c) && c.internal == ProcessConnection
    ensures Inv(ProcessControlFrame(cfg, c, f)) && Forward(c, ProcessControlFrame(cfg, c, f))
  {
    match f
    case Ping(_, prepared) => SendStep(c, PongFrame, prepared);
    case CloseIn(_, _, prepared) =>
      if c.state != Closed {
        var d := c.(closeReceived := true);
        assert Inv(d);
        CloseStep(d, true, true, prepared);
        TerminateStep(d, PROTOCOL_VIOLATION);
        if c.state == Closing {
          TerminateStep(d.(wasClean := true), NoError);
        }
      }
    case _ =>
  }

  lemma ReadStep(cfg: Config, c: Conn, ec: Ec, f: Incoming)
    requires Inv(c)
    ensures Inv(HandleReadFrame(cfg, c, ec, f)) && Forward(c, HandleReadFrame(cfg, c, ec, f))
  {
    TerminateStep(c, if ec == NoError then InvalidState else ec);
    TerminateStep(c, PROTOCOL_VIOLATION);
    if c.internal == ProcessConnection {
      ControlStep(cfg, c, f);
      if f.BadBytes? {
        if c.state == Open {
          CloseStep(c, false, f.terminal, f.prepared);
        }
        TerminateStep(c, Close(c, f.terminal, f.prepared).1);
      }
    }
  }

  lemma HandshakeStep(c: Conn, ec: Ec, r: Request)
    requires Inv(c)
    ensures Inv(HandleReadHandshake(c, ec, r)) && Forward(c, HandleReadHandshake(c, ec, r))
  {
    hide Inv, Forward, Terminate, WriteHttpResponse, WriteHttpResponseError;
    TerminateStep(c, if ec == NoError then InvalidState else ec);
    TerminateStep(c, GENERAL);
    SameForward(c);
    if c.internal == ReadHttpRequest {
      match r {
        case HttpException =>
          RejectStep(c, HTTP_PARSE_ERROR);
        case Rejected(e) =>
          RejectStep(c, e);
        case Complete(_, _, _, e) =>
          CompleteStep(c, r);
          WriteStep(Stored(c, r), e);
          ForwardTwice(c, Stored(c, r), WriteHttpResponse(Stored(c, r), e));
        case _ =>
      }
    }
  }

  lemma RejectStep(c: Conn, e: Ec)
    requires Inv(c)
    ensures var d := WriteHttpResponseError(c.(response := OtherStatus), e); Inv(d) && Forward(c, d)
  {
    hide Inv, Forward, WriteHttpResponseError;
    var d := c.(response := OtherStatus);
    HttpStep(c, d);
    WriteErrorStep(d, e);
    ForwardTwice(c, d, WriteHttpResponseError(d, e));
  }

  lemma ResponseStep(c: Conn, ec: Ec)
    requires Inv(c)
    ensures Inv(HandleWriteHttpResponse(c, ec)) && Forward(c, HandleWriteHttpResponse(c, ec))
  {
    TerminateStep(c, if ec == NoError then InvalidState else ec);
    TerminateStep(c.(ec := HttpConnectionEnded), HttpConnectionEnded);
    TerminateStep(c, c.ec);
  }

  predicate IsCall(e: Event) {
    e.Send? || e.SendPing? || e.SendPong? || e.CloseCall? || e.DeferHttp? || e.SendHttpResponse? || e.SetStatus? ||
    e.TerminateCall?
  }

  lemma CallStep(cfg: Config, c: Conn, e: Event)
    requires Inv(c) && IsCall(e) && !(e == DeferHttp || e == SendHttpResponse || e.SetStatus?)
    ensures Inv(Next(cfg, c, e)) && Forward(c, Next(cfg, c, e))
  {
    match e
    case Send(prepared) => SendStep(c, DataFrame, prepared);
    case SendPing(prepared) => SendStep(c, PingFrame, prepared);
    case SendPong(prepared) => SendStep(c, PongFrame, prepared);
    case CloseCall(terminal, prepared) =>
      if c.state == Open {
        CloseStep(c, false, terminal, prepared);
      }
    case TerminateCall(ec) => TerminateStep(c, ec);
  }

  lemma HttpCallStep(cfg: Config, c: Conn, e: Event)
    requires Inv(c) && (e == DeferHttp || e == SendHttpResponse || e.SetStatus?)
    ensures Inv(Next(cfg, c, e)) && Forward(c, Next(cfg, c, e))
  {
    match e
    case DeferHttp => HttpStep(c, c.(http := Deferred));
    case SetStatus(r) => HttpStep(c, c.(response := r));
    case SendHttpResponse =>
      var d := c.(http := BodyWritten);
      HttpStep(c, d);
      WriteStep(d, NoError);
  }

  lemma WriteStep(c: Conn, ec: Ec)
    requires Inv(c)
    ensures Inv(WriteHttpResponse(c, ec)) && Forward(c, WriteHttpResponse(c, ec))
  {
    if ec == HttpConnectionEnded {
      HttpStep(c, c);
    } else if c.response == Uninitialized {
      HttpStep(c, c.(response := OtherStatus, ec := GENERAL));
    } else {
      HttpStep(c, c.(ec := ec));
    }
  }

  lemma WriteErrorStep(c: Conn, ec: Ec)
    requires Inv(c)
    ensures Inv(WriteHttpResponseError(c, ec)) && Forward(c, WriteHttpResponseError(c, ec))
  {
    if c.internal != ReadHttpRequest {
      TerminateStep(c, InvalidState);
    } else {
      var d := c.(internal := ProcessHttpRequest);
      MoveOn(c);
      hide Inv, Forward;
      WriteStep(d, ec);
      ForwardTwice(c, d, WriteHttpResponse(d, ec));
    }
  }

  /** The handshake has been read. */
  lemma MoveOn(c: Conn)
    requires Inv(c) && c.internal == ReadHttpRequest
    ensures Inv(c.(internal := ProcessHttpRequest)) && Forward(c, c.(internal := ProcessHttpRequest))
  {
  }

  lemma CompleteStep(c: Conn, r: Request)
    requires Inv(c) && c.internal == ReadHttpRequest && r.Complete?
    ensures Inv(Stored(c, r)) && Forward(c, Stored(c, r))
  {
  }

  lemma SameForward(c: Conn)
    ensures Forward(c, c)
  {
  }

  lemma ForwardTwice(a: Conn, b: Conn, c: Conn)
    requires Forward(a, b) && Forward(b, c)
    ensures Forward(a, c)
  {
  }

  /** Steps that only touch the response or the HTTP state. */
  lemma HttpStep(c: Conn, d: Conn)
    requires Inv(c) && d.(http := c.http, response := c.response, ec := c.ec) == c
    ensures Inv(d) && Forward(c, d)
  {
  }

  /** The steps of the setup that only move the internal state on. */
  lemma SetupKeeps(c: Conn)
    requires Inv(c)
    ensures c.internal == UserInit ==> Inv(c.(internal := TransportInit)) && Forward(c, c.(internal := TransportInit))
    ensures c.internal == TransportInit ==> Inv(c.(internal := ReadHttpRequest)) && Forward(c, c.(internal := ReadHttpRequest))
  {
  }

  lemma HandlerStep(cfg: Config, c: Conn, e: Event)
    requires Inv(c) && Enabled(c, e) && !IsCall(e)
    ensures Inv(Next(cfg, c, e)) && Forward(c, Next(cfg, c, e))
  {
    hide Terminate, HandleReadHandshake, HandleWriteHttpResponse, HandleReadFrame, HandleTerminate, Lifecycle, Endings, Frames;
    SetupKeeps(c);
    match e
    case Start => TerminateStep(c, InvalidState);
    case TransportReady(ec) => TerminateStep(c, if c.internal != TransportInit then InvalidState else ec);
    case HandshakeRead(ec, r) => HandshakeStep(c, ec, r);
    case ResponseWritten(ec) => ResponseStep(c, ec);
    case FrameRead(ec, f) => ReadStep(cfg, c, ec, f);
    case FrameWritten(ec, _) => TerminateStep(c, ec);
    case OpenTimeout(_) => TerminateStep(c, OPEN_HANDSHAKE_TIMEOUT);
    case CloseTimeout(_) => TerminateStep(c, CLOSE_HANDSHAKE_TIMEOUT);
    case ShutdownDone => HandleTerminateStep(c);
  }

  lemma HandleTerminateStep(c: Conn)
    requires Inv(c) && c.pending != []
    ensures var d := HandleTerminate(c.(pending := c.pending[1..]), c.pending[0]); Inv(d) && Forward(c, d)
  {
    assert c.pending[1..] == [];
  }

  lemma StepInv(cfg: Config, c: Conn, e: Event)
    requires Inv(c) && Enabled(c, e)
    ensures Inv(Next(cfg, c, e)) && Forward(c, Next(cfg, c, e))
  {
    if e == DeferHttp || e == SendHttpResponse || e.SetStatus? {
      HttpCallStep(cfg, c, e);
    } else if IsCall(e) {
      CallStep(cfg, c, e);
    } else {
      HandlerStep(cfg, c, e);
    }
  }

  lemma {:induction false} ExecInv(cfg: Config, c: Conn, run: seq<Event>)
    requires Inv(c) && Exec(cfg, c, run).Some?
    ensures Inv(Exec(cfg, c, run).value) && Forward(c, Exec(cfg, c, run).value)
    decreases |run|
  {
    if run != [] {
      StepInv(cfg, c, run[0]);
      ExecInv(cfg, Next(cfg, c, run[0]), run[1..]);
    }
  }

  /** A connection as the constructor leaves it. */
  predicate Initial(c: Conn) {
    && c.state == Connecting && c.internal == UserInit && !c.isHttp && c.http == HttpInit && c.ec == NoError
    && !c.wasClean && c.response == Uninitialized && c.queued == [] && c.requested == [] && c.pending == []
    && c.opens == c.closes == c.fails == c.ended == 0 && !c.closeReceived
  }

  ghost predicate Reachable(cfg: Config, run: seq<Event>, c: Conn) {
    exists start :: Initial(start) && Exec(cfg, start, run) == Some(c)
  }

  lemma ReachableInv(cfg: Config, run: seq<Event>, c: Conn)
    requires Reachable(cfg, run, c)
    ensures Inv(c)
  {
    var start :| Initial(start) && Exec(cfg, start, run) == Some(c);
    ExecInv(cfg, start, run);
  }

  lemma {:induction false} ExecAppend(cfg: Config, c: Conn, a: seq<Event>, b: seq<Event>)
    requires Exec(cfg, c, a).Some?
    ensures Exec(cfg, c, a + b) == Exec(cfg, Exec(cfg, c, a).value, b)
    decreases |a|
  {
    if a == [] {
      assert a + b == b;
    } else {
      assert (a + b)[0] == a[0] && (a + b)[1..] == a[1..] + b;
      ExecAppend(cfg, Next(cfg, c, a[0]), a[1..], b);
    }
  }

  /** The environment hands in the error that the connection itself keeps for ended HTTP exchanges. */
  predicate PassesEnded(e: Event) {
    match e
    case TerminateCall(ec) => ec == HttpConnectionEnded
    case TransportReady(ec) => ec == HttpConnectionEnded
    case HandshakeRead(ec, _) => ec == HttpConnectionEnded
    case ResponseWritten(ec) => ec == HttpConnectionEnded
    case FrameRead(ec, f) => ec == HttpConnectionEnded || (f.BadBytes? && f.prepared == HttpConnectionEnded)
    case FrameWritten(ec, _) => ec == HttpConnectionEnded
    case _ => false
  }

  predicate NonePassesEnded(run: seq<Event>) { forall i :: 0 <= i < |run| ==> !PassesEnded(run[i]) }

  /** On a connection that is no HTTP exchange, and what its ending called. */
  predicate Attempted(c: Conn) {
    !c.isHttp ==> c.ec != HttpConnectionEnded && (c.ended == 1 ==> c.opens + c.fails == 1)
  }

  /** What every step but the completion of a shutdown leaves alone; the kept error comes from nowhere else. */
  predicate Alike(c: Conn, d: Conn) {
    && d.ended == c.ended && d.fails == c.fails && (c.isHttp ==> d.isHttp)
    && (d.ec == HttpConnectionEnded ==> c.ec == HttpConnectionEnded || d.isHttp)
  }

  lemma TerminateAlike(c: Conn, ec: Ec)
    requires ec != HttpConnectionEnded
    ensures Alike(c, Terminate(c, ec))
  {
  }

  lemma CallAlike(cfg: Config, c: Conn, e: Event)
    requires IsCall(e) && !PassesEnded(e)
    ensures Alike(c, Next(cfg, c, e))
  {
    if e.TerminateCall? {
      TerminateAlike(c, e.ec);
    }
  }

  lemma HandshakeAlike(c: Conn, ec: Ec, r: Request)
    requires ec != HttpConnectionEnded
    ensures Alike(c, HandleReadHandshake(c, ec, r))
  {
    TerminateAlike(c, if ec == NoError then InvalidState else ec);
    TerminateAlike(c, GENERAL);
  }

  lemma ResponseAlike(c: Conn, ec: Ec)
    requires ec != HttpConnectionEnded
    ensures Alike(c, HandleWriteHttpResponse(c, ec))
  {
    TerminateAlike(c, if ec == NoError then InvalidState else ec);
    TerminateAlike(c, if c.ec == HttpConnectionEnded then NoError else c.ec);
  }

  lemma ControlAlike(cfg: Config, c: Conn, f: Incoming)
    ensures Alike(c, ProcessControlFrame(cfg, c, f))
  {
    hide Terminate;
    TerminateAlike(c.(closeReceived := true), PROTOCOL_VIOLATION);
    TerminateAlike(c.(closeReceived := true, wasClean := true), NoError);
  }

  lemma FrameAlike(cfg: Config, c: Conn, ec: Ec, f: Incoming)
    requires !PassesEnded(FrameRead(ec, f))
    ensures Alike(c, HandleReadFrame(cfg, c, ec, f))
  {
    hide Terminate, ProcessControlFrame;
    TerminateAlike(c, if ec == NoError then InvalidState else ec);
    TerminateAlike(c, PROTOCOL_VIOLATION);
    ControlAlike(cfg, c, f);
    if f.BadBytes? {
      var (d, r) := Close(c, f.terminal, f.prepared);
      TerminateAlike(d, r);
    }
  }

  lemma StepAlike(cfg: Config, c: Conn, e: Event)
    requires Enabled(c, e) && e != ShutdownDone && !PassesEnded(e)
    ensures Alike(c, Next(cfg, c, e))
  {
    if IsCall(e) {
      CallAlike(cfg, c, e);
    } else {
      hide Terminate, HandleReadHandshake, HandleWriteHttpResponse, HandleReadFrame;
      match e {
        case Start => TerminateAlike(c, InvalidState);
        case TransportReady(ec) => TerminateAlike(c, if c.internal != TransportInit then InvalidState else ec);
        case HandshakeRead(ec, r) => HandshakeAlike(c, ec, r);
        case ResponseWritten(ec) => ResponseAlike(c, ec);
        case FrameRead(ec, f) => FrameAlike(cfg, c, ec, f);
        case FrameWritten(ec, _) => TerminateAlike(c, ec);
        case OpenTimeout(_) => TerminateAlike(c, OPEN_HANDSHAKE_TIMEOUT);
        case CloseTimeout(_) => TerminateAlike(c, CLOSE_HANDSHAKE_TIMEOUT);
      }
    }
  }

  lemma AttemptedStep(cfg: Config, c: Conn, e: Event)
    requires Inv(c) && Attempted(c) && Enabled(c, e) && !PassesEnded(e)
    ensures Attempted(Next(cfg, c, e))
  {
    if e != ShutdownDone {
      hide Next, Frames;
      StepInv(cfg, c, e);
      StepAlike(cfg, c, e);
    }
  }

  lemma {:induction false} AttemptedRun(cfg: Config, c: Conn, run: seq<Event>)
    requires Inv(c) && Attempted(c) && Exec(cfg, c, run).Some? && NonePassesEnded(run)
    ensures Attempted(Exec(cfg, c, run).value)
    decreases |run|
  {
    if run != [] {
      assert !PassesEnded(run[0]);
      hide Next, Inv, Attempted;
      StepInv(cfg, c, run[0]);
      AttemptedStep(cfg, c, run[0]);
      AttemptedRun(cfg, Next(cfg, c, run[0]), run[1..]);
    }
  }

  /** The handler contract: one open, one ending of the right kind, one shutdown. */
  lemma HandlerContract(cfg: Config, run: seq<Event>, c: Conn)
    requires Reachable(cfg, run, c)
    ensures c.opens <= 1 && |c.requested| <= 1 && c.ended <= |c.requested|
    ensures c.closes + c.fails <= 1
    ensures c.closes == 1 ==> c.opens == 1
    ensures c.fails == 1 ==> c.opens == 0
    // once the shutdown has completed the close handler has run exactly if the open handler did
    ensures c.ended == 1 ==> c.closes == c.opens
    // and of each attempt at a WebSocket connection either the open or the fail handler
    ensures c.ended == 1 && !c.isHttp && NonePassesEnded(run) ==> c.opens + c.fails == 1
  {
    ReachableInv(cfg, run, c);
    if NonePassesEnded(run) {
      var start :| Initial(start) && Exec(cfg, start, run) == Some(c);
      AttemptedRun(cfg, start, run);
    }
  }

  /** The state never moves back, and a closed connection queues, opens and shuts down nothing. */
  lemma StateForward(cfg: Config, run: seq<Event>, more: seq<Event>, c: Conn, d: Conn)
    requires Reachable(cfg, run, c) && Reachable(cfg, run + more, d)
    ensures Rank(c.state) <= Rank(d.state) && InternalRank(c.internal) <= InternalRank(d.internal)
    ensures c.queued <= d.queued && c.requested <= d.requested
    ensures c.state == Closed ==> d.state == Closed && d.queued == c.queued && d.requested == c.requested && d.opens == c.opens
  {
    ReachableInv(cfg, run, c);
    var start :| Initial(start) && Exec(cfg, start, run) == Some(c);
    ExecAppend(cfg, start, run, more);
    ExecInv(cfg, c, more);
  }

  /** Section 5.5.1 of RFC 6455, and what a clean close means. */
  lemma CloseDiscipline(cfg: Config, run: seq<Event>, c: Conn)
    requires Reachable(cfg, run, c)
    ensures forall i, j :: 0 <= i < j < |c.queued| && c.queued[i].CloseFrame? ==> c.queued[j].CloseFrame?
    ensures c.wasClean ==> c.closeReceived && exists i :: 0 <= i < |c.queued| && c.queued[i].CloseFrame?
    ensures c.state == Open ==> !HasClose(c.queued)
    ensures c.state == Closing ==> HasClose(c.queued)
  {
    ReachableInv(cfg, run, c);
  }

  // ----- what is answered, sent and ended --------------------------------------------------------

  /**
   Section 5.5.1 of RFC 6455: a close frame that comes in is answered with one, an answer to an
   own one ends the connection, and one that breaks the rules is answered or drops it.
   */
  lemma CloseFrameAnswered(cfg: Config, c: Conn, codeOk: bool, reasonOk: bool, prepared: Ec)
    requires Inv(c) && (c.state == Open || c.state == Closing)
    ensures
      var d, good := Next(cfg, c, FrameRead(NoError, CloseIn(codeOk, reasonOk, prepared))), codeOk && reasonOk;
      var answered := (good && c.state == Open) || (!good && !cfg.dropOnProtocolError);
      && d.closeReceived
      && (answered && prepared == NoError ==>
            d.state == Closing && d.wasClean && d.queued == c.queued + [CloseFrame(true)] && d.requested == [])
      && (answered && prepared != NoError ==> d == c.(closeReceived := true))
      && (good && c.state == Closing && !c.wasClean ==>
            d.state == Closed && d.wasClean && d.queued == c.queued && d.requested == d.pending == [ClosedStatus] &&
            d.ec == c.ec)
      && (good && c.state == Closing && c.wasClean ==> d == c.(closeReceived := true))
      && (!good && cfg.dropOnProtocolError ==>
            d.state == Closed && d.wasClean == c.wasClean && d.queued == c.queued &&
            d.requested == d.pending == [ClosedStatus] && d.ec == PROTOCOL_VIOLATION)
  {
  }

  /** A ping is answered with one pong, if the connection is open and the application does not object. */
  lemma PingAnswered(cfg: Config, c: Conn, reply: bool, prepared: Ec)
    requires Inv(c) && c.opens == 1
    ensures Next(cfg, c, FrameRead(NoError, Ping(reply, prepared))) ==
      if c.state == Open && reply && prepared == NoError then c.(queued := c.queued + [PongFrame]) else c
  {
  }

  /** Messages and pongs that come in change nothing here, and after the end nor does anything else. */
  lemma OthersIgnored(cfg: Config, c: Conn, f: Incoming)
    requires Inv(c) && c.opens == 1 && !f.BadBytes?
    requires f.Message? || f.Pong? || f.UnknownControl? || c.state == Closed
    ensures Next(cfg, c, FrameRead(NoError, f)) == c
  {
  }

  /** Bytes that are no frame: the connection is dropped, closed with a frame, or dropped because that fails. */
  lemma BadBytesAnswered(cfg: Config, c: Conn, terminal: bool, prepared: Ec)
    requires Inv(c) && c.opens == 1
    ensures
      var d := Next(cfg, c, FrameRead(NoError, BadBytes(terminal, prepared)));
      if cfg.dropOnProtocolError then d.state == Closed && d.queued == c.queued && d.ec == PROTOCOL_VIOLATION
      else if c.state == Open && prepared == NoError then
        d.state == Closing && d.queued == c.queued + [CloseFrame(terminal)] && d.wasClean == c.wasClean && d.ec == c.ec
      else
        d.state == Closed && d.queued == c.queued && d.requested == [ClosedStatus] &&
        d.ec == if c.state == Open then prepared else InvalidState
  {
  }

  /** What the application sends is queued, once and last, exactly if the connection is open and it can be prepared. */
  lemma SendQueues(cfg: Config, c: Conn, prepared: Ec)
    ensures
      var sent := c.state == Open && prepared == NoError;
      && Next(cfg, c, Send(prepared)) == (if sent then c.(queued := c.queued + [DataFrame]) else c)
      && Next(cfg, c, SendPing(prepared)) == (if sent then c.(queued := c.queued + [PingFrame]) else c)
      && Next(cfg, c, SendPong(prepared)) == (if sent then c.(queued := c.queued + [PongFrame]) else c)
      && (SendFrame(c, DataFrame, prepared).1 == NoError <==> sent)
      && (c.state != Open ==> SendFrame(c, DataFrame, prepared).1 == InvalidState)
  {
  }

  /** close() asks the peer to close, exactly if the connection is open; it does not make the close clean. */
  lemma CloseAsks(cfg: Config, c: Conn, terminal: bool, prepared: Ec)
    ensures Next(cfg, c, CloseCall(terminal, prepared)) ==
      if c.state == Open && prepared == NoError then
        c.(state := Closing, queued := c.queued + [CloseFrame(terminal)])
      else c
    ensures c.state != Open ==> Close(c, terminal, prepared).1 == InvalidState
  {
  }

  /** The events that end a connection of the invariant which has not ended, and the error each records. */
  function EndedBy(c: Conn, e: Event): Option<Ec> {
    match e
    case TerminateCall(ec) => Some(ec)
    case OpenTimeout(NoError) => Some(OPEN_HANDSHAKE_TIMEOUT)
    case CloseTimeout(NoError) => Some(CLOSE_HANDSHAKE_TIMEOUT)
    case FrameWritten(ec, terminal) => if terminal || ec != NoError then Some(ec) else None
    case Start => if c.internal == UserInit then None else Some(InvalidState)
    case TransportReady(ec) =>
      if c.internal != TransportInit then Some(InvalidState) else if ec != NoError then Some(ec) else None
    case _ => None
  }

  /** Ending once: closed, with one shutdown asked for, whose status says whether the connection had opened. */
  lemma EndsOnce(cfg: Config, c: Conn, e: Event)
    requires Inv(c) && c.state != Closed && EndedBy(c, e).Some?
    ensures
      var d, ec := Next(cfg, c, e), EndedBy(c, e).value;
      && d.state == Closed && d.queued == c.queued && d.opens == c.opens
      && d.requested == d.pending == [if c.opens == 1 then ClosedStatus else FailedStatus]
      && d.ec == if ec == NoError then c.ec else ec
  {
  }

  /** The setup goes on by one step, and nothing else happens. */
  lemma SetupGoesOn(cfg: Config, c: Conn)
    ensures c.internal == UserInit ==> Next(cfg, c, Start) == c.(internal := TransportInit)
    ensures c.internal == TransportInit ==> Next(cfg, c, TransportReady(NoError)) == c.(internal := ReadHttpRequest)
  {
  }

  /** The connection opens exactly when the response that switches protocols has been written in time. */
  lemma OpensIff(cfg: Config, c: Conn, e: Event)
    requires Inv(c) && Enabled(c, e)
    ensures Next(cfg, c, e).opens > c.opens <==>
      e == ResponseWritten(NoError) && c.state == Connecting && c.internal == ProcessHttpRequest &&
      c.response == SwitchingProtocols
    ensures Next(cfg, c, e).opens > c.opens ==>
      Next(cfg, c, e) == c.(state := Open, internal := ProcessConnection, opens := 1)
  {
    hide Frames, Endings;
    match e {
      case HandshakeRead(ec, r) =>
        HandshakeOpensNot(c, ec, r);
      case FrameRead(ec, f) =>
        FrameOpensNot(cfg, c, ec, f);
      case _ =>
    }
  }

  lemma HandshakeOpensNot(c: Conn, ec: Ec, r: Request)
    ensures HandleReadHandshake(c, ec, r).opens == c.opens
  {
  }

  lemma FrameOpensNot(cfg: Config, c: Conn, ec: Ec, f: Incoming)
    ensures HandleReadFrame(cfg, c, ec, f).opens == c.opens
  {
  }

  /** What the handshake read leads to while a request is awaited: the response, and the error kept with it. */
  lemma RequestAnswered(cfg: Config, c: Conn, r: Request)
    requires Inv(c) && c.state == Connecting && c.internal == ReadHttpRequest
    ensures
      var d := Next(cfg, c, HandshakeRead(NoError, r));
      match r
      case OutOfBounds => d.state == Closed && d.ec == GENERAL && d.requested == [FailedStatus]
      case Incomplete => d == c
      case HttpException =>
        d == c.(internal := ProcessHttpRequest, response := OtherStatus, ec := HTTP_PARSE_ERROR)
      case Rejected(e) =>
        d == c.(internal := ProcessHttpRequest, response := OtherStatus, ec := if e == HttpConnectionEnded then c.ec else e)
      case Complete(plain, http, response, e) =>
        && d.internal == ProcessHttpRequest && d.state == Connecting && d.isHttp == (c.isHttp || plain)
        && d.http == (if plain then http else c.http)
        && var now := (!d.isHttp || d.http == HttpInit) && e != HttpConnectionEnded;
           && d.response == (if now && response == Uninitialized then OtherStatus else response)
           && d.ec == (if !now then c.ec else if response == Uninitialized then GENERAL else e)
  {
  }

  /** Read errors end the connection, but for those that its end explains. */
  lemma ReadErrorEnds(cfg: Config, c: Conn, ec: Ec, f: Incoming)
    requires Inv(c) && ec != NoError
    ensures
      var d := Next(cfg, c, FrameRead(ec, f));
      if c.state != Closed then d.state == Closed && d.ec == ec && |d.requested| == 1
      else d.requested == c.requested && d.ec == if ec == Eof || ec == InvalidState then c.ec else ec
  {
  }

  /** A response that does not switch protocols ends the connection with its error, a plain HTTP one with its own. */
  lemma ResponseEnds(cfg: Config, c: Conn)
    requires Inv(c) && c.state == Connecting && c.internal == ProcessHttpRequest && c.response != SwitchingProtocols
    ensures
      var d := Next(cfg, c, ResponseWritten(NoError));
      d.state == Closed && d.requested == [FailedStatus] && d.ec == if c.isHttp then HttpConnectionEnded else c.ec
  {
  }

  /** A deferred response goes out once it is sent, and only then. */
  lemma DeferredResponse(cfg: Config, c: Conn)
    ensures Next(cfg, c, DeferHttp) == c.(http := Deferred)
    ensures
      var d := Next(cfg, c, SendHttpResponse);
      if c.http != Deferred then d == c
      else if c.response == Uninitialized then d == c.(http := BodyWritten, response := OtherStatus, ec := GENERAL)
      else d == c.(http := BodyWritten, ec := NoError)
  {
  }

  /** The status of a shutdown that completes chooses the handler. */
  lemma EndingCalls(cfg: Config, run: seq<Event>, c: Conn)
    requires Reachable(cfg, run, c) && c.pending != []
    ensures
      var d := Next(cfg, c, ShutdownDone);
      && d.pending == [] && d.ended == 1
      && d.closes == (if c.opens == 1 then 1 else 0)
      && d.fails == (if c.opens == 0 && c.ec != HttpConnectionEnded then 1 else 0)
  {
    ReachableInv(cfg, run, c);
  }

  // ----- no close frame goes unanswered ----------------------------------------------------------

  /** A close frame that came in has been answered, or the connection has ended. */
  predicate Answered(c: Conn) { c.closeReceived ==> HasClose(c.queued) || c.state == Closed }

  /** The event brings no close frame whose answer cannot be prepared. */
  predicate AnswerPrepared(e: Event) { e.FrameRead? && e.incoming.CloseIn? ==> e.incoming.prepared == NoError }

  predicate AnswersPrepared(run: seq<Event>) { forall i :: 0 <= i < |run| ==> AnswerPrepared(run[i]) }

  lemma CloseInAnswered(cfg: Config, c: Conn, codeOk: bool, reasonOk: bool)
    requires Inv(c) && c.state != Connecting
    ensures Answered(ProcessControlFrame(cfg, c, CloseIn(codeOk, reasonOk, NoError)))
  {
    var q := c.queued + [CloseFrame(true)];
    assert q[|c.queued|].CloseFrame?;
  }

  /** Only a close frame that comes in is noted as one. */
  lemma NotedOnly(cfg: Config, c: Conn, e: Event)
    requires Enabled(c, e) && !(e.FrameRead? && e.incoming.CloseIn?)
    ensures Next(cfg, c, e).closeReceived == c.closeReceived
  {
    hide Terminate;
    NotedTerminate(c);
    match e {
      case HandshakeRead(ec, r) =>
      case FrameRead(ec, f) =>
        NotedFrame(cfg, c, ec, f);
      case ResponseWritten(ec) =>
        NotedTerminate(c.(ec := HttpConnectionEnded));
      case _ =>
    }
  }

  lemma NotedTerminate(c: Conn)
    ensures forall ec :: Terminate(c, ec).closeReceived == c.closeReceived
  {
  }

  lemma NotedFrame(cfg: Config, c: Conn, ec: Ec, f: Incoming)
    requires !f.CloseIn?
    ensures HandleReadFrame(cfg, c, ec, f).closeReceived == c.closeReceived
  {
  }

  lemma AnsweredStep(cfg: Config, c: Conn, e: Event)
    requires Inv(c) && Answered(c) && Enabled(c, e) && AnswerPrepared(e)
    ensures Answered(Next(cfg, c, e))
  {
    hide Inv, Terminate, ProcessControlFrame, HandleReadHandshake, HandleWriteHttpResponse;
    StepInv(cfg, c, e);
    var d := Next(cfg, c, e);
    if HasClose(c.queued) {
      var i :| 0 <= i < |c.queued| && c.queued[i].CloseFrame?;
      assert d.queued[i].CloseFrame?;
    } else if e.FrameRead? && e.incoming.CloseIn? {
      CloseInRead(cfg, c, e.ec, e.incoming);
      if d.state != Closed {
        assert e.incoming == CloseIn(e.incoming.codeOk, e.incoming.reasonOk, NoError);
        CloseInAnswered(cfg, c, e.incoming.codeOk, e.incoming.reasonOk);
      }
    } else {
      NotedOnly(cfg, c, e);
    }
  }

  lemma CloseInRead(cfg: Config, c: Conn, ec: Ec, f: Incoming)
    requires Inv(c) && f.CloseIn?
    ensures
      var d := HandleReadFrame(cfg, c, ec, f);
      d.state == Closed || (c.state != Connecting && d == ProcessControlFrame(cfg, c, f))
  {
  }

  lemma {:induction false} AnsweredRun(cfg: Config, c: Conn, run: seq<Event>)
    requires Inv(c) && Answered(c) && Exec(cfg, c, run).Some? && AnswersPrepared(run)
    ensures Answered(Exec(cfg, c, run).value)
    decreases |run|
  {
    if run != [] {
      assert AnswerPrepared(run[0]);
      hide Next, Inv, Answered;
      StepInv(cfg, c, run[0]);
      AnsweredStep(cfg, c, run[0]);
      AnsweredRun(cfg, Next(cfg, c, run[0]), run[1..]);
    }
  }

  /** Over whole runs: every close frame that comes in is answered, unless the connection ends first. */
  lemma ClosesAreAnswered(cfg: Config, run: seq<Event>, c: Conn)
    requires Reachable(cfg, run, c) && AnswersPrepared(run) && c.closeReceived
    ensures c.state == Closed || exists i :: 0 <= i < |c.queued| && c.queued[i].CloseFrame?
  {
    var start :| Initial(start) && Exec(cfg, start, run) == Some(c);
    AnsweredRun(cfg, start, run);
  }

  // ----- the fail handler on plain HTTP connections ---------------------------------------------

  /**
   When the shutdown completes the fail handler runs exactly on a connection that never
   opened and whose last recorded error is not that of an ended HTTP exchange.
   */
  lemma FailHandlerIff(cfg: Config, run: seq<Event>, c: Conn)
    requires Reachable(cfg, run, c) && c.pending != []
    ensures Next(cfg, c, ShutdownDone).fails == 1 <==> c.opens == 0 && c.ec != HttpConnectionEnded
  {
    ReachableInv(cfg, run, c);
  }

  lemma ExecCons(cfg: Config, c: Conn, e: Event, rest: seq<Event>)
    requires Enabled(c, e)
    ensures Exec(cfg, c, [e] + rest) == Exec(cfg, Next(cfg, c, e), rest)
  {
    assert ([e] + rest)[0] == e && ([e] + rest)[1..] == rest;
  }

  const PLAIN_REQUEST := HandshakeRead(NoError, Complete(true, HttpInit, OtherStatus, NoError))

  /** The response to a plain HTTP request has been written and its shutdown is under way. */
  predicate HttpAnswered(c: Conn) {
    && c.state == Closed && c.internal == ProcessHttpRequest && c.isHttp && c.http == HttpClosed
    && c.ec == HttpConnectionEnded && c.pending == [FailedStatus] && c.opens == c.fails == 0
  }

  /** The handlers of one plain HTTP exchange, one by one. */
  lemma HttpSteps(cfg: Config, c0: Conn, c1: Conn, c2: Conn, c3: Conn)
    requires Initial(c0) && c1 == c0.(internal := TransportInit) && c2 == c1.(internal := ReadHttpRequest)
    requires c3 == c2.(internal := ProcessHttpRequest, isHttp := true, response := OtherStatus)
    ensures Next(cfg, c0, Start) == c1
    ensures Next(cfg, c1, TransportReady(NoError)) == c2
    ensures Next(cfg, c2, PLAIN_REQUEST) == c3
    ensures HttpAnswered(Next(cfg, c3, ResponseWritten(NoError)))
  {
  }

  lemma HttpAnswer(cfg: Config, c0: Conn) returns (c: Conn)
    requires Initial(c0)
    ensures HttpAnswered(c)
    ensures Exec(cfg, c0, [Start] + ([TransportReady(NoError)] + ([PLAIN_REQUEST] + ([ResponseWritten(NoError)] + [])))) == Some(c)
  {
    var c1 := c0.(internal := TransportInit);
    var c2 := c1.(internal := ReadHttpRequest);
    var c3 := c2.(internal := ProcessHttpRequest, isHttp := true, response := OtherStatus);
    HttpSteps(cfg, c0, c1, c2, c3);
    c := Next(cfg, c3, ResponseWritten(NoError));
    ExecCons(cfg, c3, ResponseWritten(NoError), []);
    ExecCons(cfg, c2, PLAIN_REQUEST, [ResponseWritten(NoError)] + []);
    ExecCons(cfg, c1, TransportReady(NoError), [PLAIN_REQUEST] + ([ResponseWritten(NoError)] + []));
    ExecCons(cfg, c0, Start, [TransportReady(NoError)] + ([PLAIN_REQUEST] + ([ResponseWritten(NoError)] + [])));
  }

  /** The error an event records in terminate while an HTTP exchange is under way or closed, if any. */
  function Recorded(closed: bool, e: Event): Option<Ec> {
    match e
    case TerminateCall(ec) => if ec != NoError then Some(ec) else None
    case FrameWritten(ec, _) => if ec != NoError then Some(ec) else None
    case Start => Some(InvalidState)
    case TransportReady(_) => Some(InvalidState)
    case HandshakeRead(ec, _) =>
      if closed && (ec == NoError || ec == Eof) then None else Some(if ec == NoError then InvalidState else ec)
    case ResponseWritten(ec) =>
      if closed && (ec == NoError || ec == Eof) then None else Some(if ec == NoError then HttpConnectionEnded else ec)
    case FrameRead(ec, _) =>
      if closed && (ec == NoError || ec == Eof || ec == InvalidState) then None
      else Some(if ec == NoError then InvalidState else ec)
    case OpenTimeout(ec) => if ec == NoError then Some(OPEN_HANDSHAKE_TIMEOUT) else None
    case CloseTimeout(ec) => if ec == NoError then Some(CLOSE_HANDSHAKE_TIMEOUT) else None
    case _ => None
  }

  /** terminate is called, which ends a deferred response. */
  predicate Terminates(closed: bool, e: Event) {
    Recorded(closed, e).Some? || e == TerminateCall(NoError) || e == FrameWritten(NoError, true)
  }

  /**
   An HTTP exchange whose request has been read: whether it has been terminated, a response is
   deferred, the stored error is that of an ended exchange, and the response is one that upgrades.
   */
  datatype Exchange = Upgraded | Plain(closed: bool, deferred: bool, ended: bool, upgrade: bool)

  function ExchangeStep(x: Exchange, e: Event): Exchange {
    if x.Upgraded? then x
    else if e == DeferHttp then x.(deferred := true)
    else if e == SendHttpResponse then (if x.deferred then x.(deferred := false, ended := false) else x)
    else if e.SetStatus? then x.(upgrade := e.response == SwitchingProtocols)
    else if e == ResponseWritten(NoError) && !x.closed && x.upgrade then Upgraded
    else if Terminates(x.closed, e) then
      var r := Recorded(x.closed, e);
      Plain(true, false, if r.Some? then r.value == HttpConnectionEnded else x.ended, x.upgrade)
    else x
  }

  function ExchangeRun(x: Exchange, run: seq<Event>): Exchange
    decreases |run|
  {
    if run == [] then x else ExchangeRun(ExchangeStep(x, run[0]), run[1..])
  }

  /** The connection is where the exchange says, and no shutdown has completed. */
  predicate Tracks(c: Conn, x: Exchange) {
    match x
    case Upgraded => c.opens == 1
    case Plain(closed, deferred, ended, upgrade) =>
      && c.internal == ProcessHttpRequest && c.isHttp && c.opens == 0 && c.fails == 0
      && c.state == (if closed then Closed else Connecting)
      && c.pending == (if closed then [FailedStatus] else [])
      && (c.http == Deferred <==> deferred) && (c.ec == HttpConnectionEnded <==> ended)
      && (c.response == SwitchingProtocols <==> upgrade)
  }

  lemma PlainCall(cfg: Config, c: Conn, x: Exchange, e: Event)
    requires Tracks(c, x) && x.Plain? && IsCall(e)
    ensures Tracks(Next(cfg, c, e), ExchangeStep(x, e))
  {
    hide Terminate;
    if e.TerminateCall? {
      TerminatedExchange(c, e.ec);
    }
  }

  lemma PlainStep(cfg: Config, c: Conn, x: Exchange, e: Event)
    requires Tracks(c, x) && x.Plain? && e != ShutdownDone
    ensures Tracks(Next(cfg, c, e), ExchangeStep(x, e))
  {
    if IsCall(e) {
      PlainCall(cfg, c, x, e);
    } else {
      PlainHandler(cfg, c, x, e);
    }
  }

  lemma PlainResponse(c: Conn, x: Exchange, ec: Ec)
    requires Tracks(c, x) && x.Plain?
    ensures Tracks(HandleWriteHttpResponse(c, ec), ExchangeStep(x, ResponseWritten(ec)))
  {
    hide Terminate;
    TerminatedExchange(c, ec);
    TerminatedExchange(c.(ec := HttpConnectionEnded), HttpConnectionEnded);
  }

  lemma PlainHandler(cfg: Config, c: Conn, x: Exchange, e: Event)
    requires Tracks(c, x) && x.Plain? && e != ShutdownDone && !IsCall(e)
    ensures Tracks(Next(cfg, c, e), ExchangeStep(x, e))
  {
    hide Terminate, HandleWriteHttpResponse;
    if e.ResponseWritten? {
      PlainResponse(c, x, e.ec);
    } else {
      var r := Recorded(x.closed, e);
      TerminatedExchange(c, if r.Some? then r.value else NoError);
    }
  }

  lemma TerminatedExchange(c: Conn, ec: Ec)
    requires c.isHttp && (c.state == Closed || c.state == Connecting)
    ensures var d := Terminate(c, ec);
            && d.(ec := c.ec, http := c.http, state := c.state, requested := c.requested, pending := c.pending) == c
            && d.ec == (if ec != NoError then ec else c.ec) && d.http == HttpClosed && d.state == Closed
            && d.pending == if c.state == Closed then c.pending else c.pending + [FailedStatus]
  {
  }

  lemma UpgradedStep(cfg: Config, c: Conn, e: Event)
    requires Inv(c) && c.opens == 1 && Enabled(c, e)
    ensures Next(cfg, c, e).opens == 1
  {
    hide Next;
    StepInv(cfg, c, e);
  }

  lemma {:induction false} ExchangeTracks(cfg: Config, c: Conn, x: Exchange, run: seq<Event>)
    requires Tracks(c, x) && (Inv(c) || (x.Plain? && x.closed))
    requires Exec(cfg, c, run).Some? && ShutdownDone !in run
    ensures Tracks(Exec(cfg, c, run).value, ExchangeRun(x, run))
    ensures Inv(c) ==> Inv(Exec(cfg, c, run).value)
    decreases |run|
  {
    if run != [] {
      hide Next, Inv, Tracks;
      if x.Plain? {
        PlainStep(cfg, c, x, run[0]);
      } else {
        UpgradedTracks(cfg, c, run[0]);
      }
      if Inv(c) {
        StepInv(cfg, c, run[0]);
      }
      ExchangeTracks(cfg, Next(cfg, c, run[0]), ExchangeStep(x, run[0]), run[1..]);
    }
  }

  lemma UpgradedTracks(cfg: Config, c: Conn, e: Event)
    requires Inv(c) && Tracks(c, Upgraded) && Enabled(c, e)
    ensures Tracks(Next(cfg, c, e), Upgraded)
  {
    UpgradedStep(cfg, c, e);
  }

  /** A plain HTTP request has been read, and its response is deferred or about to be written. */
  predicate HttpRead(c: Conn) { c.state == Connecting && c.internal == ProcessHttpRequest && c.isHttp }

  function ExchangeOf(c: Conn): Exchange {
    Plain(c.state == Closed, c.http == Deferred, c.ec == HttpConnectionEnded, c.response == SwitchingProtocols)
  }

  /**
   Once the request has been read the events alone decide: an exchange that upgrades never sees
   the fail handler; any other does exactly if the error that its events leave behind when the
   shutdown completes is not that of an ended exchange.
   */
  lemma FailsAfterReadIff(cfg: Config, before: seq<Event>, c: Conn, run: seq<Event>)
    requires Reachable(cfg, before, c) && HttpRead(c)
    requires Exec(cfg, c, run).Some? && ShutdownDone !in run
    ensures var d, x := Exec(cfg, c, run).value, ExchangeRun(ExchangeOf(c), run);
            if x.Upgraded? then
              d.opens == 1 && d.fails == 0 && (Enabled(d, ShutdownDone) ==> Next(cfg, d, ShutdownDone).fails == 0)
            else
              (Enabled(d, ShutdownDone) <==> x.closed) &&
              (x.closed ==> (Next(cfg, d, ShutdownDone).fails == 1 <==> !x.ended))
  {
    ReachableInv(cfg, before, c);
    ExchangeTracks(cfg, c, ExchangeOf(c), run);
  }

  /** A response deferred and never sent: the exchange is terminated first, and the fail handler runs. */
  lemma DeferredExchangeFails(cfg: Config, before: seq<Event>, c: Conn, ec: Ec)
    requires Reachable(cfg, before, c) && HttpRead(c) && c.http == Deferred
    requires (if ec != NoError then ec else c.ec) != HttpConnectionEnded
    ensures var d := Next(cfg, c, TerminateCall(ec));
            Enabled(d, ShutdownDone) && Next(cfg, d, ShutdownDone).fails == 1 && Next(cfg, d, ShutdownDone).isHttp
  {
    ReachableInv(cfg, before, c);
  }

  /**
   The same from where the response has been written: the fail handler runs exactly if the
   events before the shutdown completes record another error, or send a response deferred anew,
   and none of them restores the error of an ended exchange afterwards.
   */
  lemma FailsAfterAnswerIff(cfg: Config, c: Conn, run: seq<Event>)
    requires HttpAnswered(c) && Exec(cfg, c, run).Some? && ShutdownDone !in run
    ensures var d, x := Exec(cfg, c, run).value, ExchangeRun(ExchangeOf(c), run);
            x.Plain? && Enabled(d, ShutdownDone) && (Next(cfg, d, ShutdownDone).fails == 1 <==> !x.ended)
  {
    ExchangeTracks(cfg, c, ExchangeOf(c), run);
    StaysPlain(ExchangeOf(c), run);
  }

  lemma {:induction false} StaysPlain(x: Exchange, run: seq<Event>)
    requires x.Plain? && x.closed
    ensures var y := ExchangeRun(x, run); y.Plain? && y.closed
    decreases |run|
  {
    if run != [] {
      StaysPlain(ExchangeStep(x, run[0]), run[1..]);
    }
  }

  /** If the response itself cannot be written, the fail handler runs unless the error is that of an ended exchange. */
  lemma FailedWriteIff(cfg: Config, run: seq<Event>, c: Conn, ec: Ec)
    requires Reachable(cfg, run, c) && c.state == Connecting && c.internal == ProcessHttpRequest
    requires c.isHttp && c.response != SwitchingProtocols
    ensures var d := Next(cfg, c, ResponseWritten(ec));
            Enabled(d, ShutdownDone) && (Next(cfg, d, ShutdownDone).fails == 1 <==> ec != NoError && ec != HttpConnectionEnded)
  {
    ReachableInv(cfg, run, c);
  }

  lemma LateTimeout(cfg: Config, c: Conn)
    requires HttpAnswered(c)
    ensures var d := Next(cfg, c, OpenTimeout(NoError));
            d.pending == c.pending && d.isHttp && Next(cfg, d, ShutdownDone).fails == 1 &&
            Next(cfg, d, ShutdownDone).isHttp
  {
  }

  /**
   The documentation promises that plain HTTP connections never see the fail handler. One
   does here: its response has been written, but a handshake timer that had already
   expired records a new error before the shutdown completes.
   */
  lemma HttpConnectionCanFail(cfg: Config, c0: Conn) returns (run: seq<Event>, c: Conn)
    requires Initial(c0)
    ensures Exec(cfg, c0, run) == Some(c) && c.isHttp && c.fails == 1
  {
    var answered := HttpAnswer(cfg, c0);
    var first := [Start] + ([TransportReady(NoError)] + ([PLAIN_REQUEST] + ([ResponseWritten(NoError)] + [])));
    LateTimeout(cfg, answered);
    var timedOut := Next(cfg, answered, OpenTimeout(NoError));
    c := Next(cfg, timedOut, ShutdownDone);
    assert Exec(cfg, c, []) == Some(c);
    ExecCons(cfg, timedOut, ShutdownDone, []);
    ExecCons(cfg, answered, OpenTimeout(NoError), [ShutdownDone] + []);
    run := first + ([OpenTimeout(NoError)] + ([ShutdownDone] + []));
    ExecAppend(cfg, c0, first, [OpenTimeout(NoError)] + ([ShutdownDone] + []));
  }

  // ----- senders that lose the lock between check and push ----------------------------------------

  /**
   send, ping and pong look at the state under one lock and push under another. checked
   counts senders in between, wire is everything pushed in order, and atClose is what
   checked was when the first close frame went in. conn.queued leaves out raced pushes.
   */
  datatype Race = Race(conn: Conn, wire: seq<Frame>, checked: nat, atClose: nat)

  datatype RaceEvent = Handler(e: Event) | Check | PushChecked(f: Frame)

  predicate RaceEnabled(r: Race, e: RaceEvent) {
    match e
    case Handler(h) => Enabled(r.conn, h)
    case Check => true
    case PushChecked(f) => r.checked > 0 && !f.CloseFrame?
  }

  function Appended(c: Conn, d: Conn): seq<Frame> {
    if |c.queued| <= |d.queued| then d.queued[|c.queued|..] else []
  }

  function RaceNext(cfg: Config, r: Race, e: RaceEvent): Race
    requires RaceEnabled(r, e)
  {
    match e
    case Handler(h) =>
      var d := Next(cfg, r.conn, h);
      r.(conn := d, wire := r.wire + Appended(r.conn, d),
         atClose := if !HasClose(r.conn.queued) && HasClose(d.queued) then r.checked else r.atClose)
    case Check => if r.conn.state == Open then r.(checked := r.checked + 1) else r
    case PushChecked(f) => r.(wire := r.wire + [f], checked := r.checked - 1)
  }

  function RaceExec(cfg: Config, r: Race, run: seq<RaceEvent>): Option<Race>
    decreases |run|
  {
    if run == [] then Some(r)
    else if !RaceEnabled(r, run[0]) then None
    else RaceExec(cfg, RaceNext(cfg, r, run[0]), run[1..])
  }

  /** Frames other than close frames behind the first close frame. */
  function Late(q: seq<Frame>): (n: nat) {
    if q == [] then 0
    else
      var front := q[..|q| - 1];
      Late(front) + (if HasClose(front) && !q[|q| - 1].CloseFrame? then 1 else 0)
  }

  lemma LateSnoc(q: seq<Frame>, f: Frame)
    ensures Late(q + [f]) == Late(q) + (if HasClose(q) && !f.CloseFrame? then 1 else 0)
    ensures HasClose(q + [f]) <==> HasClose(q) || f.CloseFrame?
  {
    assert (q + [f])[..|q|] == q;
    assert (q + [f])[|q|] == f;
    if HasClose(q) {
      var i :| 0 <= i < |q| && q[i].CloseFrame?;
      assert (q + [f])[i].CloseFrame?;
    }
  }

  /** Appending frames that keep close frames last makes none of them late. */
  lemma {:induction false} LateAppend(q: seq<Frame>, s: seq<Frame>)
    requires ClosesLast(s) && (HasClose(q) ==> forall i :: 0 <= i < |s| ==> s[i].CloseFrame?)
    ensures Late(q + s) == Late(q) && (HasClose(q + s) <==> HasClose(q) || HasClose(s))
  {
    if s == [] {
      assert q + s == q;
    } else {
      var front := s[..|s| - 1];
      LateAppend(q, front);
      assert q + s == q + front + [s[|s| - 1]] && s == front + [s[|s| - 1]];
      LateSnoc(q + front, s[|s| - 1]);
      LateSnoc(front, s[|s| - 1]);
    }
  }

  /** Every sender caught between check and push costs at most one late frame, and no more. */
  predicate RaceInv(r: Race) {
    && Inv(r.conn)
    && (HasClose(r.wire) <==> HasClose(r.conn.queued))
    && if HasClose(r.wire) then Late(r.wire) + r.checked == r.atClose else Late(r.wire) == 0
  }

  lemma RaceStep(cfg: Config, r: Race, e: RaceEvent)
    requires RaceInv(r) && RaceEnabled(r, e)
    ensures RaceInv(RaceNext(cfg, r, e))
  {
    match e
    case Handler(h) =>
      var d := Next(cfg, r.conn, h);
      StepInv(cfg, r.conn, h);
      AppendedFrames(r.conn.queued, d.queued);
      LateAppend(r.wire, Appended(r.conn, d));
    case Check =>
    case PushChecked(f) => LateSnoc(r.wire, f);
  }

  lemma AppendedFrames(q: seq<Frame>, d: seq<Frame>)
    requires q <= d && ClosesLast(d)
    ensures ClosesLast(d[|q|..])
    ensures HasClose(q) ==> forall i :: 0 <= i < |d[|q|..]| ==> d[|q|..][i].CloseFrame?
    ensures HasClose(d) <==> HasClose(q) || HasClose(d[|q|..])
  {
    var s := d[|q|..];
    assert forall i :: 0 <= i < |s| ==> s[i] == d[|q| + i];
    if HasClose(d) {
      var i :| 0 <= i < |d| && d[i].CloseFrame?;
      if i < |q| {
        assert q[i].CloseFrame?;
      } else {
        assert s[i - |q|].CloseFrame?;
      }
    }
  }

  lemma {:induction false} RaceExecInv(cfg: Config, r: Race, run: seq<RaceEvent>)
    requires RaceInv(r) && RaceExec(cfg, r, run).Some?
    ensures RaceInv(RaceExec(cfg, r, run).value)
    decreases |run|
  {
    if run != [] {
      RaceStep(cfg, r, run[0]);
      RaceExecInv(cfg, RaceNext(cfg, r, run[0]), run[1..]);
    }
  }

  /**
   At lock granularity a data frame can follow a close frame. Behind the close frame there
   are exactly as many as there were senders between check and push when it went in, less
   those that have yet to push: none, for good, exactly if there were no such senders.
   */
  lemma LateFramesAreTheSendersCaught(cfg: Config, start: Race, run: seq<RaceEvent>, r: Race)
    requires Initial(start.conn) && start.wire == [] && start.checked == 0
    requires RaceExec(cfg, start, run) == Some(r) && HasClose(r.wire)
    ensures Late(r.wire) + r.checked == r.atClose
    ensures r.checked > 0 ==> Late(RaceNext(cfg, r, PushChecked(DataFrame)).wire) > 0
  {
    RaceExecInv(cfg, start, run);
    LateSnoc(r.wire, DataFrame);
  }

  /** The race itself: a send checks, a close goes in, the send pushes. */
  lemma SendRacesClose(cfg: Config, r: Race)
    requires RaceInv(r) && r.conn.state == Open
    ensures var run := [Check] + ([Handler(CloseCall(false, NoError))] + ([PushChecked(DataFrame)] + []));
            var end := RaceExec(cfg, r, run);
            end.Some? && Late(end.value.wire) > 0
  {
    var r1 := RaceNext(cfg, r, Check);
    var close := Handler(CloseCall(false, NoError));
    var r2 := RaceNext(cfg, r1, close);
    RaceStep(cfg, r1, close);
    LateSnoc(r1.wire, CloseFrame(false));
    assert Appended(r1.conn, r2.conn) == [CloseFrame(false)];
    var r3 := RaceNext(cfg, r2, PushChecked(DataFrame));
    LateSnoc(r2.wire, DataFrame);
    RaceExecCons(cfg, r2, PushChecked(DataFrame), []);
    RaceExecCons(cfg, r1, close, [PushChecked(DataFrame)] + []);
    RaceExecCons(cfg, r, Check, [close] + ([PushChecked(DataFrame)] + []));
  }

  lemma RaceExecCons(cfg: Config, r: Race, e: RaceEvent, rest: seq<RaceEvent>)
    requires RaceEnabled(r, e)
    ensures RaceExec(cfg, r, [e] + rest) == RaceExec(cfg, RaceNext(cfg, r, e), rest)
  {
    assert ([e] + rest)[0] == e && ([e] + rest)[1..] == rest;
  }
}
