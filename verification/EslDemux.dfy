/**
 Replies and events on one event-socket connection (esl/esl.c): esl_send_recv puts every
 message that is no reply into race_event, and esl_recv_event takes from there first.
 esl_send_recv holds the handle's mutex from its command to its first message, and gives it up
 between two messages. It leaves its reply in last_sr_event, where the sender looks for it after
 the mutex has been given up for good.
 */
module EslDemux {
  import opened Wrappers

  /** A message from the wire: the headers that decide where it goes, and its number. */
  datatype Event = Event(id: nat, contentType: Option<string>, disposition: Option<string>, hasBody: bool)

  function Lower(s: string): string
  {
    seq(|s|, i requires 0 <= i < |s| => if 'A' <= s[i] <= 'Z' then (s[i] as int + 32) as char else s[i])
  }

  /** Without a content type a message counts as a reply. */
  predicate IsReply(e: Event) {
    e.contentType.None? || Lower(e.contentType.value) == "api/response" || Lower(e.contentType.value) == "command/reply"
  }

  /** A notice that makes a receiver give the connection up. */
  predicate EndsConnection(e: Event) {
    && e.contentType.Some? && Lower(e.contentType.value) == "text/disconnect-notice" && e.hasBody
    && (e.disposition.None? || Lower(e.disposition.value) != "linger")
  }

  /** The same character, or the same letter of the two cases. */
  predicate SameButCase(a: char, b: char) {
    a == b || ('A' <= a <= 'Z' && b as int == a as int + 32) || ('A' <= b <= 'Z' && a as int == b as int + 32)
  }

  /** strcasecmp finds no difference. */
  predicate EqualButCase(s: string, t: string) {
    |s| == |t| && forall i :: 0 <= i < |s| ==> SameButCase(s[i], t[i])
  }

  predicate NoCapitals(s: string) { forall i :: 0 <= i < |s| ==> !('A' <= s[i] <= 'Z') }

  lemma LowerIs(s: string, t: string)
    requires NoCapitals(t)
    ensures Lower(s) == t <==> EqualButCase(s, t)
  {
    if EqualButCase(s, t) {
      assert forall i :: 0 <= i < |s| ==> SameButCase(s[i], t[i]) && Lower(s)[i] == t[i];
    }
    if Lower(s) == t {
      forall i | 0 <= i < |s| ensures SameButCase(s[i], t[i]) {
        assert Lower(s)[i] == t[i];
      }
    }
  }

  /** The replies are the messages without a content type and those of two types, in any case. */
  lemma ReplyIff(e: Event)
    ensures IsReply(e) <==>
      match e.contentType
      case None => true
      case Some(ct) => EqualButCase(ct, "api/response") || EqualButCase(ct, "command/reply")
  {
    if e.contentType.Some? {
      LowerIs(e.contentType.value, "api/response");
      LowerIs(e.contentType.value, "command/reply");
      hide Lower, EqualButCase;
    }
  }

  /** What ends a connection is a disconnect notice with a body that is not disposed to linger. */
  lemma EndsConnectionIff(e: Event)
    ensures EndsConnection(e) <==>
      && e.contentType.Some? && EqualButCase(e.contentType.value, "text/disconnect-notice") && e.hasBody
      && !(e.disposition.Some? && EqualButCase(e.disposition.value, "linger"))
  {
    if e.contentType.Some? {
      LowerIs(e.contentType.value, "text/disconnect-notice");
    }
    if e.disposition.Some? {
      LowerIs(e.disposition.value, "linger");
    }
    hide Lower, EqualButCase;
  }

  const EVENT_TYPES: set<string> :=
    {"text/event-plain", "text/event-json", "text/event-xml", "log/data", "text/disconnect-notice", ""}

  /** The answers to commands, in any case, and what is none. */
  lemma ContentTypes(e: Event)
    ensures e.contentType in {None, Some("api/response"), Some("command/reply"), Some("Command/Reply")} ==> IsReply(e)
    ensures e.contentType.Some? && e.contentType.value in EVENT_TYPES ==> !IsReply(e)
  {
    ReplyIff(e);
    hide IsReply, Lower;
    if e.contentType == Some("Command/Reply") {
      assert SameButCase('C', 'c') && SameButCase('R', 'r');
      assert EqualButCase("Command/Reply", "command/reply");
    }
    if e.contentType.Some? && e.contentType.value in EVENT_TYPES {
      NotTheReplies(e.contentType.value);
    }
  }

  lemma NotTheReplies(t: string)
    requires t in EVENT_TYPES
    ensures !EqualButCase(t, "api/response") && !EqualButCase(t, "command/reply")
  {
  }

  /** A notice ends the connection but with a disposition to linger, in any case, or without a body. */
  lemma Notices(e: Event)
    requires e.contentType == Some("text/disconnect-notice")
    ensures e.hasBody && (e.disposition == None || e.disposition == Some("disconnect")) ==> EndsConnection(e)
    ensures e.disposition == Some("linger") || e.disposition == Some("Linger") || !e.hasBody ==> !EndsConnection(e)
  {
    EndsConnectionIff(e);
    hide EndsConnection, Lower;
    if e.disposition == Some("Linger") {
      assert SameButCase('L', 'l');
      assert EqualButCase("Linger", "linger");
    }
  }

  /** A message read, and whether esl_send_recv returned it as a reply. */
  datatype Entry = Entry(e: Event, returned: bool)

  /** What last_sr_event holds: a reply, and its place among all replies read. */
  datatype Reply = Reply(e: Event, place: nat)

  /** What a sender found in last_sr_event: its command, and the place of the reply there, if any. */
  datatype Answer = Answer(command: nat, reply: Option<nat>)

  /**
   The handle; who holds its mutex between two steps; the senders inside a call, and those whose
   call has returned a reply that they have yet to look at, with the number of their command; and
   what happened so far. connected stands for both tests, of the flag and of the socket.
   */
  datatype State = State(
    connected: bool,
    race: seq<Event>,
    holder: Option<nat>,
    waiting: map<nat, nat>,
    last: Option<Reply>,
    unread: map<nat, nat>,
    sent: nat,
    log: seq<Entry>,
    delivered: seq<Event>,
    answers: seq<Answer>)

  datatype Step =
    | Send(t: nat)                                  // esl_send_recv up to its first receive
    | SendFails(t: nat)                             // esl_send_recv whose send fails
    | Relock(t: nat)                                // esl_send_recv back at its receive, behind an event
    | SenderReads(t: nat, e: Event)                 // one message read by esl_send_recv
    | SenderGivesUp(t: nat, failed: bool)           // no message: a failure or the time is over
    | Fetch(t: nat)                                 // the sender looks at last_sr_event
    | Skip(t: nat)                                  // the sender goes on without looking
    | Receive(e: Event, checkQ: bool)               // esl_recv_event without save_event; e comes next on the wire
    | GoesDown                                      // a failed receive, or esl_disconnect as it closes the socket
    | Disconnect                                    // esl_disconnect once it has the mutex

  predicate Initial(s: State) {
    && s.connected && s.race == [] && s.holder == None && s.waiting == map[]
    && s.last == None && s.unread == map[] && s.sent == 0 && s.log == [] && s.delivered == [] && s.answers == []
  }

  function Replies(log: seq<Entry>): nat {
    if log == [] then 0 else Replies(log[..|log| - 1]) + if IsReply(log[|log| - 1].e) then 1 else 0
  }

  /** The messages read and not returned as replies, in the order of the wire. */
  function Kept(log: seq<Entry>): seq<Event> {
    if log == [] then []
    else Kept(log[..|log| - 1]) + if log[|log| - 1].returned then [] else [log[|log| - 1].e]
  }

  predicate MayGoOn(s: State, t: nat) {
    t in s.waiting && (s.holder.None? || s.holder.value == t)
  }

  function Deliver(s: State, e: Event): State {
    s.(delivered := s.delivered + [e], connected := !EndsConnection(e))
  }

  predicate MaySend(s: State, t: nat) { s.connected && s.holder == None && t !in s.waiting }

  function Next(s: State, step: Step): Option<State> {
    match step
    case Send(t) =>
      if !MaySend(s, t) then None
      else
        Some(s.(holder := Some(t), waiting := s.waiting[t := s.sent], last := None, unread := s.unread - {t},
                sent := s.sent + 1))
    case SendFails(t) =>
      if !MaySend(s, t) then None else Some(s.(connected := false, last := None, unread := s.unread - {t}))
    case Relock(t) =>
      if !s.connected || t !in s.waiting || s.holder.Some? then None else Some(s.(holder := Some(t), last := None))
    case SenderReads(t, e) =>
      if !s.connected || !MayGoOn(s, t) then None
      else if !IsReply(e) then
        Some(s.(holder := None, race := s.race + [e], last := None, log := s.log + [Entry(e, false)]))
      else
        Some(s.(holder := None, log := s.log + [Entry(e, true)], waiting := s.waiting - {t},
                last := Some(Reply(e, Replies(s.log))), unread := s.unread[t := s.waiting[t]]))
    case SenderGivesUp(t, failed) =>
      if !MayGoOn(s, t) then None
      else
        Some(s.(holder := None, waiting := s.waiting - {t}, last := if s.connected then None else s.last,
                connected := s.connected && !failed))
    case Fetch(t) =>
      if t !in s.unread then None
      else
        var found := if s.last.Some? then Some(s.last.value.place) else None;
        Some(s.(unread := s.unread - {t}, answers := s.answers + [Answer(s.unread[t], found)]))
    case Skip(t) => if t !in s.unread then None else Some(s.(unread := s.unread - {t}))
    case Receive(e, checkQ) =>
      if !s.connected || s.holder.Some? then None
      else if checkQ && s.race != [] then Some(Deliver(s.(race := s.race[1..]), s.race[0]))
      else Some(Deliver(s.(log := s.log + [Entry(e, false)]), e))
    case GoesDown => Some(s.(connected := false))
    case Disconnect => if s.holder.Some? then None else Some(s.(connected := false, race := [], last := None))
  }

  function Exec(s: State, run: seq<Step>): Option<State>
    decreases |run|
  {
    if run == [] then Some(s)
    else
      var p := Exec(s, run[..|run| - 1]);
      if p.None? then None else Next(p.value, run[|run| - 1])
  }

  predicate ChecksQueue(step: Step) { step.Receive? ==> step.checkQ }

  // ----- nothing lost, nothing twice, nothing out of order ------------------------------------

  lemma KeptSnoc(log: seq<Entry>, x: Entry)
    ensures Kept(log + [x]) == Kept(log) + if x.returned then [] else [x.e]
    ensures Replies(log + [x]) == Replies(log) + if IsReply(x.e) then 1 else 0
  {
    assert (log + [x])[..|log|] == log;
  }

  predicate InOrder(s: State) { Kept(s.log) == s.delivered + s.race }

  lemma StepInOrder(s: State, step: Step)
    requires InOrder(s) && Next(s, step).Some? && ChecksQueue(step) && !step.Disconnect?
    ensures InOrder(Next(s, step).value)
  {
    hide IsReply, EndsConnection, Kept, Replies;
    match step {
      case SenderReads(t, e) =>
        KeptSnoc(s.log, Entry(e, IsReply(e)));
        assert s.delivered + (s.race + [e]) == s.delivered + s.race + [e];
      case Receive(e, checkQ) =>
        KeptSnoc(s.log, Entry(e, false));
        if s.race != [] {
          assert s.race == [s.race[0]] + s.race[1..];
          assert s.delivered + [s.race[0]] + s.race[1..] == s.delivered + s.race;
        } else {
          assert s.delivered + [e] + s.race == s.delivered + s.race + [e];
        }
      case _ =>
    }
  }

  /**
   Whatever the interleaving: the messages read, without those returned as replies, are the
   messages delivered and then those in race_event, in the order of the wire.
   */
  lemma {:induction false} WireOrder(start: State, run: seq<Step>)
    requires Initial(start) && Exec(start, run).Some?
    requires forall i :: 0 <= i < |run| ==> ChecksQueue(run[i]) && !run[i].Disconnect?
    ensures InOrder(Exec(start, run).value)
    decreases |run|
  {
    if run != [] {
      WireOrder(start, run[..|run| - 1]);
      StepInOrder(Exec(start, run[..|run| - 1]).value, run[|run| - 1]);
    }
  }

  /** A receive that passes race_event by keeps the order exactly when it would not have changed it. */
  lemma UncheckedReceiveIff(s: State, e: Event)
    requires InOrder(s) && s.connected && s.holder == None && e !in s.race
    ensures InOrder(Next(s, Receive(e, false)).value) <==> s.race == []
  {
    hide IsReply, EndsConnection, Kept, Replies;
    KeptSnoc(s.log, Entry(e, false));
    var d := s.delivered;
    if s.race == [] {
      assert d + [e] + s.race == d + s.race + [e];
    } else {
      assert (d + [e] + s.race)[|d|] == e && (d + s.race + [e])[|d|] == s.race[0];
    }
  }

  // ----- what race_event holds, and what the end of a connection means --------------------------

  predicate NoReplyQueued(s: State) {
    && (forall i :: 0 <= i < |s.race| ==> !IsReply(s.race[i]))
    && (forall i :: 0 <= i < |s.log| && s.log[i].returned ==> IsReply(s.log[i].e))
    && (s.last.Some? ==> IsReply(s.last.value.e))
  }

  lemma StepNoReplyQueued(s: State, step: Step)
    requires NoReplyQueued(s) && Next(s, step).Some?
    ensures NoReplyQueued(Next(s, step).value)
  {
    hide EndsConnection, Replies, IsReply;
    match step {
      case SenderReads(t, e) =>
      case Receive(e, checkQ) =>
      case _ =>
    }
  }

  /** race_event never holds a reply, last_sr_event nothing else, and only replies are returned as such. */
  lemma {:induction false} OnlyEventsQueued(start: State, run: seq<Step>)
    requires Initial(start) && Exec(start, run).Some?
    ensures NoReplyQueued(Exec(start, run).value)
    decreases |run|
  {
    if run != [] {
      OnlyEventsQueued(start, run[..|run| - 1]);
      hide Next, NoReplyQueued;
      StepNoReplyQueued(Exec(start, run[..|run| - 1]).value, run[|run| - 1]);
    }
  }

  /**
   Once the connection is down nothing is read, delivered or returned, and no command is sent; all
   that is left is that senders look at a reply which had already been returned.
   */
  lemma {:induction false} DownStaysDown(s: State, run: seq<Step>)
    requires !s.connected && Exec(s, run).Some?
    ensures var r := Exec(s, run).value;
            !r.connected && r.log == s.log && r.delivered == s.delivered && r.sent == s.sent &&
            (r.last == s.last || r.last == None) && r.unread.Keys <= s.unread.Keys &&
            s.answers <= r.answers && |r.answers| + |r.unread| <= |s.answers| + |s.unread|
    decreases |run|
  {
    if run != [] {
      hide Next;
      DownStaysDown(s, run[..|run| - 1]);
      DownStep(Exec(s, run[..|run| - 1]).value, run[|run| - 1]);
    }
  }

  lemma DownStep(s: State, step: Step)
    requires !s.connected && Next(s, step).Some?
    ensures var r := Next(s, step).value;
            !r.connected && r.log == s.log && r.delivered == s.delivered && r.sent == s.sent &&
            (r.last == s.last || r.last == None) && r.unread.Keys <= s.unread.Keys &&
            s.answers <= r.answers && |r.answers| + |r.unread| <= |s.answers| + |s.unread|
  {
    hide IsReply, EndsConnection, Replies;
    if step.Fetch? || step.Skip? {
      if step.t in s.unread {
        OneFewer(s.unread, step.t);
      }
    }
  }

  lemma OneFewer(m: map<nat, nat>, t: nat)
    requires t in m
    ensures |m - {t}| == |m| - 1
  {
    assert (m - {t}).Keys == m.Keys - {t};
  }

  /** The queue drains in order, up to a notice that ends the connection. */
  lemma {:induction false} QueueDrains(s: State, n: nat, e: Event)
    requires s.connected && s.holder == None && n <= |s.race| && forall i :: 0 <= i < |s.race| ==> !EndsConnection(s.race[i])
    ensures Exec(s, Receives(n, e)) == Some(s.(race := s.race[n..], delivered := s.delivered + s.race[..n]))
  {
    hide EndsConnection, IsReply;
    if n > 0 {
      QueueDrains(s, n - 1, e);
      var run := Receives(n, e);
      assert run[..|run| - 1] == Receives(n - 1, e);
      assert s.race[n - 1..][1..] == s.race[n..] && s.race[..n] == s.race[..n - 1] + [s.race[n - 1]];
      assert s.delivered + s.race[..n - 1] + [s.race[n - 1]] == s.delivered + s.race[..n];
    } else {
      assert s.race[0..] == s.race && s.delivered + s.race[..0] == s.delivered;
    }
  }

  function Receives(n: nat, e: Event): seq<Step> {
    seq(n, _ => Receive(e, true))
  }

  // ----- whose reply is it --------------------------------------------------------------------

  /** What senders and receivers can tell: every sender found its own reply, and no receiver got one. */
  predicate Right(s: State) {
    && (forall i :: 0 <= i < |s.answers| ==> s.answers[i].reply == Some(s.answers[i].command))
    && (forall i :: 0 <= i < |s.delivered| ==> !IsReply(s.delivered[i]))
  }

  /**
   All is right so far, and replies and commands are in line: at most one sender is inside a call,
   its reply the next on the wire, or has a reply to look at, which is still there.
   */
  predicate Matched(s: State) {
    && Right(s)
    && (forall i :: 0 <= i < |s.race| ==> !IsReply(s.race[i]))
    && (forall t, u :: t in s.waiting && u in s.waiting ==> t == u)
    && (forall t, u :: t in s.unread && u in s.unread ==> t == u)
    && (s.waiting == map[] || s.unread == map[])
    && (s.connected ==> Replies(s.log) + |s.waiting| == s.sent)
    && (forall t :: t in s.waiting ==> s.waiting[t] + 1 == s.sent)
    && (forall t :: t in s.unread ==> s.unread[t] < s.sent && s.last.Some? && s.last.value.place == s.unread[t])
    && (s.holder.Some? ==> s.holder.value in s.waiting)
  }

  /** The step reads a message from the wire, and this one. */
  predicate Reads(s: State, step: Step, e: Event) {
    (step.SenderReads? && step.e == e) || (step.Receive? && step.e == e && !(step.checkQ && s.race != []))
  }

  /** No other sender has a reply to look at. */
  predicate OnlyOwn(s: State, t: nat) { forall u :: u in s.unread ==> u == t }

  /** One sender at a time until it has its reply, no time limit, and receivers that read no reply. */
  predicate Orderly(s: State, step: Step) {
    match step
    case Send(t) => s.waiting == map[] && OnlyOwn(s, t)
    case SendFails(t) => OnlyOwn(s, t)
    case SenderGivesUp(_, failed) => failed || !s.connected
    case Receive(e, _) => Reads(s, step, e) ==> !IsReply(e)
    case Disconnect => s.unread == map[]
    case _ => true
  }

  lemma OneLeft(m: map<nat, nat>, t: nat)
    requires t in m && forall a, b :: a in m && b in m ==> a == b
    ensures m - {t} == map[] && |m| == 1
  {
    assert m.Keys == {t};
    assert m == map[t := m[t]];
  }

  lemma SendMatchedIff(s: State, t: nat)
    requires Matched(s) && Next(s, Send(t)).Some?
    ensures Matched(Next(s, Send(t)).value) <==> Orderly(s, Send(t))
  {
    hide IsReply, EndsConnection, Replies;
    var m, n := s.waiting[t := s.sent], s.unread - {t};
    if s.waiting == map[] {
      assert m == map[t := s.sent];
      if OnlyOwn(s, t) {
        assert n == map[];
      } else {
        var u :| u in s.unread && u != t;
        assert u in n && t in m;
      }
    } else {
      var u :| u in s.waiting;
      assert u in m && t in m && u != t;
    }
  }

  lemma SendFailsMatchedIff(s: State, t: nat)
    requires Matched(s) && Next(s, SendFails(t)).Some?
    ensures Matched(Next(s, SendFails(t)).value) <==> Orderly(s, SendFails(t))
  {
    hide IsReply, EndsConnection, Replies;
    var n := s.unread - {t};
    if OnlyOwn(s, t) {
      assert n == map[];
    } else {
      var u :| u in s.unread && u != t;
      assert u in n;
    }
  }

  lemma ReadMatched(s: State, t: nat, e: Event)
    requires Matched(s) && Next(s, SenderReads(t, e)).Some?
    ensures Matched(Next(s, SenderReads(t, e)).value)
  {
    hide IsReply, EndsConnection, Replies;
    KeptSnoc(s.log, Entry(e, IsReply(e)));
    OneLeft(s.waiting, t);
    assert s.unread == map[];
  }

  lemma RelockMatched(s: State, t: nat)
    requires Matched(s) && Next(s, Relock(t)).Some?
    ensures Matched(Next(s, Relock(t)).value)
  {
    hide IsReply, EndsConnection, Replies;
  }

  lemma GiveUpMatchedIff(s: State, t: nat, failed: bool)
    requires Matched(s) && Next(s, SenderGivesUp(t, failed)).Some?
    ensures Matched(Next(s, SenderGivesUp(t, failed)).value) <==> failed || !s.connected
  {
    hide IsReply, EndsConnection, Replies;
    OneLeft(s.waiting, t);
    assert s.unread == map[];
  }

  lemma ReceiveMatchedIff(s: State, e: Event, checkQ: bool)
    requires Matched(s) && Next(s, Receive(e, checkQ)).Some?
    ensures Matched(Next(s, Receive(e, checkQ)).value) <==> ((checkQ && s.race != []) || !IsReply(e))
  {
    hide Matched, IsReply, EndsConnection, Replies;
    if checkQ && s.race != [] {
      QueuedMatched(s, e);
    } else {
      WireMatchedIff(s, e, checkQ);
    }
  }

  lemma QueuedMatched(s: State, e: Event)
    requires Matched(s) && Next(s, Receive(e, true)).Some? && s.race != []
    ensures Matched(Next(s, Receive(e, true)).value)
  {
    hide IsReply, EndsConnection, Replies;
  }

  lemma WireMatchedIff(s: State, e: Event, checkQ: bool)
    requires Matched(s) && Next(s, Receive(e, checkQ)).Some? && !(checkQ && s.race != [])
    ensures Matched(Next(s, Receive(e, checkQ)).value) <==> !IsReply(e)
  {
    KeptSnoc(s.log, Entry(e, false));
    hide IsReply, EndsConnection, Replies;
    assert Next(s, Receive(e, checkQ)).value.delivered[|s.delivered|] == e;
  }

  lemma LookMatched(s: State, step: Step)
    requires Matched(s) && Next(s, step).Some? && (step.Fetch? || step.Skip?)
    ensures Matched(Next(s, step).value)
  {
    hide IsReply, EndsConnection, Replies;
    OneLeft(s.unread, step.t);
  }

  lemma DownMatchedIff(s: State, step: Step)
    requires Matched(s) && Next(s, step).Some? && (step.GoesDown? || step.Disconnect?)
    ensures Matched(Next(s, step).value) <==> Orderly(s, step)
  {
    hide IsReply, EndsConnection, Replies;
    if s.unread != map[] {
      var t :| t in s.unread;
    }
  }

  /** A step keeps all in line exactly when it is orderly. */
  lemma StepMatchedIff(s: State, step: Step)
    requires Matched(s) && Next(s, step).Some?
    ensures Matched(Next(s, step).value) <==> Orderly(s, step)
  {
    hide Matched, Next, IsReply, EndsConnection, Replies, OnlyOwn;
    match step {
      case Send(t) =>
        SendMatchedIff(s, t);
      case SendFails(t) =>
        SendFailsMatchedIff(s, t);
      case Relock(t) =>
        RelockMatched(s, t);
      case SenderReads(t, e) =>
        ReadMatched(s, t, e);
      case SenderGivesUp(t, failed) =>
        GiveUpMatchedIff(s, t, failed);
      case Receive(e, checkQ) =>
        ReceiveMatchedIff(s, e, checkQ);
      case Fetch(_) =>
        LookMatched(s, step);
      case Skip(_) =>
        LookMatched(s, step);
      case _ =>
        DownMatchedIff(s, step);
    }
  }

  lemma InitialMatched(s: State)
    requires Initial(s)
    ensures Matched(s)
  {
    NoReplies();
  }

  predicate OrderlyRun(s: State, run: seq<Step>)
    decreases |run|
  {
    run == [] ||
    (OrderlyRun(s, run[..|run| - 1]) &&
     var p := Exec(s, run[..|run| - 1]);
     p.Some? && Orderly(p.value, run[|run| - 1]))
  }

  /** Replies and commands are in line all along a run. */
  predicate MatchedAlong(s: State, run: seq<Step>)
    requires Exec(s, run).Some?
    decreases |run|
  {
    Matched(Exec(s, run).value) && (run == [] || MatchedAlong(s, run[..|run| - 1]))
  }

  /** All stays in line along a run exactly if each step is orderly. */
  lemma {:induction false} MatchedAlongIff(start: State, run: seq<Step>)
    requires Initial(start) && Exec(start, run).Some?
    ensures MatchedAlong(start, run) <==> OrderlyRun(start, run)
    decreases |run|
  {
    if run == [] {
      InitialMatched(start);
    } else {
      MatchedAlongIff(start, run[..|run| - 1]);
      hide Matched, Orderly, Next;
      MatchedNow(start, run[..|run| - 1]);
      if Matched(Exec(start, run[..|run| - 1]).value) {
        StepMatchedIff(Exec(start, run[..|run| - 1]).value, run[|run| - 1]);
      }
    }
  }

  lemma MatchedNow(s: State, run: seq<Step>)
    requires Exec(s, run).Some?
    ensures MatchedAlong(s, run) ==> Matched(Exec(s, run).value)
  {
    hide Matched, Exec;
  }

  // ----- what a caller can see before the call ----------------------------------------------------

  /** What a thread is about to do; the message that the wire brings is not known yet. */
  datatype Call =
    | Command(t: nat) | GoOn(t: nat) | RunOut(t: nat) | Look(t: nat) | Ignore(t: nat) | TakeEvent(checkQ: bool) | Quit

  predicate IsStepOf(call: Call, step: Step) {
    match call
    case Command(t) => step == Send(t) || step == SendFails(t)
    case GoOn(t) => step == Relock(t) || (step.SenderReads? && step.t == t) || step == SenderGivesUp(t, true)
    case RunOut(t) => step == SenderGivesUp(t, false)
    case Look(t) => step == Fetch(t)
    case Ignore(t) => step == Skip(t)
    case TakeEvent(checkQ) => step.Receive? && step.checkQ == checkQ
    case Quit => step == Disconnect
  }

  /** The call can be made in this state. */
  predicate Possible(s: State, call: Call) {
    match call
    case Command(t) => MaySend(s, t)
    case GoOn(t) => MayGoOn(s, t)
    case RunOut(t) => MayGoOn(s, t)
    case Look(t) => t in s.unread
    case Ignore(t) => t in s.unread
    case TakeEvent(_) => s.connected && s.holder == None
    case Quit => s.holder == None
  }

  /**
   A command only while no other is out and no other sender has a reply to look at; a receive
   from the wire only while no command is out; no time limit; no disconnect before a reply has
   been looked at.
   */
  predicate Guarded(s: State, call: Call) {
    match call
    case Command(t) => s.waiting == map[] && OnlyOwn(s, t)
    case RunOut(_) => !s.connected
    case TakeEvent(checkQ) => s.waiting == map[] || (checkQ && s.race != [])
    case Quit => s.unread == map[]
    case _ => true
  }

  /** The server sends no more replies than it got commands. */
  ghost predicate ServerAnswers(s: State, step: Step) {
    forall e :: Reads(s, step, e) && IsReply(e) ==> Replies(s.log) < s.sent
  }

  /** A step of a guarded call, or the end of the connection. */
  ghost predicate GuardedStep(s: State, step: Step) {
    step.GoesDown? || exists call :: IsStepOf(call, step) && Guarded(s, call)
  }

  /** All callers keep to the guard, and the server answers commands only. */
  ghost predicate GuardedRun(s: State, run: seq<Step>)
    decreases |run|
  {
    run == [] ||
    (GuardedRun(s, run[..|run| - 1]) &&
     var p := Exec(s, run[..|run| - 1]);
     p.Some? && ServerAnswers(p.value, run[|run| - 1]) && GuardedStep(p.value, run[|run| - 1]))
  }

  /** Behind this step, callers that keep to the guard can still get wrong what they look for. */
  ghost predicate GoesWrong(s: State, step: Step, more: seq<Step>) {
    && Next(s, step).Some? && ServerAnswers(s, step)
    && var d := Next(s, step).value;
       Exec(d, more).Some? && GuardedRun(d, more) && !Right(Exec(d, more).value)
  }

  /** The call can make a sender miss its reply or a receiver get one, however careful all others are. */
  ghost predicate Harmful(s: State, call: Call) {
    exists step, more :: IsStepOf(call, step) && GoesWrong(s, step, more)
  }

  const REPLY := Event(0, None, None, false)

  lemma NextReply(s: State)
    requires Matched(s) && s.connected
    ensures Replies(s.log) < s.sent <==> s.waiting != map[]
    ensures Replies(s.log) <= s.sent
  {
    hide Replies;
    if s.waiting != map[] {
      var t :| t in s.waiting;
      OneLeft(s.waiting, t);
    }
  }

  lemma GuardedStepMatches(s: State, step: Step)
    requires Matched(s) && Next(s, step).Some? && ServerAnswers(s, step) && GuardedStep(s, step)
    ensures Matched(Next(s, step).value)
  {
    hide Matched, Next, IsReply, Replies;
    StepMatchedIff(s, step);
    if step.Receive? {
      ReceiveEnabled(s, step);
      NextReply(s);
      assert Reads(s, step, step.e) && IsReply(step.e) ==> Replies(s.log) < s.sent;
    }
  }

  lemma ReceiveEnabled(s: State, step: Step)
    requires Next(s, step).Some? && step.Receive?
    ensures s.connected
  {
  }

  lemma {:induction false} GuardedRunMatches(s: State, run: seq<Step>)
    requires Matched(s) && Exec(s, run).Some? && GuardedRun(s, run)
    ensures Matched(Exec(s, run).value)
    decreases |run|
  {
    if run != [] {
      GuardedRunMatches(s, run[..|run| - 1]);
      hide Matched, Next, GuardedStep, ServerAnswers;
      GuardedStepMatches(Exec(s, run[..|run| - 1]).value, run[|run| - 1]);
    }
  }

  /** Callers that keep to the guard find their own replies, whatever the server sends. */
  lemma GuardedRunsAreRight(start: State, run: seq<Step>)
    requires Initial(start) && Exec(start, run).Some? && GuardedRun(start, run)
    ensures Right(Exec(start, run).value)
  {
    InitialMatched(start);
    GuardedRunMatches(start, run);
  }

  lemma GuardedIsHarmless(s: State, call: Call)
    requires Matched(s) && Guarded(s, call)
    ensures !Harmful(s, call)
  {
    if Harmful(s, call) {
      var step, more :| IsStepOf(call, step) && GoesWrong(s, step, more);
      assert GuardedStep(s, step);
      GuardedStepMatches(s, step);
      GuardedRunMatches(Next(s, step).value, more);
    }
  }

  /**
   A single run can come out right all the same: here a second command goes out in the gap of the
   first, and both replies arrive in turn.
   */
  lemma RightAnyway(start: State, event: Event, reply: Event)
    requires Initial(start) && !IsReply(event) && IsReply(reply)
    ensures var first := [Send(0), SenderReads(0, event), Send(1), SenderReads(1, event)];
            var run := first + [SenderReads(0, reply), Fetch(0), SenderReads(1, reply), Fetch(1)];
            Exec(start, run).Some? && Right(Exec(start, run).value) && !GuardedRun(start, run) &&
            Exec(start, run).value.answers == [Answer(0, Some(0)), Answer(1, Some(1))]
  {
    hide *;
    var s1, s2, s3, s4 := TwoInTheGap(start, event);
    var s5, s6, s7, s8 := BothReplies(s4, reply);
    var r1 := [Send(0)];
    var r2 := r1 + [SenderReads(0, event)];
    var r3 := r2 + [Send(1)];
    var r4 := r3 + [SenderReads(1, event)];
    var r5 := r4 + [SenderReads(0, reply)];
    var r6 := r5 + [Fetch(0)];
    var r7 := r6 + [SenderReads(1, reply)];
    var r8 := r7 + [Fetch(1)];
    OneMore(start, Send(0));
    AndOneMore(start, r1, SenderReads(0, event));
    AndOneMore(start, r2, Send(1));
    AndOneMore(start, r3, SenderReads(1, event));
    AndOneMore(start, r4, SenderReads(0, reply));
    AndOneMore(start, r5, Fetch(0));
    AndOneMore(start, r6, SenderReads(1, reply));
    AndOneMore(start, r7, Fetch(1));
    assert r8 == [Send(0), SenderReads(0, event), Send(1), SenderReads(1, event)] +
                 [SenderReads(0, reply), Fetch(0), SenderReads(1, reply), Fetch(1)];
  }

  lemma TwoInTheGap(s: State, event: Event) returns (s1: State, s2: State, s3: State, s4: State)
    requires Initial(s) && !IsReply(event)
    ensures Next(s, Send(0)) == Some(s1) && Next(s1, SenderReads(0, event)) == Some(s2)
    ensures Next(s2, Send(1)) == Some(s3) && Next(s3, SenderReads(1, event)) == Some(s4)
    ensures !GuardedStep(s2, Send(1))
    ensures s4.connected && s4.holder == None && s4.waiting == map[0 := 0, 1 := 1] && s4.unread == map[] && s4.sent == 2
    ensures Replies(s4.log) == 0 && s4.delivered == [] && s4.answers == []
  {
    s1 := Next(s, Send(0)).value;
    s2 := Next(s1, SenderReads(0, event)).value;
    s3 := Next(s2, Send(1)).value;
    s4 := Next(s3, SenderReads(1, event)).value;
    NoReplies();
    KeptSnoc(s1.log, Entry(event, false));
    KeptSnoc(s3.log, Entry(event, false));
    hide IsReply, EndsConnection, Replies;
    assert 0 in s2.waiting;
  }

  lemma BothReplies(s: State, reply: Event) returns (s1: State, s2: State, s3: State, s4: State)
    requires s.connected && s.holder == None && s.waiting == map[0 := 0, 1 := 1] && s.unread == map[] && IsReply(reply)
    requires Replies(s.log) == 0 && s.delivered == [] && s.answers == []
    ensures Next(s, SenderReads(0, reply)) == Some(s1) && Next(s1, Fetch(0)) == Some(s2)
    ensures Next(s2, SenderReads(1, reply)) == Some(s3) && Next(s3, Fetch(1)) == Some(s4)
    ensures Right(s4) && s4.answers == [Answer(0, Some(0)), Answer(1, Some(1))]
  {
    hide Next, IsReply, EndsConnection, Replies;
    s1, s2 := ReadAndLook(s, 0, reply);
    assert s.waiting - {0} == map[1 := 1] && s2.unread == map[];
    s3, s4 := ReadAndLook(s2, 1, reply);
    KeptSnoc(s.log, Entry(reply, true));
  }

  lemma ReadAndLook(s: State, t: nat, reply: Event) returns (r: State, l: State)
    requires s.connected && MayGoOn(s, t) && IsReply(reply) && s.unread == map[]
    ensures Next(s, SenderReads(t, reply)) == Some(r) && Next(r, Fetch(t)) == Some(l)
    ensures l == s.(holder := None, log := s.log + [Entry(reply, true)], waiting := s.waiting - {t}, unread := map[],
                    last := Some(Reply(reply, Replies(s.log))),
                    answers := s.answers + [Answer(s.waiting[t], Some(Replies(s.log)))])
  {
    hide IsReply, EndsConnection, Replies;
    r := Next(s, SenderReads(t, reply)).value;
    l := Next(r, Fetch(t)).value;
    assert map[t := s.waiting[t]] - {t} == map[];
  }

  // ----- what goes wrong without the guard ----------------------------------------------------------

  lemma OneMore(s: State, x: Step)
    requires Next(s, x).Some?
    ensures Exec(s, [x]) == Next(s, x)
    ensures ServerAnswers(s, x) && GuardedStep(s, x) ==> GuardedRun(s, [x])
  {
    hide Next, ServerAnswers, GuardedStep;
    assert [x][..0] == [] && Exec(s, []) == Some(s) && GuardedRun(s, []);
  }

  lemma AndOneMore(s: State, run: seq<Step>, x: Step)
    requires Exec(s, run).Some?
    ensures Exec(s, run + [x]) == Next(Exec(s, run).value, x)
    ensures GuardedRun(s, run + [x]) <==>
      GuardedRun(s, run) && ServerAnswers(Exec(s, run).value, x) && GuardedStep(Exec(s, run).value, x)
  {
    hide Next, ServerAnswers, GuardedStep;
    assert (run + [x])[..|run|] == run;
  }

  /** A guarded step of a sender that reads a reply to which the server is entitled. */
  lemma SenderStep(s: State, t: nat, e: Event)
    requires Replies(s.log) < s.sent
    ensures GuardedStep(s, SenderReads(t, e)) && ServerAnswers(s, SenderReads(t, e))
  {
    assert IsStepOf(GoOn(t), SenderReads(t, e)) && Guarded(s, GoOn(t));
  }

  /** A step that reads nothing from the wire. */
  lemma QuietStep(s: State, step: Step, call: Call)
    requires !step.SenderReads? && !step.Receive? && IsStepOf(call, step)
    ensures ServerAnswers(s, step)
    ensures Guarded(s, call) ==> GuardedStep(s, step)
  {
  }

  /** With a command out, another sender finds the reply of the one that waits. */
  lemma AnotherSenderTakes(s: State, t: nat, u: nat, reply: Event)
    requires Matched(s) && MaySend(s, u) && t in s.waiting && IsReply(reply)
    ensures var d := Next(s, Send(u));
            d.Some? && var r := Exec(d.value, [SenderReads(u, reply), Fetch(u)]);
            r.Some? && t in r.value.waiting && r.value.answers == s.answers + [Answer(s.sent, Some(s.waiting[t]))] &&
            s.waiting[t] != s.sent
    ensures GoesWrong(s, Send(u), [SenderReads(u, reply), Fetch(u)])
  {
    OneLeft(s.waiting, t);
    QuietStep(s, Send(u), Command(u));
    var d := Next(s, Send(u)).value;
    SenderStep(d, u, reply);
    ReadThenLook(d, u, u, reply);
    var r := Exec(d, [SenderReads(u, reply), Fetch(u)]).value;
    WrongAnswer(r, s.answers, Answer(s.sent, Some(s.waiting[t])));
  }

  /** One sender reads its reply, and one looks at last_sr_event. */
  lemma ReadThenLook(s: State, u: nat, t: nat, reply: Event)
    requires s.connected && MayGoOn(s, u) && IsReply(reply) && (t == u || t in s.unread) && Replies(s.log) < s.sent
    ensures var r := Exec(s, [SenderReads(u, reply), Fetch(t)]);
            r.Some? && r.value.waiting == s.waiting - {u} &&
            r.value.answers == s.answers + [Answer(if t == u then s.waiting[u] else s.unread[t], Some(Replies(s.log)))]
    ensures GuardedRun(s, [SenderReads(u, reply), Fetch(t)])
  {
    hide IsReply, Replies, GuardedRun, Exec;
    SenderStep(s, u, reply);
    OneMore(s, SenderReads(u, reply));
    var d := Next(s, SenderReads(u, reply)).value;
    QuietStep(d, Fetch(t), Look(t));
    AndOneMore(s, [SenderReads(u, reply)], Fetch(t));
    assert [SenderReads(u, reply)] + [Fetch(t)] == [SenderReads(u, reply), Fetch(t)];
  }

  lemma WrongAnswer(s: State, before: seq<Answer>, x: Answer)
    requires s.answers == before + [x] && x.reply != Some(x.command)
    ensures !Right(s)
  {
    assert s.answers[|before|] == x;
  }

  /**
   Without any event and without any gap: a call has returned, another runs, and the first
   sender finds the reply of the second.
   */
  lemma ReplyOverwritten(s: State, t: nat, u: nat, reply: Event)
    requires Matched(s) && MaySend(s, u) && t in s.unread && t != u && IsReply(reply)
    ensures var d := Next(s, Send(u));
            d.Some? && var r := Exec(d.value, [SenderReads(u, reply), Fetch(t)]);
            r.Some? && r.value.answers == s.answers + [Answer(s.unread[t], Some(s.sent))] && s.unread[t] < s.sent
    ensures GoesWrong(s, Send(u), [SenderReads(u, reply), Fetch(t)])
  {
    hide IsReply, EndsConnection, Replies, Right, GuardedRun, Exec;
    assert s.waiting == map[];
    NextReply(s);
    QuietStep(s, Send(u), Command(u));
    var d := Next(s, Send(u)).value;
    assert t in d.unread && |s.waiting| == 0;
    ReadThenLook(d, u, t, reply);
    var r := Exec(d, [SenderReads(u, reply), Fetch(t)]).value;
    WrongAnswer(r, s.answers, Answer(s.unread[t], Some(s.sent)));
  }

  /** After a time limit the next command is answered with the reply that came too late. */
  lemma LateReply(s: State, t: nat, u: nat, reply: Event)
    requires Matched(s) && s.connected && MayGoOn(s, t) && IsReply(reply)
    ensures var d := Next(s, SenderGivesUp(t, false));
            d.Some? && var r := Exec(d.value, [Send(u), SenderReads(u, reply), Fetch(u)]);
            r.Some? && r.value.answers == s.answers + [Answer(s.sent, Some(s.waiting[t]))] && s.waiting[t] != s.sent
    ensures GoesWrong(s, SenderGivesUp(t, false), [Send(u), SenderReads(u, reply), Fetch(u)])
  {
    hide IsReply, EndsConnection, Replies, Right, GuardedRun, Exec;
    OneLeft(s.waiting, t);
    assert s.unread == map[];
    QuietStep(s, SenderGivesUp(t, false), RunOut(t));
    var d := Next(s, SenderGivesUp(t, false)).value;
    QuietStep(d, Send(u), Command(u));
    assert Guarded(d, Command(u)) && MaySend(d, u);
    OneMore(d, Send(u));
    var e := Next(d, Send(u)).value;
    ReadThenLook(e, u, u, reply);
    Joined(d, [Send(u)], e, SenderReads(u, reply), Fetch(u));
    assert [Send(u)] + [SenderReads(u, reply), Fetch(u)] == [Send(u), SenderReads(u, reply), Fetch(u)];
    var r := Exec(e, [SenderReads(u, reply), Fetch(u)]).value;
    WrongAnswer(r, s.answers, Answer(s.sent, Some(s.waiting[t])));
  }

  /** A run and two more steps. */
  lemma Joined(s: State, run: seq<Step>, d: State, x: Step, y: Step)
    requires Exec(s, run) == Some(d) && GuardedRun(s, run) && Exec(d, [x, y]).Some? && GuardedRun(d, [x, y])
    ensures Exec(s, run + [x, y]) == Exec(d, [x, y]) && GuardedRun(s, run + [x, y])
  {
    assert [x, y] == [x] + [y] && run + [x, y] == run + [x] + [y] && [] + [x] == [x];
    assert [x, y][..1] == [x] && [x][..0] == [];
    hide Next, ServerAnswers, GuardedStep;
    AndOneMore(d, [], x);
    AndOneMore(d, [x], y);
    AndOneMore(s, run, x);
    AndOneMore(s, run + [x], y);
  }

  /** With a command out, a receiver can be given its reply. */
  lemma ReceiverTakes(s: State, t: nat, reply: Event, checkQ: bool)
    requires Matched(s) && s.connected && s.holder == None && t in s.waiting && IsReply(reply) && !(checkQ && s.race != [])
    ensures var r := Next(s, Receive(reply, checkQ));
            r.Some? && t in r.value.waiting && r.value.delivered == s.delivered + [reply] &&
            Replies(r.value.log) == s.waiting[t] + 1
    ensures GoesWrong(s, Receive(reply, checkQ), [])
  {
    OneLeft(s.waiting, t);
    NextReply(s);
    KeptSnoc(s.log, Entry(reply, false));
    var d := Next(s, Receive(reply, checkQ)).value;
    assert d.delivered[|s.delivered|] == reply;
    assert ServerAnswers(s, Receive(reply, checkQ));
    assert Exec(d, []) == Some(d) && GuardedRun(d, []);
  }

  /** Receivers that check the queue get there, too, once they have emptied race_event. */
  lemma ReceiversTake(s: State, t: nat, reply: Event)
    requires Matched(s) && s.connected && s.holder == None && t in s.waiting && IsReply(reply)
    requires forall i :: 0 <= i < |s.race| ==> !EndsConnection(s.race[i])
    ensures var r := Exec(s, Receives(|s.race|, reply) + [Receive(reply, true)]);
            r.Some? && t in r.value.waiting && r.value.answers == s.answers &&
            r.value.delivered == s.delivered + s.race + [reply] && Replies(r.value.log) == s.waiting[t] + 1
  {
    OneLeft(s.waiting, t);
    QueueDrains(s, |s.race|, reply);
    KeptSnoc(s.log, Entry(reply, false));
    hide IsReply, EndsConnection, Replies;
    assert s.race[|s.race|..] == [] && s.race[..|s.race|] == s.race;
    var run := Receives(|s.race|, reply);
    assert (run + [Receive(reply, true)])[..|run|] == run;
  }

  /** A step that leaves last_sr_event empty before its reply has been looked at. */
  lemma ReplyDestroyed(s: State, step: Step, call: Call, t: nat)
    requires Matched(s) && t in s.unread && Next(s, step).Some? && IsStepOf(call, step)
    requires step == Disconnect || ((step.Send? || step.SendFails?) && step.t != t)
    ensures var r := Exec(Next(s, step).value, [Fetch(t)]);
            r.Some? && r.value.answers == s.answers + [Answer(s.unread[t], None)]
    ensures GoesWrong(s, step, [Fetch(t)])
  {
    QuietStep(s, step, call);
    var d := Next(s, step).value;
    assert t in d.unread && d.last == None;
    QuietStep(d, Fetch(t), Look(t));
    OneMore(d, Fetch(t));
    WrongAnswer(Next(d, Fetch(t)).value, s.answers, Answer(s.unread[t], None));
  }

  lemma UnguardedIsHarmful(s: State, call: Call)
    requires Matched(s) && Possible(s, call) && !Guarded(s, call)
    ensures Harmful(s, call)
  {
    hide Matched, GoesWrong, Next;
    match call {
      case Command(u) =>
        if s.waiting != map[] {
          var t :| t in s.waiting;
          AnotherSenderTakes(s, t, u, REPLY);
          assert IsStepOf(call, Send(u));
        } else {
          var t :| t in s.unread && t != u;
          ReplyOverwritten(s, t, u, REPLY);
          assert IsStepOf(call, Send(u));
        }
      case RunOut(t) =>
        LateReply(s, t, t, REPLY);
        assert IsStepOf(call, SenderGivesUp(t, false));
      case TakeEvent(checkQ) =>
        var t :| t in s.waiting;
        ReceiverTakes(s, t, REPLY, checkQ);
        assert IsStepOf(call, Receive(REPLY, checkQ));
      case Quit =>
        var t :| t in s.unread;
        QuitEnabled(s);
        ReplyDestroyed(s, Disconnect, Quit, t);
        assert IsStepOf(call, Disconnect);
    }
  }

  lemma QuitEnabled(s: State)
    requires s.holder == None
    ensures Next(s, Disconnect).Some?
  {
  }

  /**
   A call is guarded, which a caller can see before it, if and only if no continuation in which
   all others keep to the guard and the server answers commands only goes wrong.
   */
  lemma SafeIff(s: State, call: Call)
    requires Matched(s) && Possible(s, call)
    ensures Guarded(s, call) <==> !Harmful(s, call)
  {
    hide *;
    if Guarded(s, call) {
      GuardedIsHarmless(s, call);
    } else {
      UnguardedIsHarmful(s, call);
    }
  }

  /** A sender has given the mutex up behind an event, and its reply is still to come. */
  predicate Gap(s: State) { s.holder == None && s.waiting != map[] }

  /**
   Short of a time limit, some call can do harm exactly in a gap and while a reply has yet to
   be looked at; with a time limit, exactly while a command is out or a reply not looked at.
   */
  lemma AstrayIff(s: State)
    requires Matched(s) && s.connected
    ensures (exists call :: Possible(s, call) && !call.RunOut? && Harmful(s, call)) <==> Gap(s) || s.unread != map[]
    ensures (exists call :: Possible(s, call) && Harmful(s, call)) <==> s.waiting != map[] || s.unread != map[]
  {
    forall call | Possible(s, call) ensures Guarded(s, call) <==> !Harmful(s, call) {
      SafeIff(s, call);
    }
    if s.waiting != map[] {
      var t :| t in s.waiting;
      HolderIs(s, t);
      assert Possible(s, RunOut(t)) && !Guarded(s, RunOut(t));
      if Gap(s) {
        assert Possible(s, TakeEvent(false)) && !Guarded(s, TakeEvent(false)) && !TakeEvent(false).RunOut?;
      }
    }
    if s.unread != map[] {
      assert s.holder == None;
      assert Possible(s, Quit) && !Guarded(s, Quit) && !Quit.RunOut?;
    }
    hide Harmful, Matched;
    assert forall call :: Possible(s, call) && !call.RunOut? && !Guarded(s, call) ==> Gap(s) || s.unread != map[];
  }

  lemma HolderIs(s: State, t: nat)
    requires Matched(s) && t in s.waiting
    ensures MayGoOn(s, t)
  {
  }

  /** That begins exactly where a sender reads: an event opens a gap, a reply is there to be looked at. */
  lemma GapOpensIff(s: State, step: Step)
    requires Matched(s) && s.connected && !Gap(s) && s.unread == map[] && Next(s, step).Some? && Orderly(s, step)
    ensures Gap(Next(s, step).value) <==> step.SenderReads? && !IsReply(step.e)
    ensures Next(s, step).value.unread != map[] <==> step.SenderReads? && IsReply(step.e)
  {
    hide IsReply, EndsConnection, Replies;
    if step.SenderReads? || step.SenderGivesUp? {
      OneLeft(s.waiting, step.t);
    }
    if step.SenderReads? {
      assert step.t in s.unread[step.t := s.waiting[step.t]];
    }
  }

  /** Gaps come about: a command, and an event before its reply. */
  lemma GapReached(start: State, event: Event)
    requires Initial(start) && !IsReply(event)
    ensures var r := Exec(start, [Send(0), SenderReads(0, event)]);
            r.Some? && r.value.connected && Matched(r.value) && Gap(r.value)
  {
    SentAndRead(start, event);
    hide IsReply, EndsConnection, Replies, Matched, Exec;
  }

  /** And so do replies that have yet to be looked at: a command and its reply. */
  lemma UnreadReached(start: State, reply: Event)
    requires Initial(start) && IsReply(reply)
    ensures var r := Exec(start, [Send(0), SenderReads(0, reply)]);
            r.Some? && Matched(r.value) && MaySend(r.value, 1) && 0 in r.value.unread
  {
    SentAndRead(start, reply);
    hide IsReply, EndsConnection, Replies, Matched, Exec;
  }

  lemma SentAndRead(start: State, e: Event)
    requires Initial(start)
    ensures var d, r := start.(holder := Some(0), waiting := map[0 := 0], sent := 1),
                        Exec(start, [Send(0), SenderReads(0, e)]);
            r == Next(d, SenderReads(0, e)) && r.Some? && Matched(r.value)
  {
    var d := start.(holder := Some(0), waiting := map[0 := 0], sent := 1);
    FirstSend(start);
    InitialMatched(start);
    hide IsReply, EndsConnection, Replies, Next, Matched, Initial;
    OneMore(start, Send(0));
    AndOneMore(start, [Send(0)], SenderReads(0, e));
    assert [Send(0)] + [SenderReads(0, e)] == [Send(0), SenderReads(0, e)];
    SendMatchedIff(start, 0);
    ReadMatched(d, 0, e);
  }

  lemma FirstSend(start: State)
    requires Initial(start)
    ensures var d := start.(holder := Some(0), waiting := map[0 := 0], sent := 1);
            Next(start, Send(0)) == Some(d) && Orderly(start, Send(0))
    ensures forall e :: Next(start.(holder := Some(0), waiting := map[0 := 0], sent := 1), SenderReads(0, e)).Some?
  {
    assert map[][0 := 0] == map[0 := 0] && (start.unread - {0}) == start.unread;
    hide IsReply, EndsConnection, Replies;
  }

  lemma NoReplies()
    ensures Replies([]) == 0
  {
  }

  // ----- the handle ---------------------------------------------------------------------------

  datatype Status = SUCCESS | FAIL | BREAK

  class Handle {
    var connected: bool
    var raceEvent: seq<Event>
    var lastEvent: Option<Event>
    var lastSrEvent: Option<Event>
    ghost var state: State

    ghost predicate Valid()
      reads this
    {
      && state.connected == connected && state.race == raceEvent
      && lastSrEvent == (if state.last.Some? then Some(state.last.value.e) else None)
    }

    constructor ()
      ensures Valid() && Initial(state)
    {
      connected, raceEvent, lastEvent, lastSrEvent := true, [], None, None;
      state := State(true, [], None, map[], None, map[], 0, [], [], []);
    }

    /**
     esl_recv_event without save_event: incoming is the message that comes next on the wire, or
     None when reading fails.
     */
    method RecvEvent(checkQ: bool, incoming: Option<Event>) returns (status: Status)
      requires Valid() && state.holder == None
      modifies this
      ensures Valid() && lastSrEvent == old(lastSrEvent)
      ensures
        if !old(connected) then state == old(state) && status == FAIL && lastEvent == old(lastEvent)
        else if incoming.None? && !(checkQ && old(raceEvent) != []) then
          Next(old(state), GoesDown) == Some(state) && status == FAIL
        else
          exists e :: (incoming == Some(e) || (checkQ && old(raceEvent) != [])) &&
            Next(old(state), Receive(e, checkQ)) == Some(state) &&
            lastEvent == Some(state.delivered[|state.delivered| - 1]) && (status == FAIL <==> !connected)
    {
      if !connected {
        return FAIL;
      }
      var revent: Event;
      ghost var e;
      if checkQ && raceEvent != [] {
        revent := raceEvent[0];
        raceEvent := raceEvent[1..];
        e := if incoming.Some? then incoming.value else revent;
      } else {
        if incoming.None? {
          connected := false;
          state := Next(state, GoesDown).value;
          return FAIL;
        }
        revent := incoming.value;
        e := revent;
      }
      state := Next(state, Receive(e, checkQ)).value;
      lastEvent := Some(revent);
      if EndsConnection(revent) {
        connected := false;
        return FAIL;
      }
      return SUCCESS;
    }

    /** esl_send_recv up to its first receive; sends says whether the socket takes the command. */
    method Begin(t: nat, sends: bool) returns (status: Status)
      requires Valid() && state.holder == None && t !in state.waiting
      modifies this
      ensures Valid() && raceEvent == old(raceEvent) && lastEvent == old(lastEvent)
      ensures
        if !old(connected) then state == old(state) && status == FAIL
        else if sends then Next(old(state), Send(t)) == Some(state) && status == SUCCESS
        else Next(old(state), SendFails(t)) == Some(state) && status == FAIL
    {
      if !connected {
        return FAIL;
      }
      lastSrEvent := None;
      if !sends {
        connected := false;
        state := Next(state, SendFails(t)).value;
        return FAIL;
      }
      state := Next(state, Send(t)).value;
      return SUCCESS;
    }

    /**
     One round of esl_send_recv at the label recv. With a save_event to fill, esl_recv_event
     does not look at what it read: no notice ends the connection here.
     */
    method Round(t: nat, incoming: Option<Event>, timedOut: bool) returns (again: bool, status: Status)
      requires Valid() && MayGoOn(state, t)
      modifies this
      ensures Valid() && lastEvent == old(lastEvent)
      ensures
        if !old(connected) then
          !again && status == FAIL && Next(old(state), SenderGivesUp(t, true)) == Some(state)
        else if incoming.Some? then
          Next(old(state), SenderReads(t, incoming.value)) == Some(state) && again == !IsReply(incoming.value) &&
          (!again ==> status == SUCCESS && lastSrEvent == incoming)
        else
          !again && Next(old(state), SenderGivesUp(t, !timedOut)) == Some(state) &&
          status == if timedOut then BREAK else FAIL
    {
      if !connected {
        state := Next(state, SenderGivesUp(t, true)).value;
        return false, FAIL;
      }
      lastSrEvent := incoming;
      if incoming.None? {
        state := Next(state, SenderGivesUp(t, !timedOut)).value;
        connected := connected && timedOut;
        return false, if timedOut then BREAK else FAIL;
      }
      var e := incoming.value;
      state := Next(state, SenderReads(t, e)).value;
      if e.contentType.Some? && Lower(e.contentType.value) != "api/response" && Lower(e.contentType.value) != "command/reply" {
        raceEvent := raceEvent + [e];
        lastSrEvent := None;
        return true, SUCCESS;
      }
      return false, SUCCESS;
    }

    /** A caller looks at last_sr_event after its call has returned a reply. */
    method Look(t: nat) returns (reply: Option<Event>)
      requires Valid() && t in state.unread
      modifies this`state
      ensures Valid() && Next(old(state), Fetch(t)) == Some(state)
      ensures reply == lastSrEvent
      ensures reply == if old(state).last.Some? then Some(old(state).last.value.e) else None
    {
      state := Next(state, Fetch(t)).value;
      reply := lastSrEvent;
    }

    /** esl_disconnect */
    method Close()
      requires Valid() && state.holder == None
      modifies this
      ensures Valid() && !connected && lastEvent == None
      ensures Exec(old(state), [GoesDown, Disconnect]) == Some(state)
    {
      assert [GoesDown, Disconnect][..1] == [GoesDown] && [GoesDown][..0] == [];
      connected, raceEvent, lastEvent, lastSrEvent := false, [], None, None;
      state := Next(Next(state, GoesDown).value, Disconnect).value;
    }

    /**
     esl_send_recv with nobody else at the handle and a wire that fails behind its last message:
     the first reply is returned, and what came before it is queued.
     */
    method SendRecv(t: nat, wire: seq<Event>) returns (status: Status, read: nat)
      requires Valid() && state.holder == None && connected && t !in state.waiting
      modifies this
      ensures Valid() && read <= |wire|
      ensures forall i :: 0 <= i < read && (status == SUCCESS ==> i < read - 1) ==> !IsReply(wire[i])
      ensures status == SUCCESS ==>
          0 < read && IsReply(wire[read - 1]) && lastSrEvent == Some(wire[read - 1]) &&
          raceEvent == old(raceEvent) + wire[..read - 1] && connected
      ensures status != SUCCESS ==> read == |wire| && raceEvent == old(raceEvent) + wire && !connected
      ensures status == SUCCESS <==> exists i :: 0 <= i < |wire| && IsReply(wire[i])
    {
      status := Begin(t, true);
      read := 0;
      var again := true;
      while again
        invariant Valid() && read <= |wire| && (again ==> connected && MayGoOn(state, t))
        invariant again ==> raceEvent == old(raceEvent) + wire[..read] && forall i :: 0 <= i < read ==> !IsReply(wire[i])
        invariant !again && status == SUCCESS ==>
            0 < read && IsReply(wire[read - 1]) && lastSrEvent == Some(wire[read - 1]) && connected &&
            raceEvent == old(raceEvent) + wire[..read - 1] && forall i :: 0 <= i < read - 1 ==> !IsReply(wire[i])
        invariant !again && status != SUCCESS ==>
            read == |wire| && raceEvent == old(raceEvent) + wire && !connected && forall i :: 0 <= i < read ==> !IsReply(wire[i])
        decreases if again then 1 + |wire| - read else 0
      {
        hide IsReply, Lower;
        if read < |wire| {
          again, status := Round(t, Some(wire[read]), false);
          assert wire[..read + 1] == wire[..read] + [wire[read]];
          read := read + 1;
        } else {
          assert wire[..read] == wire;
          again, status := Round(t, None, false);
        }
      }
    }

    /** A command answered with command/reply behind events: that is what the sender finds, and the events are queued. */
    method Command(t: nat, events: seq<Event>, reply: Event) returns (found: Option<Event>)
      requires Valid() && state.holder == None && connected && t !in state.waiting
      requires reply.contentType == Some("command/reply")
      requires forall i :: 0 <= i < |events| ==> events[i].contentType == Some("text/event-plain")
      modifies this
      ensures Valid() && connected && found == Some(reply) && raceEvent == old(raceEvent) + events
    {
      hide IsReply, Lower;
      ghost var wire := events + [reply];
      ContentTypes(reply);
      forall i | 0 <= i < |events| ensures !IsReply(wire[i]) {
        ContentTypes(events[i]);
      }
      assert IsReply(wire[|events|]);
      var status, read := SendRecv(t, events + [reply]);
      assert read == |wire| && wire[..read - 1] == events;
      found := lastSrEvent;
    }
  }
}
