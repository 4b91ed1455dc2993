/**
 The reads of a connection with the hybi00 processor (websocketpp/impl/connection_impl.hpp):
 handle_read_frame asks for the next read unless reading is paused or the last one ended in an
 error, and resume_reading asks for one in any case.
 */
module ReadLoop {
  import opened Bytes
  import opened Hybi00
  import opened Wrappers

  /**
   A read that completes with at least one byte, one that fails, or a dispatched call of the user.
   Whether the connection has been terminated in between plays no part: terminate leaves the
   internal state as it is, and nothing else is looked at before the frame loop.
   */
  datatype Input = Read(buf: bytes) | Fail | Pause | Resume

  /** m_read_flag, the reads asked for and not completed, what was handed over, and how it ended. */
  datatype Reader = Reader(
    parser: Parser, flag: bool, outstanding: nat, delivered: seq<bytes>, error: Option<Error>, spinning: bool)

  /** The open handler has run and the first read has been asked for. */
  const OPENED := Reader(START, true, 1, [], None, false)

  /** None for what cannot happen: nothing follows a handler that never returns. */
  function Next(r: Reader, i: Input, have: Manager): Option<Reader> {
    if r.spinning then None
    else match i
      case Pause => Some(r.(flag := false))
      case Resume => Some(r.(flag := true, outstanding := r.outstanding + 1))
      case Fail => if r.outstanding == 0 then None else Some(r.(outstanding := r.outstanding - 1))
      case Read(buf) =>
        if r.outstanding == 0 || buf == [] then None
        else
          var s := r.(outstanding := r.outstanding - 1);
          if r.parser.phase == FatalError then Some(s.(spinning := true))
          else
            var f := Feed(r.parser, buf, have);
            var t := s.(parser := f.parser, delivered := r.delivered + f.delivered, error := f.error);
            Some(if f.error.None? && r.flag then t.(outstanding := r.outstanding) else t)
  }

  function Exec(r: Reader, run: seq<Input>, have: Manager): Option<Reader>
    decreases |run|
  {
    if run == [] then Some(r)
    else
      var p := Exec(r, run[..|run| - 1], have);
      if p.None? then None else Next(p.value, run[|run| - 1], have)
  }

  lemma {:induction false} ExecPrefix(r: Reader, run: seq<Input>, have: Manager, j: nat)
    requires Exec(r, run, have).Some? && j <= |run|
    ensures Exec(r, run[..j], have).Some?
    decreases |run|
  {
    if j == |run| {
      assert run[..j] == run;
    } else {
      assert run[..|run| - 1][..j] == run[..j];
      ExecPrefix(r, run[..|run| - 1], have, j);
    }
  }

  // ----- when the read loop never returns -------------------------------------------------------

  predicate Inv(r: Reader) {
    && (r.error.Some? <==> r.parser.phase == FatalError) && r.parser.phase != Ready
    && (r.spinning ==> r.error.Some?)
  }

  lemma StepInv(r: Reader, i: Input, have: Manager)
    requires Inv(r) && Next(r, i, have).Some?
    ensures Inv(Next(r, i, have).value)
    ensures r.error.Some? ==> Next(r, i, have).value.error == r.error && Next(r, i, have).value.delivered == r.delivered
    ensures Next(r, i, have).value.spinning <==> i.Read? && r.error.Some?
  {
    hide Feed;
    if i.Read? && r.parser.phase != FatalError {
      FeedKeepsGoing(r.parser, i.buf, have);
      NotReady(r.parser, i.buf, have);
    }
  }

  lemma NotReady(p: Parser, s: bytes, have: Manager)
    requires p.phase != FatalError && p.phase != Ready
    ensures Feed(p, s, have).parser.phase != Ready
  {
    FeedKeepsGoing(p, s, have);
    FeedNothing(p, have);
  }

  lemma {:induction false} ExecInv(r: Reader, run: seq<Input>, have: Manager)
    requires Inv(r) && Exec(r, run, have).Some?
    ensures Inv(Exec(r, run, have).value)
    decreases |run|
  {
    if run != [] {
      ExecInv(r, run[..|run| - 1], have);
      StepInv(Exec(r, run[..|run| - 1], have).value, run[|run| - 1], have);
    }
  }

  /** The j-th input is a read, and an earlier one had ended in an error. */
  predicate ReadAfterError(run: seq<Input>, have: Manager, j: nat) {
    j < |run| && run[j].Read? && var p := Exec(OPENED, run[..j], have); p.Some? && p.value.error.Some?
  }

  /** A run ends in a handler that never returns if and only if a read follows one that ended in an error. */
  lemma {:induction false} SpinsIff(run: seq<Input>, have: Manager)
    requires Exec(OPENED, run, have).Some?
    ensures Exec(OPENED, run, have).value.spinning <==> exists j :: ReadAfterError(run, have, j)
    decreases |run|
  {
    hide Next;
    if run == [] {
      assert !OPENED.spinning;
    } else {
      var n := |run| - 1;
      var front := run[..n];
      assert Inv(OPENED);
      ExecInv(OPENED, front, have);
      var s := Exec(OPENED, front, have).value;
      StepInv(s, run[n], have);
      SpinsIff(front, have);
      NothingAfterSpin(s, run[n], have);
      forall j | 0 <= j < n ensures ReadAfterError(run, have, j) <==> ReadAfterError(front, have, j) {
        assert front[..j] == run[..j] && front[j] == run[j];
      }
      if exists j :: ReadAfterError(run, have, j) {
        var j :| ReadAfterError(run, have, j);
        assert j == n || ReadAfterError(front, have, j);
      }
      assert ReadAfterError(run, have, n) <==> run[n].Read? && s.error.Some?;
    }
  }

  lemma NothingAfterSpin(r: Reader, i: Input, have: Manager)
    requires Next(r, i, have).Some?
    ensures !r.spinning
  {
  }

  /** Behind an error the next read that completes never returns; one can complete exactly while one is outstanding. */
  lemma SpinsNextIff(r: Reader, have: Manager)
    requires Inv(r) && r.error.Some? && !r.spinning
    ensures (exists i: Input :: i.Read? && Next(r, i, have).Some?) <==> r.outstanding > 0
    ensures forall i: Input :: i.Read? && Next(r, i, have).Some? ==> Next(r, i, have).value.spinning
  {
    hide Feed;
    if r.outstanding > 0 {
      assert Next(r, Read([0]), have).Some?;
    }
  }

  /** A resume behind an error is enough. */
  lemma ResumeSpins(r: Reader, buf: bytes, have: Manager)
    requires Inv(r) && r.error.Some? && !r.spinning && buf != []
    ensures var s := Next(r, Resume, have);
            s.Some? && var t := Next(s.value, Read(buf), have); t.Some? && t.value.spinning
  {
  }

  /** So is one before it: the reading that was never paused and the resumed one are both outstanding. */
  lemma ResumeBeforeSpins(r: Reader, bad: bytes, buf: bytes, have: Manager)
    requires Inv(r) && r.error.None? && !r.spinning && r.outstanding > 0
    requires bad != [] && Feed(r.parser, bad, have).error.Some? && buf != []
    ensures var s := Next(r, Resume, have);
            s.Some? && var t := Next(s.value, Read(bad), have);
            t.Some? && t.value.error.Some? && var u := Next(t.value, Read(buf), have); u.Some? && u.value.spinning
  {
    FeedKeepsGoing(r.parser, bad, have);
    hide Feed;
  }

  predicate NoResume(run: seq<Input>) { forall i :: 0 <= i < |run| ==> !run[i].Resume? }

  /** Without a resume no read follows an error, so every handler returns. */
  lemma {:induction false} NoResumeNoSpin(run: seq<Input>, have: Manager)
    requires Exec(OPENED, run, have).Some? && NoResume(run)
    ensures var r := Exec(OPENED, run, have).value;
            !r.spinning && r.outstanding <= if r.error.Some? then 0 else 1
    decreases |run|
  {
    hide Feed;
    if run != [] {
      NoResumeNoSpin(run[..|run| - 1], have);
      assert Inv(OPENED);
      ExecInv(OPENED, run[..|run| - 1], have);
    }
  }

  // ----- what a pause and a resume do to the reads behind them ------------------------------------

  /** The last call of the two was pause_reading. */
  predicate PausedBy(run: seq<Input>) {
    exists j :: 0 <= j < |run| && run[j].Pause? && forall k :: j < k < |run| ==> !run[k].Resume?
  }

  lemma {:induction false} PausedIff(run: seq<Input>, have: Manager)
    requires Exec(OPENED, run, have).Some?
    ensures Exec(OPENED, run, have).value.flag <==> !PausedBy(run)
    decreases |run|
  {
    hide Feed;
    if run != [] {
      var n := |run| - 1;
      PausedIff(run[..n], have);
      if PausedBy(run[..n]) && !run[n].Resume? {
        var j :| 0 <= j < n && run[..n][j].Pause? && forall k :: j < k < n ==> !run[..n][k].Resume?;
        assert forall k :: j < k < n ==> run[k] == run[..n][k];
        assert run[j].Pause?;
      }
      if PausedBy(run) && !run[n].Pause? {
        var j :| 0 <= j < |run| && run[j].Pause? && forall k :: j < k < |run| ==> !run[k].Resume?;
        assert run[..n][j].Pause? && forall k :: j < k < n ==> run[..n][k] == run[k];
      }
    }
  }

  /** The reads that completed, with bytes or without. */
  function Completed(run: seq<Input>): (n: nat) {
    if run == [] then 0
    else Completed(run[..|run| - 1]) + if run[|run| - 1].Read? || run[|run| - 1].Fail? then 1 else 0
  }

  /** Behind a pause, until a resume, only the reads already asked for complete: no other is. */
  lemma {:induction false} PausedReads(r: Reader, run: seq<Input>, have: Manager)
    requires !r.flag && NoResume(run) && Exec(r, run, have).Some?
    ensures var s := Exec(r, run, have).value; !s.flag && s.outstanding + Completed(run) == r.outstanding
    decreases |run|
  {
    hide Feed;
    if run != [] {
      PausedReads(r, run[..|run| - 1], have);
    }
  }

  predicate NeverHeld(run: seq<Input>) { forall i :: 0 <= i < |run| ==> !run[i].Pause? && !run[i].Fail? }

  /** With no pause, no failed read and no error another read can always complete. */
  lemma {:induction false} KeepsReading(run: seq<Input>, buf: bytes, have: Manager)
    requires Exec(OPENED, run, have).Some? && NeverHeld(run) && Exec(OPENED, run, have).value.error.None? && buf != []
    ensures var r := Exec(OPENED, run, have).value; r.flag && r.outstanding >= 1 && !r.spinning
    ensures Exec(OPENED, run + [Read(buf)], have).Some?
    decreases |run|
  {
    hide Feed;
    assert Inv(OPENED);
    ExecInv(OPENED, run, have);
    assert (run + [Read(buf)])[..|run|] == run;
    if run != [] {
      var front := run[..|run| - 1];
      ExecInv(OPENED, front, have);
      StepInv(Exec(OPENED, front, have).value, run[|run| - 1], have);
      KeepsReading(front, buf, have);
    }
  }

  // ----- the object -------------------------------------------------------------------------------

  /** The reads and calls of a connection, one handler after the other. */
  method RunReads(run: seq<Input>, have: Manager) returns (delivered: seq<bytes>, error: Option<Error>, spins: bool)
    requires Exec(OPENED, run, have).Some?
    ensures var r := Exec(OPENED, run, have).value;
            delivered == r.delivered && error == r.error && spins == r.spinning
    ensures spins <==> exists j :: ReadAfterError(run, have, j)
  {
    var proc := new Processor();
    var flag := true;
    ghost var r := OPENED;
    delivered, error, spins := [], None, false;
    SpinsIff(run, have);
    hide ReadAfterError, Feed;
    assert run[..0] == [];
    for i := 0 to |run|
      invariant proc.Valid() && fresh(proc)
      invariant Exec(OPENED, run[..i], have) == Some(r) && Inv(r)
      invariant r.parser == proc.State() && r.flag == flag
      invariant r.delivered == delivered && r.error == error && r.spinning == spins
    {
      assert run[..i + 1][..i] == run[..i];
      ExecPrefix(OPENED, run, have, i + 1);
      StepInv(r, run[i], have);
      r := Next(r, run[i], have).value;
      match run[i] {
        case Pause => flag := false;
        case Resume => flag := true;
        case Fail =>
        case Read(buf) =>
          var got, ec, hangs := HandleRead(proc, buf, have);
          if hangs {
            spins := true;
          } else {
            delivered, error := delivered + got, ec;
          }
      }
    }
    assert run[..|run|] == run;
  }
}
