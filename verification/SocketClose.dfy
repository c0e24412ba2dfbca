/** What closing does to messages. */
module SocketClose {
  // A graceful close waits for everything, and loses nothing that the socket had accepted.

  import opened SocketWrite
  import opened SocketRace
  import opened SocketFlush
  import opened SocketOrder
  import opened SocketSenders

  // ------------------------------------------------------------------ the decision

  /** The sending count fits in its 16 bits. */
  lemma {:induction false} SendingFits(steps: seq<Step>)
    ensures Run(steps).sending <= 0xffff
  {
    hide Take;
    if steps != [] {
      SendingFits(steps[..|steps| - 1]);
      StepFits(Run(steps[..|steps| - 1]), steps[|steps| - 1]);
    }
  }

  lemma StepFits(y: Sys, step: Step)
    requires y.sending <= 0xffff
    ensures Take(y, step).sending <= 0xffff
  {
    hide Flush, FreeLists, CloseFd, SendSocket, DirectWrite, StoreDirect, Dropped;
  }

  /** A close request frees the lists at once exactly if it is a shutdown, or if nothing is left
      anywhere: not in the lists, not from a direct write, not in the pipe or on the way to it. */
  lemma ClosesExactly(steps: seq<Step>)
    requires Run(steps).thread.Deciding?
    ensures var y := Run(steps);
            Run(steps + [Continue]).thread.Closing? <==>
              || y.thread.shutdown
              || (Empty(y.s) && y.s.dw.None? && SendsIn(y.pipe) == 0 && PipingSum(y.workers) == 0)
    ensures !Run(steps + [Continue]).thread.Closing? ==> Run(steps + [Continue]).s == Run(steps).s.(kind := HalfClose)
  {
    hide Run, SendsIn, PipingSum, FreeLists;
    RunCounted(steps);
    Extend(steps, Continue);
  }

  // ------------------------------------------------------------------ nothing is lost

  /** A flush without a failed write keeps the whole line, also when it closes. */
  lemma FlushDone(s: Sock, outs: seq<Outcome>)
    requires s.kind != Invalid && s.hand.None? && Fail !in outs
    ensures Line(Flush(s, outs).0) == Line(s)
  {
    hide FlushLists, TakeDirect, Line;
    TakeDirectLine(s);
    ListsDone(TakeDirect(s), outs);
    FlushListsLine(TakeDirect(s), outs);
    PlainLine(Flush(s, outs).0);
  }

  lemma ListsDone(s: Sock, outs: seq<Outcome>)
    requires s.kind != Invalid && s.dw.None? && s.hand.None? && Fail !in outs
    ensures Waiting(FlushLists(s, outs).0) == Waiting(s)
  {
    hide SendList, ForceClose, Raise;
    SendListLine(s, true, outs);
    SendListCloses(s, true, outs);
    var (s1, outs1, closed1) := SendList(s, true, outs);
    if s1.high == [] {
      if s1.low == [] {
        DrainedLine(s1);
      } else {
        SendListLine(s1, false, outs1);
        SendListCloses(s1, false, outs1);
        var (s2, _, _) := SendList(s1, false, outs1);
        if s2.low == [] { DrainedLine(s2); } else { RaiseLine(s2); RaiseFields(s2); }
      }
    }
  }

  lemma DrainedLine(s: Sock)
    requires s.kind != Invalid && s.high == [] && s.low == []
    ensures Waiting(ForceClose(s)) == Waiting(s)
  {
    ForceCloseLine(s);
  }

  /** No shutdown, no hangup and no failed write. */
  predicate SoftStep(step: Step)
  {
    match step
    case AskClose(shutdown) => !shutdown
    case Hangup => false
    case Poll(outs) => Fail !in outs
    case Command(outs) => Fail !in outs
    case _ => true
  }

  predicate Soft(steps: seq<Step>)
  {
    forall step :: step in steps ==> SoftStep(step)
  }

  /** The socket accepts a message: it queues it from the pipe, or a worker writes it directly. */
  predicate Accepts(y: Sys, step: Step)
  {
    Enters(y, step) != [] && (step.Work? || y.s.kind == Connected)
  }

  /** The descriptor is closed while the rest of a direct write is still there. */
  predicate CutsOff(y: Sys, step: Step)
  {
    step.Continue? && y.thread.Closing? && y.lock.None? && y.s.dw.Some?
  }

  function One(b: bool): nat { if b then 1 else 0 }

  function Accepted(steps: seq<Step>): nat
  {
    if steps == [] then 0 else Accepted(steps[..|steps| - 1]) + One(Accepts(Run(steps[..|steps| - 1]), steps[|steps| - 1]))
  }

  function Cuts(steps: seq<Step>): nat
  {
    if steps == [] then 0 else Cuts(steps[..|steps| - 1]) + One(CutsOff(Run(steps[..|steps| - 1]), steps[|steps| - 1]))
  }

  predicate Graceful(y: Sys)
  {
    && (forall r :: r in y.pipe ==> r != Kill(true)) && y.thread != Deciding(true)
    && (y.thread.Closing? ==> Empty(y.s))
    && (y.s.kind == Invalid ==> Empty(y.s) && y.s.dw.None? && y.s.hand.None?)
  }

  /** what a step does to the length of the line */
  predicate Counts(y: Sys, step: Step)
  {
    var y' := Take(y, step);
    |Line(y'.s)| + One(CutsOff(y, step)) == |Line(y.s)| + One(Accepts(y, step))
  }

  lemma WriteKeeps(y: Sys, i: nat, n: nat)
    requires Locked(y) && Graceful(y) && i < |y.workers| && y.workers[i].Writing?
    ensures var y' := Act(y, i, n); Graceful(y') && |Line(y'.s)| == |Line(y.s)| + 1
  {
    hide Line, Emit;
    HandFree(y, i);
    DirectLine(y.s, y.workers[i].msg, n);
    SentFirst(y.s);
    assert Holding(y.workers[i]);
  }

  lemma WorkKeeps(y: Sys, i: nat, n: nat)
    requires Locked(y) && Graceful(y) && i < |y.workers| && !y.workers[i].Writing?
    ensures var y' := Act(y, i, n); Graceful(y') && Line(y'.s) == Line(y.s)
  {
    hide Line, DirectWrite;
    var w := y.workers[i];
    assert Holding(w) ==> y.lock == Some(i);
    if w.Start? {
      DroppedLine(y.s, w.msg);
    } else if w.Wrote? {
      HandFree(y, i);
      StoreLine(y.s);
    }
  }

  lemma FlushGraceful(y: Sys, y': Sys, outs: seq<Outcome>)
    requires Locked(y) && Graceful(y) && y.lock.None? && y.s.kind != Invalid && !y.thread.Closing? && Fail !in outs
    requires y'.s == Flush(y.s, outs).0 && y'.thread != Deciding(true) && !y'.thread.Closing? && (forall r :: r in y'.pipe ==> r in y.pipe)
    ensures Graceful(y') && Line(y'.s) == Line(y.s)
  {
    hide Flush, Line, Locked;
    NoDecided(y);
    FlushDone(y.s, outs);
    FlushLine(y.s, outs);
  }

  lemma CommandGraceful(y: Sys, outs: seq<Outcome>)
    requires Locked(y) && Graceful(y) && y.thread.Ready? && y.pipe != [] && Fail !in outs
    ensures Graceful(Take(y, Command(outs))) && Counts(y, Command(outs))
  {
    hide Flush, Line, Locked, SendSocket, Dropped;
    var y' := Take(y, Command(outs));
    assert y.pipe[0] in y.pipe && forall r :: r in y.pipe[1..] ==> r in y.pipe;
    if y.pipe[0].Send? {
      if y.s.kind == Connected {
        SendLine(y.s, y.pipe[0].msg, y.pipe[0].low);
      } else {
        NotQueued(y, outs);
        DroppedLine(y.s, y.pipe[0].msg);
        DroppedBuffers(y.s, y.pipe[0].msg);
      }
    } else if y.s.kind != Invalid && !NoMore(y) && y.lock.None? {
      FlushGraceful(y, y', outs);
    }
  }

  lemma DroppedBuffers(s: Sock, m: Bytes)
    ensures Dropped(s, m).dw == s.dw && Dropped(s, m).hand == s.hand
  {
  }

  lemma ContinueGraceful(y: Sys)
    requires Locked(y) && Graceful(y) && (y.thread.Deciding? || y.thread.Closing? ==> y.s.kind != Invalid)
    ensures Graceful(Take(y, Continue)) && Counts(y, Continue)
  {
    hide Locked, Line, FreeLists, CloseFd, Graceful, Counts;
    match y.thread
    case Ready => Idle(y, Continue);
    case Counting => CountingGraceful(y);
    case Deciding(_) => DecideGraceful(y);
    case Closing => if y.lock.None? { NoDecided(y); CloseGraceful(y); } else { Idle(y, Continue); }
  }

  lemma CountingGraceful(y: Sys)
    requires Graceful(y) && y.thread.Counting?
    ensures Graceful(Take(y, Continue)) && Counts(y, Continue)
  {
    hide Line;
  }

  lemma DecideGraceful(y: Sys)
    requires Graceful(y) && y.thread.Deciding? && y.s.kind != Invalid
    ensures Graceful(Take(y, Continue)) && Counts(y, Continue)
  {
    hide Line, FreeLists, CloseFd;
    HalfLine(y.s);
    if NoMore(y) { NothingFreed(y.s); }
  }

  lemma CloseGraceful(y: Sys)
    requires Graceful(y) && y.thread.Closing? && y.lock.None? && y.s.hand.None?
    ensures Graceful(Take(y, Continue)) && Counts(y, Continue)
  {
    hide Line, FreeLists, CloseFd;
    OnlyDirectCut(y.s);
  }

  lemma NothingFreed(s: Sock)
    requires Empty(s)
    ensures Line(FreeLists(s)) == Line(s) && Empty(FreeLists(s)) && FreeLists(s).dw == s.dw && FreeLists(s).hand == s.hand && FreeLists(s).kind == s.kind
  {
  }

  lemma OnlyDirectCut(s: Sock)
    requires Empty(s) && s.hand.None?
    ensures |Line(CloseFd(s))| + One(s.dw.Some?) == |Line(s)| && Empty(CloseFd(s)) && CloseFd(s).dw.None? && CloseFd(s).hand.None?
  {
  }

  lemma StepGraceful(y: Sys, step: Step)
    requires Locked(y) && Graceful(y) && SoftStep(step) && (y.thread.Deciding? || y.thread.Closing? ==> y.s.kind != Invalid)
    ensures Graceful(Take(y, step)) && Counts(y, step)
  {
    hide Flush, Line, Locked, SendSocket, Execute, FreeLists, CloseFd, Graceful, Act;
    match step
    case Begin(_, _) => Idle(y, step);
    case AskClose(_) => Idle(y, step);
    case Hangup =>
    case Work(i, n) =>
      if i >= |y.workers| { Idle(y, step); } else if y.workers[i].Writing? { WriteKeeps(y, i, n); } else { WorkKeeps(y, i, n); }
    case Poll(outs) =>
      if y.thread.Ready? && y.s.kind != Invalid && y.lock.None? { Calm(y); FlushGraceful(y, Take(y, step), outs); } else { Idle(y, step); }
    case Command(outs) => if y.thread.Ready? && y.pipe != [] { CommandGraceful(y, outs); } else { Idle(y, step); }
    case Continue => ContinueGraceful(y);
  }

  lemma Calm(y: Sys)
    requires Graceful(y)
    ensures y.thread != Deciding(true)
  {
  }

  /** steps that touch neither the socket nor the socket thread */
  lemma Idle(y: Sys, step: Step)
    requires Graceful(y) && (step.Begin? || step == AskClose(false) || Take(y, step) == y) && !Accepts(y, step) && !CutsOff(y, step)
    ensures Graceful(Take(y, step)) && Counts(y, step)
  {
    hide Line;
  }

  lemma {:induction false} RunGraceful(steps: seq<Step>)
    requires Soft(steps)
    ensures Graceful(Run(steps)) && |Line(Run(steps).s)| + Cuts(steps) == Accepted(steps)
  {
    hide Take, Graceful, Line, Accepts, CutsOff, SoftStep, Locked;
    if steps == [] {
      InitGraceful();
    } else {
      var before, step := steps[..|steps| - 1], steps[|steps| - 1];
      assert step in steps && forall s :: s in before ==> s in steps;
      RunGraceful(before);
      RunLocked(before);
      StepGraceful(Run(before), step);
    }
  }

  lemma InitGraceful()
    ensures Graceful(INIT) && |Line(INIT.s)| == 0
  {
  }

  /** A graceful close loses a message that the socket accepted if and only if the descriptor is closed
      while the rest of a direct write is still there; all others are on the wire or on their way,
      and on the wire once the socket is closed. */
  lemma NothingLostExactly(steps: seq<Step>)
    requires Soft(steps)
    ensures |Line(Run(steps).s)| <= Accepted(steps)
    ensures |Line(Run(steps).s)| == Accepted(steps) <==> forall k :: 0 <= k < |steps| ==> !CutsOff(Run(steps[..k]), steps[k])
    ensures Run(steps).s.kind == Invalid ==> Run(steps).s.sent == Line(Run(steps).s)
  {
    hide Run, Accepted, CutsOff;
    RunGraceful(steps);
    CutsNone(steps);
    var s := Run(steps).s;
    if s.kind == Invalid { PlainLine(s); }
  }

  lemma {:induction false} CutsNone(steps: seq<Step>)
    ensures Cuts(steps) == 0 <==> forall k :: 0 <= k < |steps| ==> !CutsOff(Run(steps[..k]), steps[k])
  {
    hide Run, CutsOff;
    if steps != [] {
      var n := |steps| - 1;
      CutsNone(steps[..n]);
      assert forall k :: 0 <= k < n ==> steps[..n][..k] == steps[..k];
    }
  }

  // ------------------------------------------------------------------ a message that is lost

  lemma Goes(steps: seq<Step>, step: Step, y': Sys) returns (more: seq<Step>)
    requires Soft(steps) && SoftStep(step) && Take(Run(steps), step) == y'
    ensures Soft(more) && Run(more) == y' && Accepted(more) == Accepted(steps) + One(Accepts(Run(steps), step))
  {
    hide Take, Accepts, SoftStep;
    more := steps + [step];
    assert more[..|more| - 1] == steps;
  }

  /** one worker, that sends m */
  function Alone(s: Sock, lock: bool, w: Worker, pipe: seq<Request>, thread: Thread): Sys
  {
    Sys(s, if lock then Some(0) else None, [w], pipe, 0, thread)
  }

  function Open(log: seq<Chunk>, dw: Option<Buf>, hand: Option<Buf>): Sock
  {
    Sock(Connected, [], [], 0, dw, hand, log, [], [], None)
  }

  /** the worker has written one byte of two */
  lemma HalfWritten(m: Bytes) returns (steps: seq<Step>)
    requires |m| == 2
    ensures Soft(steps) && Accepted(steps) == 1
    ensures Run(steps) == Alone(Open([Chunk(m, 0, 1)], None, Some(Buf(m, 1))), true, Wrote(m, 1), [], Ready)
  {
    hide Run, Accepted, Accepts, Soft;
    var s := Open([], None, None);
    NoSteps();
    steps := Goes([], Begin(m, false), Alone(s, false, Start(m, false), [], Ready));
    steps := Goes(steps, Work(0, 0), Alone(s, false, Looking(m), [], Ready));
    steps := Goes(steps, Work(0, 0), Alone(s, false, Looked(m), [], Ready));
    steps := Goes(steps, Work(0, 0), Alone(s, false, Locking(m), [], Ready));
    steps := Goes(steps, Work(0, 0), Alone(s, true, Trying(m), [], Ready));
    steps := Goes(steps, Work(0, 0), Alone(s, true, SawEmpty(m), [], Ready));
    steps := Goes(steps, Work(0, 0), Alone(s, true, Writing(m), [], Ready));
    NotAccepted(m, s);
    steps := Goes(steps, Work(0, 1), Alone(Open([Chunk(m, 0, 1)], None, Some(Buf(m, 1))), true, Wrote(m, 1), [], Ready));
  }

  lemma NoSteps()
    ensures Soft([]) && Run([]) == INIT && Accepted([]) == 0
  {
  }

  /** which of these steps count */
  lemma NotAccepted(m: Bytes, s: Sock)
    ensures forall w, lock :: Accepts(Alone(s, lock, w, [], Ready), Work(0, 0)) <==> w.Writing?
    ensures !Accepts(INIT, Begin(m, false)) && Accepts(Alone(s, true, Writing(m), [], Ready), Work(0, 1))
  {
  }

  /** and the socket thread has decided to close the socket */
  lemma HalfClosing(m: Bytes) returns (steps: seq<Step>)
    requires |m| == 2
    ensures Soft(steps) && Accepted(steps) == 1
    ensures Run(steps) == Alone(Open([Chunk(m, 0, 1)], None, Some(Buf(m, 1))), true, Wrote(m, 1), [], Closing)
  {
    hide Run, Accepted, Soft;
    var half := Open([Chunk(m, 0, 1)], None, Some(Buf(m, 1)));
    steps := HalfWritten(m);
    steps := Goes(steps, AskClose(false), Alone(half, true, Wrote(m, 1), [Kill(false)], Ready));
    steps := Goes(steps, Command([]), Alone(half, true, Wrote(m, 1), [], Deciding(false)));
    assert FreeLists(half) == half;
    steps := Goes(steps, Continue, Alone(half, true, Wrote(m, 1), [], Closing));
  }

  /** Such a run: one byte of two is written directly, the socket is closed gracefully before the rest
      is put aside, and the rest is thrown away. */
  lemma LostRun() returns (steps: seq<Step>)
    ensures Soft(steps) && Accepted(steps) == 1
    ensures var s := Run(steps).s; s.kind == Invalid && Wire(s.log) == [9] && s.sent == [] && s.dropped == [[9, 9]]
  {
    hide Run, Accepted, Soft;
    var m := [9, 9];
    var log := [Chunk(m, 0, 1)];
    var stored := Open(log, Some(Buf(m, 1)), None);
    steps := HalfClosing(m);
    steps := Goes(steps, Work(0, 0), Alone(stored, true, Unlocking, [], Closing));
    steps := Goes(steps, Work(0, 0), Alone(stored, false, Finished, [], Closing));
    var end := CloseFd(stored);
    steps := Goes(steps, Continue, Alone(end, false, Finished, [], Ready));
    assert end.log == log && Wire(log) == [9] by { assert log[..0] == [] && Wire(log[..0]) == []; }
  }
}
