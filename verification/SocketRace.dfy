/** Direct writes race with the socket thread. */
module SocketRace {
  // One socket, any number of workers. A step is what runs without another thread being able to
  // look: a region under the socket's lock by the socket thread, or a single access by a worker.

  import opened SocketWrite

  /** socket_server_send and socket_server_send_lowpriority, point by point */
  datatype Worker =
    | Start(msg: Bytes, low: bool)
    | Looking(msg: Bytes)
    | Looked(msg: Bytes)
    | Locking(msg: Bytes)
    | Trying(msg: Bytes)
    | SawEmpty(msg: Bytes)
    | Writing(msg: Bytes)
    | Wrote(msg: Bytes, n: nat)
    | Unlocking
    | Enqueue(msg: Bytes, low: bool)
    | Piping(msg: Bytes, low: bool)
    | Finished

  datatype Request = Send(msg: Bytes, low: bool) | Kill(shutdown: bool)

  /** Where the socket thread is: between two events, about to give back a sending count, about
      to decide how to close, or waiting for the lock to close the descriptor. */
  datatype Thread = Ready | Counting | Deciding(shutdown: bool) | Closing

  datatype Sys = Sys(s: Sock, lock: Option<nat>, workers: seq<Worker>, pipe: seq<Request>, sending: nat, thread: Thread)

  datatype Step =
    | Begin(msg: Bytes, low: bool)
    | AskClose(shutdown: bool)
    | Work(i: nat, n: nat)
    | Poll(outs: seq<Outcome>)
    | Command(outs: seq<Outcome>)
    | Continue
    | Hangup

  const MAX_SENDING := 0xffff

  predicate Empty(s: Sock) { s.high == [] && s.low == [] }

  predicate NoMore(y: Sys) { Empty(y.s) && y.s.dw.None? && y.sending == 0 }

  function At(y: Sys, i: nat, w: Worker): Sys
    requires i < |y.workers|
  {
    y.(workers := y.workers[i := w])
  }

  function Dropped(s: Sock, msg: Bytes): Sock { s.(dropped := s.dropped + [msg]) }

  /** a direct write that the kernel accepts n bytes of */
  function DirectWrite(s: Sock, msg: Bytes, n: nat): Sock
  {
    if n >= |msg| then s.(log := Emit(s.log, msg, 0, |msg|), sent := s.sent + [msg])
    else s.(log := Emit(s.log, msg, 0, n), hand := Some(Buf(msg, n)))
  }

  function StoreDirect(s: Sock): Sock { s.(dw := s.hand, hand := None) }

  /** what a direct write needs besides empty lists */
  predicate Writable(y: Sys) { y.s.dw.None? && y.sending == 0 && y.s.kind == Connected }

  /** Worker i moves on: it looks at the socket, takes the lock, looks again and writes, unless
      something is in the way; n is how many bytes the kernel takes. */
  function Act(y: Sys, i: nat, n: nat): Sys
    requires i < |y.workers|
  {
    match y.workers[i]
    case Start(m, low) =>
      if y.s.kind == Invalid then At(y.(s := Dropped(y.s, m)), i, Finished)
      else At(y, i, if low then Enqueue(m, low) else Looking(m))
    case Looking(m) => At(y, i, if Empty(y.s) then Looked(m) else Enqueue(m, false))
    case Looked(m) => At(y, i, if Writable(y) then Locking(m) else Enqueue(m, false))
    case Locking(m) => if y.lock.None? then At(y.(lock := Some(i)), i, Trying(m)) else At(y, i, Enqueue(m, false))
    case Trying(m) => if Empty(y.s) then At(y, i, SawEmpty(m)) else At(y.(lock := None), i, Enqueue(m, false))
    case SawEmpty(m) =>
      if Writable(y) then At(y, i, Writing(m))
      else At(y.(lock := None), i, Enqueue(m, false))
    case Writing(m) => At(y.(s := DirectWrite(y.s, m, n)), i, if n >= |m| then Unlocking else Wrote(m, n))
    case Wrote(_, _) => At(y.(s := StoreDirect(y.s)), i, Unlocking)
    case Unlocking => At(y.(lock := None), i, Finished)
    case Enqueue(m, low) => if y.sending < MAX_SENDING then At(y.(sending := y.sending + 1), i, Piping(m, low)) else y
    case Piping(m, low) => At(y.(pipe := y.pipe + [Send(m, low)]), i, Finished)
    case Finished => y
  }

  /** the next command of the pipe */
  function Execute(y: Sys, outs: seq<Outcome>): Sys
    requires y.pipe != []
  {
    var y' := y.(pipe := y.pipe[1..]);
    match y.pipe[0]
    case Send(m, low) => y'.(s := SendSocket(y.s, m, low), thread := Counting)
    case Kill(shutdown) =>
      if y.s.kind == Invalid then y'
      else if NoMore(y) || y.lock.Some? then y'.(thread := Deciding(shutdown))
      else
        var (s', closed) := Flush(y.s, outs);
        y'.(s := s', thread := if closed then Ready else Deciding(shutdown))
  }

  /** Take(y, step) is y itself where the step cannot happen. */
  function Take(y: Sys, step: Step): Sys
  {
    match step
    case Begin(m, low) => y.(workers := y.workers + [Start(m, low)])
    case AskClose(shutdown) => y.(pipe := y.pipe + [Kill(shutdown)])
    case Work(i, n) => if i < |y.workers| then Act(y, i, n) else y
    case Poll(outs) =>
      if y.thread.Ready? && y.s.kind != Invalid && y.lock.None? then y.(s := Flush(y.s, outs).0) else y
    case Command(outs) => if y.thread.Ready? && y.pipe != [] then Execute(y, outs) else y
    case Hangup =>
      if y.thread.Ready? && y.s.kind != Invalid then y.(s := FreeLists(y.s), thread := Closing) else y
    case Continue =>
      match y.thread
      case Ready => y
      case Counting => if y.sending > 0 then y.(sending := y.sending - 1, thread := Ready) else y
      case Deciding(shutdown) =>
        if shutdown || NoMore(y) then y.(s := FreeLists(y.s), thread := Closing)
        else y.(s := y.s.(kind := HalfClose), thread := Ready)
      case Closing => if y.lock.None? then y.(s := CloseFd(y.s), thread := Ready) else y
  }

  // ------------------------------------------------------------------ the invariant

  predicate Holding(w: Worker) { w.Trying? || w.SawEmpty? || w.Writing? || w.Wrote? || w.Unlocking? }

  /** what the worker that has the lock knows about the socket */
  predicate Knows(s: Sock, w: Worker)
  {
    match w
    case SawEmpty(_) => s.hand.None? && Whole(s.high)
    case Writing(_) => s.hand.None? && Whole(s.high) && s.dw.None? && s.kind != Invalid
    case Wrote(m, n) => s.hand == Some(Buf(m, n)) && n < |m| && s.dw.None? && s.kind != Invalid
    case _ => s.hand.None?
  }

  function PipingSum(ws: seq<Worker>): nat
  {
    if ws == [] then 0 else PipingSum(ws[..|ws| - 1]) + if ws[|ws| - 1].Piping? then 1 else 0
  }

  function SendsIn(pipe: seq<Request>): nat
  {
    if pipe == [] then 0 else SendsIn(pipe[1..]) + if pipe[0].Send? then 1 else 0
  }

  /** While the lists are already freed but the descriptor is still open, the socket is sound
      except for the size, which counts the freed buffers. */
  predicate SoundOrClosing(y: Sys)
  {
    if y.thread.Closing? then y.s.kind != Invalid && Empty(y.s) && Lists(y.s) && OnWire(y.s)
    else Sound(y.s)
  }

  predicate Locked(y: Sys)
  {
    && (y.lock.None? ==> y.s.hand.None?)
    && (y.lock.Some? ==> y.lock.value < |y.workers| && Holding(y.workers[y.lock.value]) && Knows(y.s, y.workers[y.lock.value]))
    && (forall i :: 0 <= i < |y.workers| && Holding(y.workers[i]) ==> y.lock == Some(i))
  }

  predicate CountedSends(y: Sys)
  {
    y.sending == SendsIn(y.pipe) + PipingSum(y.workers) + if y.thread.Counting? then 1 else 0
  }

  predicate Inv(y: Sys)
  {
    SoundOrClosing(y) && Locked(y) && CountedSends(y) && (y.thread.Deciding? ==> y.s.kind != Invalid)
  }

  /** No byte of a direct write goes out between the moment the socket thread has freed the lists
      with a begun message in front and the moment it closes the descriptor. */
  predicate Quiet(y: Sys, step: Step)
  {
    step.Work? && step.i < |y.workers| && y.workers[step.i].Writing? && y.thread.Closing? && y.s.torn.Some? ==>
      step.n == 0 || y.workers[step.i].msg == []
  }

  // ------------------------------------------------------------------ sockets

  /** A direct write on a socket without begun buffers. */
  lemma DirectWriteSound(s: Sock, msg: Bytes, n: nat)
    requires Lists(s) && OnWire(s) && s.hand.None? && s.dw.None? && Whole(Queue(s))
    requires s.torn.Some? ==> n == 0 || msg == []
    ensures Lists(DirectWrite(s, msg, n)) && OnWire(DirectWrite(s, msg, n))
  {
    hide Flat, Wire, Intact, Emit, Clean, EndsIn, Lists, OnWire;
    FlatSnoc(s.sent, msg);
    DirectLists(s, msg, n);
    var s' := DirectWrite(s, msg, n);
    if s.torn.Some? {
      NothingEmitted(s.log, msg);
      assert Flat(s.sent) + msg == Flat(s.sent) || msg != [];
      SameWire(s, s');
    } else {
      CurrentWhole(s);
      CleanWire(s);
      EmitIntact(s.log, msg, 0, if n >= |msg| then |msg| else n);
      assert msg[0..|msg|] == msg && msg[..|msg|] == msg;
      if n >= |msg| {
        CurrentWhole(s');
        WireClean(s');
      } else {
        assert msg[0..n] == msg[..n];
        WireBegun(s', Buf(msg, n));
      }
    }
  }

  lemma DirectLists(s: Sock, msg: Bytes, n: nat)
    requires Lists(s) && s.hand.None? && s.dw.None? && Whole(Queue(s)) && (s.torn.Some? ==> n == 0 || msg == [])
    ensures Lists(DirectWrite(s, msg, n)) && Queue(DirectWrite(s, msg, n)) == Queue(s)
  {
    hide Emit;
  }

  lemma SameWire(s: Sock, s': Sock)
    requires Lists(s) && OnWire(s) && Lists(s') && Current(s') == Current(s)
    requires s'.log == s.log && Flat(s'.sent) == Flat(s.sent)
    ensures OnWire(s')
  {
    hide Lists, Current, Flat, Wire, Intact, Clean, EndsIn;
  }

  lemma CleanWire(s: Sock)
    requires Lists(s) && OnWire(s) && (Current(s).Some? ==> Current(s).value.off == 0)
    ensures Intact(s.log) && Clean(s.log) && Wire(s.log) == Flat(s.sent)
  {
    hide Lists, Current, Flat, Wire, Intact, Clean, EndsIn;
    assert Flat(s.sent) + [] == Flat(s.sent);
  }

  lemma NothingEmitted(log: seq<Chunk>, msg: Bytes)
    ensures Emit(log, msg, 0, 0) == log
  {
  }

  lemma StoreDirectSound(s: Sock)
    requires Lists(s) && OnWire(s) && s.hand.Some?
    ensures Lists(StoreDirect(s)) && OnWire(StoreDirect(s))
  {
    hide Flat, Wire, Intact, Clean, EndsIn;
    assert Queue(StoreDirect(s)) == Queue(s);
    if s.torn.None? { assert Current(StoreDirect(s)) == Current(s); }
  }

  lemma FreeListsWire(s: Sock)
    requires Sound(s)
    ensures Lists(FreeLists(s)) && OnWire(FreeLists(s)) && Empty(FreeLists(s))
  {
    hide Flat, Wire, Intact, Clean, EndsIn;
    if Queue(s) != [] && Queue(s)[0].off > 0 {
      assert s.dw.None? && s.hand.None?;
    }
  }

  lemma CloseFdSound(s: Sock)
    requires Lists(s) && OnWire(s) && Empty(s) && s.hand.None?
    ensures Sound(CloseFd(s))
  {
    hide Flat, Wire, Intact, Clean, EndsIn;
  }

  // ------------------------------------------------------------------ every quiet step keeps the invariant

  lemma LockWhole(y: Sys)
    requires SoundOrClosing(y)
    ensures Lists(y.s) && OnWire(y.s) && Whole(y.s.low)
  {
  }

  lemma WithoutTorn(s: Sock)
    ensures forall m, n :: DirectWrite(s, m, n).torn == s.torn && DirectWrite(s, m, n).wbSize == s.wbSize
    ensures StoreDirect(s).torn == s.torn && StoreDirect(s).wbSize == s.wbSize
  {
  }

  /** A begun message is freed only while the thread closes, or the socket is invalid. */
  lemma TornIsClosing(y: Sys)
    requires SoundOrClosing(y) && y.s.torn.Some? && y.s.kind != Invalid
    ensures y.thread.Closing?
  {
  }

  lemma ActSound(y: Sys, i: nat, n: nat)
    requires Inv(y) && i < |y.workers| && Quiet(y, Work(i, n))
    ensures SoundOrClosing(Act(y, i, n))
  {
    hide Lists, OnWire, Emit, CountedSends;
    LockWhole(y);
    var w := y.workers[i];
    match w
    case Writing(m) =>
      if y.s.torn.Some? { TornIsClosing(y); }
      DirectWriteSound(y.s, m, n);
      WithoutTorn(y.s);
    case Wrote(_, _) =>
      StoreDirectSound(y.s);
      WithoutTorn(y.s);
    case Start(m, _) => if y.s.kind == Invalid { DroppedSound(y.s, m); }
    case _ =>
  }

  lemma ActLocked(y: Sys, i: nat, n: nat)
    requires Locked(y) && i < |y.workers|
    ensures Locked(Act(y, i, n))
  {
    hide Emit;
    var y' := Act(y, i, n);
    assert forall j :: 0 <= j < |y.workers| && j != i ==> y'.workers[j] == y.workers[j];
  }

  lemma {:induction false} PipingUpdate(ws: seq<Worker>, i: nat, w: Worker)
    requires i < |ws|
    ensures PipingSum(ws) >= (if ws[i].Piping? then 1 else 0)
    ensures PipingSum(ws[i := w]) == PipingSum(ws) - (if ws[i].Piping? then 1 else 0) + (if w.Piping? then 1 else 0)
  {
    var n := |ws| - 1;
    if i < n {
      PipingUpdate(ws[..n], i, w);
      assert ws[i := w][..n] == ws[..n][i := w];
    } else {
      assert ws[i := w][..n] == ws[..n];
    }
  }

  lemma {:induction false} SendsSnoc(pipe: seq<Request>, r: Request)
    ensures SendsIn(pipe + [r]) == SendsIn(pipe) + if r.Send? then 1 else 0
  {
    if pipe != [] {
      assert (pipe + [r])[1..] == pipe[1..] + [r];
      SendsSnoc(pipe[1..], r);
    }
  }

  lemma ActCounted(y: Sys, i: nat, n: nat)
    requires CountedSends(y) && i < |y.workers|
    ensures CountedSends(Act(y, i, n))
  {
    hide PipingSum, SendsIn, DirectWrite;
    var y', w := Act(y, i, n), y.workers[i];
    PipingUpdate(y.workers, i, y'.workers[i]);
    assert y'.workers == y.workers[i := y'.workers[i]];
    if w.Piping? { SendsSnoc(y.pipe, Send(w.msg, w.low)); }
  }

  /** the socket thread's step on the socket leaves alone what a direct writer relies on */
  lemma ThreadLocked(y: Sys, y': Sys)
    requires Locked(y) && y'.workers == y.workers && y'.lock == y.lock
    requires y.lock.Some? ==>
      y'.s.hand == y.s.hand && y'.s.dw == y.s.dw && (y.s.kind != Invalid ==> y'.s.kind != Invalid) && (Whole(y.s.high) ==> Whole(y'.s.high))
    requires y.lock.None? ==> y'.s.hand.None?
    ensures Locked(y')
  {
  }

  lemma ExecuteInv(y: Sys, outs: seq<Outcome>)
    requires Inv(y) && y.thread.Ready? && y.pipe != []
    ensures Inv(Execute(y, outs))
  {
    hide Sound, Flush, PipingSum, Locked;
    var y' := Execute(y, outs);
    UnlockedHand(y);
    match y.pipe[0]
    case Send(m, low) =>
      SendSocketSound(y.s, m, low);
      SendKeeps(y.s, m, low);
      ThreadLocked(y, y');
    case Kill(shutdown) =>
      if y.s.kind != Invalid && !NoMore(y) && y.lock.None? {
        FlushSound(y.s, outs);
        FlushKind(y.s, outs);
      }
      ThreadLocked(y, y');
  }

  lemma UnlockedHand(y: Sys)
    requires Locked(y)
    ensures y.lock.None? ==> y.s.hand.None?
  {
  }

  lemma SendKeeps(s: Sock, m: Bytes, low: bool)
    ensures SendSocket(s, m, low).hand == s.hand && SendSocket(s, m, low).torn == s.torn
    ensures Whole(s.high) ==> Whole(SendSocket(s, m, low).high)
  {
  }

  lemma FlushKind(s: Sock, outs: seq<Outcome>)
    requires Sound(s) && s.kind != Invalid && s.hand.None?
    ensures !Flush(s, outs).1 ==> Flush(s, outs).0.kind == s.kind
  {
    FlushSound(s, outs);
  }

  lemma PollInv(y: Sys, outs: seq<Outcome>)
    requires Inv(y) && y.thread.Ready? && y.s.kind != Invalid && y.lock.None?
    ensures Inv(Take(y, Poll(outs)))
  {
    hide Sound, Flush, Locked, CountedSends;
    UnlockedHand(y);
    FlushSound(y.s, outs);
    ThreadLocked(y, Take(y, Poll(outs)));
    SameCounts(y, Take(y, Poll(outs)));
  }

  lemma SameCounts(y: Sys, y': Sys)
    requires CountedSends(y) && y'.pipe == y.pipe && y'.workers == y.workers && y'.sending == y.sending
    requires y'.thread.Counting? == y.thread.Counting?
    ensures CountedSends(y')
  {
  }

  lemma CloseInv(y: Sys, step: Step)
    requires Inv(y) && (step.Continue? || step.Hangup?)
    ensures Inv(Take(y, step))
  {
    hide Lists, OnWire, Locked, CountedSends;
    var y' := Take(y, step);
    UnlockedHand(y);
    if step.Hangup? || y.thread.Deciding? {
      if y'.thread.Closing? && !y.thread.Closing? {
        FreeListsWire(y.s);
        FreeListsKeeps(y.s);
      } else if y.thread.Deciding? {
        HalfCloseSound(y.s);
      }
      ThreadLocked(y, y');
      SameCounts(y, y');
    } else if y.thread.Closing? && y.lock.None? {
      CloseFdSound(y.s);
      ThreadLocked(y, y');
      SameCounts(y, y');
    } else if y.thread.Counting? {
      Countdown(y);
      ThreadLocked(y, y');
    }
  }

  lemma FreeListsKeeps(s: Sock)
    ensures FreeLists(s).hand == s.hand && FreeLists(s).dw == s.dw && FreeLists(s).kind == s.kind && FreeLists(s).high == []
  {
  }

  lemma HalfCloseSound(s: Sock)
    requires Sound(s) && s.kind != Invalid
    ensures Sound(s.(kind := HalfClose))
  {
  }

  /** the assertion of dec_sending_ref: there is something to give back */
  lemma Countdown(y: Sys)
    requires CountedSends(y) && y.thread.Counting?
    ensures y.sending > 0 && CountedSends(y.(sending := y.sending - 1, thread := Ready))
  {
  }

  lemma BeginInv(y: Sys, step: Step)
    requires Inv(y) && (step.Begin? || step.AskClose?)
    ensures Inv(Take(y, step))
  {
    hide Sound, SendsIn;
    if step.Begin? {
      var w := Start(step.msg, step.low);
      assert (y.workers + [w])[..|y.workers|] == y.workers;
    } else {
      SendsSnoc(y.pipe, Kill(step.shutdown));
    }
  }

  lemma QuietStepInv(y: Sys, step: Step)
    requires Inv(y) && Quiet(y, step)
    ensures Inv(Take(y, step))
  {
    hide SoundOrClosing, Locked, CountedSends, Execute, Act;
    match step
    case Begin(_, _) => BeginInv(y, step);
    case AskClose(_) => BeginInv(y, step);
    case Work(i, n) =>
      if i < |y.workers| {
        ActSound(y, i, n);
        ActLocked(y, i, n);
        ActCounted(y, i, n);
        ActThread(y, i, n);
      }
    case Poll(outs) => if y.thread.Ready? && y.s.kind != Invalid && y.lock.None? { PollInv(y, outs); }
    case Command(outs) => if y.thread.Ready? && y.pipe != [] { ExecuteInv(y, outs); }
    case Continue => CloseInv(y, step);
    case Hangup => CloseInv(y, step);
  }

  lemma ActThread(y: Sys, i: nat, n: nat)
    requires i < |y.workers|
    ensures Act(y, i, n).thread == y.thread && Act(y, i, n).s.kind == y.s.kind
  {
  }

  // ------------------------------------------------------------------ whole runs

  const INIT := Sys(Sock(Connected, [], [], 0, None, None, [], [], [], None), None, [], [], 0, Ready)

  function Run(steps: seq<Step>): Sys
  {
    if steps == [] then INIT else Take(Run(steps[..|steps| - 1]), steps[|steps| - 1])
  }

  predicate AllQuiet(steps: seq<Step>)
  {
    forall k :: 0 <= k < |steps| ==> Quiet(Run(steps[..k]), steps[k])
  }

  lemma AllQuietSnoc(steps: seq<Step>)
    requires steps != []
    ensures AllQuiet(steps) <==> AllQuiet(steps[..|steps| - 1]) && Quiet(Run(steps[..|steps| - 1]), steps[|steps| - 1])
  {
    hide Quiet, Run;
    var before := steps[..|steps| - 1];
    forall k | 0 <= k <= |before| ensures before[..k] == steps[..k] { }
    if AllQuiet(steps) {
      forall k | 0 <= k < |before| ensures Quiet(Run(before[..k]), before[k]) {
        assert Quiet(Run(steps[..k]), steps[k]);
      }
    }
    if AllQuiet(before) && Quiet(Run(before), steps[|before|]) {
      forall k | 0 <= k < |steps| ensures Quiet(Run(steps[..k]), steps[k]) {
        if k < |before| { assert Quiet(Run(before[..k]), before[k]); }
      }
    }
  }

  lemma {:induction false} QuietRunInv(steps: seq<Step>)
    requires AllQuiet(steps)
    ensures Inv(Run(steps))
  {
    hide Quiet, Take;
    if steps == [] {
    } else {
      AllQuietSnoc(steps);
      QuietRunInv(steps[..|steps| - 1]);
      QuietStepInv(Run(steps[..|steps| - 1]), steps[|steps| - 1]);
    }
  }

  /** The wire carries the sent messages and then the first bytes of at most one more; the size
      is that of the unsent bytes, unless the lists are freed already. */
  predicate WireWhole(y: Sys)
  {
    var c := Current(y.s);
    && Intact(y.s.log) && Whole(y.s.low)
    && (c.Some? ==> c.value.off == 0 || c.value.off < |c.value.msg|)
    && Wire(y.s.log) == Flat(y.s.sent) + (if c.Some? then c.value.msg[..c.value.off] else [])
    && (y.s.kind != Invalid && !y.thread.Closing? ==> y.s.wbSize == Remaining(y.s.high) + Remaining(y.s.low))
  }

  lemma InvMeans(y: Sys)
    requires Inv(y)
    ensures WireWhole(y)
  {
    hide Locked, CountedSends, Intact, Wire, Flat, Remaining, Clean, EndsIn;
    assert Lists(y.s) && OnWire(y.s);
    assert Whole(y.s.low) && (y.s.kind != Invalid && !y.thread.Closing? ==> Counted(y.s));
  }

  /** Every run in which no direct write slips into a closing socket. */
  lemma RunWireWhole(steps: seq<Step>)
    requires AllQuiet(steps)
    ensures WireWhole(Run(steps))
  {
    QuietRunInv(steps);
    InvMeans(Run(steps));
  }

  // ------------------------------------------------------------------ and exactly then

  lemma {:induction false} SendListGrows(s: Sock, high: bool, outs: seq<Outcome>)
    ensures s.log <= SendList(s, high, outs).0.log && SendList(s, high, outs).0.hand == s.hand
    decreases |outs|
  {
    var bufs := List(s, high);
    if bufs != [] && outs != [] {
      match outs[0]
      case Interrupted => SendListGrows(s, high, outs[1..]);
      case Accept(k) => if k >= Size(bufs[0]) >= 0 { SendListGrows(Complete(s, high), high, outs[1..]); }
      case _ =>
    }
  }

  lemma FlushGrows(s: Sock, outs: seq<Outcome>)
    ensures s.log <= Flush(s, outs).0.log && Flush(s, outs).0.hand == s.hand
  {
    hide SendList;
    var t := TakeDirect(s);
    SendListGrows(t, true, outs);
    var (s1, outs1, _) := SendList(t, true, outs);
    SendListGrows(s1, false, outs1);
  }

  lemma LogGrows(y: Sys, step: Step)
    ensures y.s.log <= Take(y, step).s.log
  {
    hide Flush;
    match step
    case Poll(outs) => FlushGrows(y.s, outs);
    case Command(outs) => FlushGrows(y.s, outs);
    case _ =>
  }

  lemma IntactPrefix(log: seq<Chunk>, log': seq<Chunk>)
    requires log <= log' && Intact(log')
    ensures Intact(log)
  {
    forall i | 0 <= i < |log| ensures Follows(log, i) {
      assert log[..i] == log'[..i] && Follows(log', i);
    }
  }

  lemma NoisyStep(y: Sys, step: Step)
    requires Inv(y) && !Quiet(y, step)
    ensures !Intact(Take(y, step).s.log)
  {
    var m := y.workers[step.i].msg;
    var log, log' := y.s.log, Take(y, step).s.log;
    assert !Clean(log) by { assert EndsIn(log, y.s.torn.value.msg, y.s.torn.value.off); }
    assert log' == log + [Chunk(m, 0, if step.n >= |m| then |m| else step.n)];
    assert log'[..|log|] == log && !Follows(log', |log|);
  }

  /** A message on the wire is interrupted by another one exactly in the runs that contain a
      disturbing step: a byte written directly after the socket thread freed a begun message
      without the lock, and before it got the lock to close the descriptor. */
  lemma {:induction false} UninterruptedExactly(steps: seq<Step>)
    ensures Intact(Run(steps).s.log) <==> AllQuiet(steps)
  {
    hide Quiet, Take, Intact;
    if AllQuiet(steps) {
      QuietRunInv(steps);
      InvIntact(Run(steps));
    } else {
      var n := |steps| - 1;
      AllQuietSnoc(steps);
      if AllQuiet(steps[..n]) {
        QuietRunInv(steps[..n]);
        NoisyStep(Run(steps[..n]), steps[n]);
      } else {
        UninterruptedExactly(steps[..n]);
        LogGrows(Run(steps[..n]), steps[n]);
        if Intact(Run(steps).s.log) { IntactPrefix(Run(steps[..n]).s.log, Run(steps).s.log); }
      }
    }
  }

  lemma InvIntact(y: Sys)
    requires Inv(y)
    ensures Intact(y.s.log)
  {
  }

  lemma Extend(steps: seq<Step>, step: Step)
    ensures Run(steps + [step]) == Take(Run(steps), step)
  {
    assert (steps + [step])[..|steps|] == steps;
  }

  /** a message of two bytes through the pipe, then one byte of it on the wire */
  lemma HalfSent() returns (steps: seq<Step>)
    ensures Run(steps) == Sys(Sock(Connected, [Buf([1, 2], 1)], [], 1, None, None, [Chunk([1, 2], 0, 1)], [], [], None),
                              None, [Finished], [], 0, Ready)
  {
    hide Run, Flush;
    var a := [1, 2];
    steps := Piped(a);
    var y := Run(steps);
    var b := [Buf(a, 0)];
    assert Flush(y.s, [Accept(1)]).0 == y.s.(high := [Buf(a, 1)], wbSize := 1, log := [Chunk(a, 0, 1)]) by { FlushHalf(y.s); }
    Extend(steps, Poll([Accept(1)]));
    steps := steps + [Poll([Accept(1)])];
  }

  lemma FlushHalf(s: Sock)
    requires s == Sock(Connected, [Buf([1, 2], 0)], [], 2, None, None, [], [], [], None)
    ensures Flush(s, [Accept(1)]).0 == s.(high := [Buf([1, 2], 1)], wbSize := 1, log := [Chunk([1, 2], 0, 1)])
  {
    assert [Accept(1)][1..] == [] && TakeDirect(s) == s;
    assert Advance(s, true, 1).high == [Buf([1, 2], 1)];
    assert SendList(s, true, [Accept(1)]) == (Advance(s, true, 1), [], false);
  }

  lemma Piped(a: Bytes) returns (steps: seq<Step>)
    requires |a| == 2
    ensures Run(steps) == Sys(Sock(Connected, [Buf(a, 0)], [], 2, None, None, [], [], [], None), None, [Finished], [], 0, Ready)
  {
    var s := Sock(Connected, [], [], 0, None, None, [], [], [], None);
    steps := [];
    assert Run(steps) == Sys(s, None, [], [], 0, Ready);
    hide Run;
    Extend(steps, Begin(a, true));
    steps := steps + [Begin(a, true)];
    assert Run(steps) == Sys(s, None, [Start(a, true)], [], 0, Ready);
    Extend(steps, Work(0, 0));
    steps := steps + [Work(0, 0)];
    assert Run(steps) == Sys(s, None, [Enqueue(a, true)], [], 0, Ready);
    Extend(steps, Work(0, 0));
    steps := steps + [Work(0, 0)];
    assert Run(steps) == Sys(s, None, [Piping(a, true)], [], 1, Ready);
    Extend(steps, Work(0, 0));
    steps := steps + [Work(0, 0)];
    assert Run(steps) == Sys(s, None, [Finished], [Send(a, true)], 1, Ready);
    Extend(steps, Command([]));
    steps := steps + [Command([])];
    Extend(steps, Continue);
    steps := steps + [Continue];
  }

  /** Such a run exists: one of two bytes is sent, the peer hangs up, and a second message goes
      out between the freeing of the lists and the closing of the descriptor. */
  lemma DisturbedRun() returns (steps: seq<Step>)
    ensures !Intact(Run(steps).s.log) && Wire(Run(steps).s.log) == [1, 9]
  {
    hide Run, Intact;
    var a, b := [1, 2], [9];
    steps := HalfSent();
    Extend(steps, Begin(b, false));
    steps := steps + [Begin(b, false)];
    Extend(steps, Hangup);
    steps := steps + [Hangup];
    var s := Run(steps).s;
    assert s == Sock(Connected, [], [], 1, None, None, [Chunk(a, 0, 1)], [], [a], Some(Buf(a, 1)));
    assert Run(steps) == Sys(s, None, [Finished, Start(b, false)], [], 0, Closing);
    Extend(steps, Work(1, 0));
    steps := steps + [Work(1, 0)];
    assert Run(steps) == Sys(s, None, [Finished, Looking(b)], [], 0, Closing);
    Extend(steps, Work(1, 0));
    steps := steps + [Work(1, 0)];
    assert Run(steps) == Sys(s, None, [Finished, Looked(b)], [], 0, Closing);
    Extend(steps, Work(1, 0));
    steps := steps + [Work(1, 0)];
    assert Run(steps) == Sys(s, None, [Finished, Locking(b)], [], 0, Closing);
    Extend(steps, Work(1, 0));
    steps := steps + [Work(1, 0)];
    assert Run(steps) == Sys(s, Some(1), [Finished, Trying(b)], [], 0, Closing);
    Extend(steps, Work(1, 0));
    steps := steps + [Work(1, 0)];
    assert Run(steps) == Sys(s, Some(1), [Finished, SawEmpty(b)], [], 0, Closing);
    Extend(steps, Work(1, 0));
    steps := steps + [Work(1, 0)];
    assert Run(steps) == Sys(s, Some(1), [Finished, Writing(b)], [], 0, Closing);
    Extend(steps, Work(1, 1));
    steps := steps + [Work(1, 1)];
    assert Run(steps).s.log == [Chunk(a, 0, 1)] + [Chunk(b, 0, 1)];
    Interrupted(a, b);
  }

  lemma Interrupted(a: Bytes, b: Bytes)
    requires a == [1, 2] && b == [9]
    ensures var log := [Chunk(a, 0, 1)] + [Chunk(b, 0, 1)]; !Intact(log) && Wire(log) == [1, 9]
  {
    var log := [Chunk(a, 0, 1)] + [Chunk(b, 0, 1)];
    assert log[..1] == [Chunk(a, 0, 1)] && !Follows(log, 1);
    assert Wire(log[..1]) == [1] by { assert log[..1][..0] == []; }
  }

  // ------------------------------------------------------------------ no message is lost or doubled

  function One(b: bool): nat { if b then 1 else 0 }

  /** how often m is among the messages */
  function Copies(msgs: seq<Bytes>, m: Bytes): nat
  {
    if msgs == [] then 0 else One(msgs[0] == m) + Copies(msgs[1..], m)
  }

  function InBufs(bufs: seq<Buf>, m: Bytes): nat
  {
    if bufs == [] then 0 else One(bufs[0].msg == m) + InBufs(bufs[1..], m)
  }

  function InBuf(o: Option<Buf>, m: Bytes): nat { One(o.Some? && o.value.msg == m) }

  function Stock(s: Sock, m: Bytes): nat
  {
    Copies(s.sent, m) + Copies(s.dropped, m) + InBufs(s.high, m) + InBufs(s.low, m) + InBuf(s.dw, m) + InBuf(s.hand, m)
  }

  function Carried(w: Worker, m: Bytes): nat
  {
    One((w.Start? || w.Looking? || w.Looked? || w.Locking? || w.Trying? || w.SawEmpty? || w.Writing? || w.Enqueue? || w.Piping?) && w.msg == m)
  }

  function AllCarried(ws: seq<Worker>, m: Bytes): nat
  {
    if ws == [] then 0 else AllCarried(ws[..|ws| - 1], m) + Carried(ws[|ws| - 1], m)
  }

  function Asked(pipe: seq<Request>, m: Bytes): nat
  {
    if pipe == [] then 0 else One(pipe[0].Send? && pipe[0].msg == m) + Asked(pipe[1..], m)
  }

  /** how often the program handed m to the socket */
  function HandedIn(steps: seq<Step>, m: Bytes): nat
  {
    if steps == [] then 0
    else HandedIn(steps[..|steps| - 1], m) + One(steps[|steps| - 1].Begin? && steps[|steps| - 1].msg == m)
  }

  function Everywhere(y: Sys, m: Bytes): nat
  {
    Stock(y.s, m) + Asked(y.pipe, m) + AllCarried(y.workers, m)
  }

  lemma {:induction false} CopiesConcat(a: seq<Bytes>, b: seq<Bytes>, m: Bytes)
    ensures Copies(a + b, m) == Copies(a, m) + Copies(b, m)
  {
    if a == [] {
      assert a + b == b;
    } else {
      assert (a + b)[1..] == a[1..] + b;
      CopiesConcat(a[1..], b, m);
    }
  }

  lemma CopiesOne(a: seq<Bytes>, x: Bytes, m: Bytes)
    ensures Copies(a + [x], m) == Copies(a, m) + One(x == m)
  {
    CopiesConcat(a, [x], m);
    assert [x][1..] == [];
  }

  lemma {:induction false} CopiesMsgs(bufs: seq<Buf>, m: Bytes)
    ensures Copies(Msgs(bufs), m) == InBufs(bufs, m)
  {
    if bufs != [] {
      assert Msgs(bufs)[1..] == Msgs(bufs[1..]);
      CopiesMsgs(bufs[1..], m);
    }
  }

  lemma {:induction false} InBufsSnoc(bufs: seq<Buf>, b: Buf, m: Bytes)
    ensures InBufs(bufs + [b], m) == InBufs(bufs, m) + One(b.msg == m)
  {
    if bufs == [] {
      assert bufs + [b] == [b] && [b][1..] == [];
    } else {
      assert (bufs + [b])[1..] == bufs[1..] + [b];
      InBufsSnoc(bufs[1..], b, m);
    }
  }

  lemma InBufsCons(b: Buf, bufs: seq<Buf>, m: Bytes)
    ensures InBufs([b] + bufs, m) == One(b.msg == m) + InBufs(bufs, m)
  {
    assert ([b] + bufs)[1..] == bufs;
  }

  lemma FreedKeeps(s: Sock, m: Bytes)
    ensures Stock(FreeLists(s), m) == Stock(s, m)
  {
    hide Copies;
    CopiesConcat(s.dropped + Msgs(s.high), Msgs(s.low), m);
    CopiesConcat(s.dropped, Msgs(s.high), m);
    CopiesMsgs(s.high, m);
    CopiesMsgs(s.low, m);
  }

  lemma CloseFdKeeps(s: Sock, m: Bytes)
    ensures Stock(CloseFd(s), m) == Stock(s, m)
  {
    hide Copies;
    if s.dw.Some? { CopiesOne(s.dropped, s.dw.value.msg, m); } else { assert s.dropped + [] == s.dropped; }
  }

  lemma ForceCloseKeeps(s: Sock, m: Bytes)
    ensures Stock(ForceClose(s), m) == Stock(s, m)
  {
    hide FreeLists, CloseFd, Stock;
    FreedKeeps(s, m);
    CloseFdKeeps(FreeLists(s), m);
  }

  lemma CompleteKeeps(s: Sock, high: bool, m: Bytes)
    requires List(s, high) != [] && Size(List(s, high)[0]) >= 0
    ensures Stock(Complete(s, high), m) == Stock(s, m)
  {
    hide Copies;
    CopiesOne(s.sent, List(s, high)[0].msg, m);
  }

  lemma AdvanceKeeps(s: Sock, high: bool, n: nat, m: Bytes)
    requires List(s, high) != [] && n <= Size(List(s, high)[0])
    ensures Stock(Advance(s, high, n), m) == Stock(s, m)
  {
    hide Copies;
    var bufs := List(s, high);
    InBufsCons(bufs[0].(off := bufs[0].off + n), bufs[1..], m);
  }

  lemma {:induction false} SendListKeeps(s: Sock, high: bool, outs: seq<Outcome>, m: Bytes)
    ensures Stock(SendList(s, high, outs).0, m) == Stock(s, m)
    decreases |outs|
  {
    hide Stock, ForceClose, Advance, Complete;
    var bufs := List(s, high);
    if bufs != [] && outs != [] {
      match outs[0]
      case Interrupted => SendListKeeps(s, high, outs[1..], m);
      case Fail => ForceCloseKeeps(s, m);
      case Accept(k) =>
        var n := if k < Size(bufs[0]) then k else Size(bufs[0]);
        if n >= 0 {
          if n == Size(bufs[0]) {
            CompleteKeeps(s, high, m);
            SendListKeeps(Complete(s, high), high, outs[1..], m);
          } else {
            AdvanceKeeps(s, high, n, m);
          }
        }
      case _ =>
    }
  }

  lemma FlushKeeps(s: Sock, outs: seq<Outcome>, m: Bytes)
    ensures Stock(Flush(s, outs).0, m) == Stock(s, m)
  {
    hide SendList, ForceClose, Stock, Raise, TakeDirect;
    var t := TakeDirect(s);
    TakeDirectKeeps(s, m);
    SendListKeeps(t, true, outs, m);
    var (s1, outs1, closed1) := SendList(t, true, outs);
    ForceCloseKeeps(s1, m);
    SendListKeeps(s1, false, outs1, m);
    var (s2, _, _) := SendList(s1, false, outs1);
    ForceCloseKeeps(s2, m);
    if s1.high == [] {
      HighStays(s1, outs1);
      RaiseKeeps(s2, m);
    }
  }

  lemma TakeDirectKeeps(s: Sock, m: Bytes)
    ensures Stock(TakeDirect(s), m) == Stock(s, m)
  {
    if s.dw.Some? { InBufsCons(s.dw.value, s.high, m); }
  }

  lemma RaiseKeeps(s: Sock, m: Bytes)
    requires s.high == []
    ensures s.low != [] ==> Stock(Raise(s), m) == Stock(s, m)
  {
    if s.low != [] {
      assert [s.low[0]][1..] == [];
    }
  }

  lemma {:induction false} HighStays(s: Sock, outs: seq<Outcome>)
    requires s.high == []
    ensures SendList(s, false, outs).0.high == []
    decreases |outs|
  {
    if s.low != [] && outs != [] {
      match outs[0]
      case Interrupted => HighStays(s, outs[1..]);
      case Accept(k) => if k >= Size(s.low[0]) >= 0 { HighStays(Complete(s, false), outs[1..]); }
      case _ =>
    }
  }

  lemma SendSocketKeeps(s: Sock, msg: Bytes, low: bool, m: Bytes)
    ensures Stock(SendSocket(s, msg, low), m) == Stock(s, m) + One(msg == m)
  {
    hide Copies, InBufs;
    CopiesOne(s.dropped, msg, m);
    InBufsSnoc(s.high, Buf(msg, 0), m);
    InBufsSnoc(s.low, Buf(msg, 0), m);
  }

  lemma {:induction false} CarriedUpdate(ws: seq<Worker>, i: nat, w: Worker, m: Bytes)
    requires i < |ws|
    ensures AllCarried(ws[i := w], m) == AllCarried(ws, m) - Carried(ws[i], m) + Carried(w, m)
    ensures AllCarried(ws, m) >= Carried(ws[i], m)
  {
    hide Carried;
    var n := |ws| - 1;
    if i < n {
      CarriedUpdate(ws[..n], i, w, m);
      assert ws[i := w][..n] == ws[..n][i := w];
    } else {
      assert ws[i := w][..n] == ws[..n];
    }
  }

  lemma CarriedSnoc(ws: seq<Worker>, w: Worker, m: Bytes)
    ensures AllCarried(ws + [w], m) == AllCarried(ws, m) + Carried(w, m)
  {
    assert (ws + [w])[..|ws|] == ws;
  }

  lemma {:induction false} AskedSnoc(pipe: seq<Request>, r: Request, m: Bytes)
    ensures Asked(pipe + [r], m) == Asked(pipe, m) + One(r.Send? && r.msg == m)
  {
    if pipe == [] {
      assert pipe + [r] == [r] && [r][1..] == [];
    } else {
      assert (pipe + [r])[1..] == pipe[1..] + [r];
      AskedSnoc(pipe[1..], r, m);
    }
  }

  lemma ActKeeps(y: Sys, i: nat, n: nat, m: Bytes)
    requires Locked(y) && i < |y.workers|
    ensures Everywhere(Act(y, i, n), m) == Everywhere(y, m)
  {
    hide Stock, Asked, AllCarried, DirectWrite, StoreDirect, Dropped, Locked;
    var y', w := Act(y, i, n), y.workers[i];
    assert y'.workers == y.workers[i := y'.workers[i]];
    CarriedUpdate(y.workers, i, y'.workers[i], m);
    match w
    case Start(msg, _) => DroppedStock(y.s, msg, m);
    case Piping(msg, low) => AskedSnoc(y.pipe, Send(msg, low), m);
    case Writing(msg) => HandFree(y, i); DirectStock(y.s, msg, n, m);
    case Wrote(_, _) => HandFree(y, i); StoredStock(y.s, m);
    case _ =>
  }

  /** what the lock holder knows of the two buffers of a direct write */
  lemma HandFree(y: Sys, i: nat)
    requires Locked(y) && i < |y.workers| && (y.workers[i].Writing? || y.workers[i].Wrote?)
    ensures y.s.dw.None? && (y.workers[i].Writing? ==> y.s.hand.None?)
  {
    assert Holding(y.workers[i]);
  }

  lemma DroppedStock(s: Sock, msg: Bytes, m: Bytes)
    ensures Stock(Dropped(s, msg), m) == Stock(s, m) + One(msg == m)
  {
    hide Copies, InBufs;
    CopiesOne(s.dropped, msg, m);
  }

  lemma DirectStock(s: Sock, msg: Bytes, n: nat, m: Bytes)
    requires s.hand.None?
    ensures Stock(DirectWrite(s, msg, n), m) == Stock(s, m) + One(msg == m)
  {
    hide Copies, InBufs, Emit;
    CopiesOne(s.sent, msg, m);
  }

  lemma StoredStock(s: Sock, m: Bytes)
    requires s.dw.None?
    ensures Stock(StoreDirect(s), m) == Stock(s, m)
  {
    hide Copies, InBufs;
  }

  lemma ExecuteKeeps(y: Sys, outs: seq<Outcome>, m: Bytes)
    requires y.pipe != []
    ensures Everywhere(Execute(y, outs), m) == Everywhere(y, m)
  {
    hide Stock, AllCarried, Flush, SendSocket;
    FlushKeeps(y.s, outs, m);
    if y.pipe[0].Send? { SendSocketKeeps(y.s, y.pipe[0].msg, y.pipe[0].low, m); }
  }

  lemma StepKeeps(y: Sys, step: Step, m: Bytes)
    requires Locked(y)
    ensures Everywhere(Take(y, step), m) == Everywhere(y, m) + One(step.Begin? && step.msg == m)
  {
    hide Locked, Stock, Asked, AllCarried, Flush, Act, FreeLists, CloseFd, Execute;
    match step
    case Begin(msg, low) => CarriedSnoc(y.workers, Start(msg, low), m);
    case AskClose(b) => AskedSnoc(y.pipe, Kill(b), m);
    case Work(i, n) => if i < |y.workers| { ActKeeps(y, i, n, m); }
    case Poll(outs) => FlushKeeps(y.s, outs, m);
    case Command(outs) => if y.thread.Ready? && y.pipe != [] { ExecuteKeeps(y, outs, m); }
    case Continue => FreedKeeps(y.s, m); CloseFdKeeps(y.s, m); HalfCloseKeeps(y.s, m);
    case Hangup => FreedKeeps(y.s, m);
  }

  lemma HalfCloseKeeps(s: Sock, m: Bytes)
    ensures Stock(s.(kind := HalfClose), m) == Stock(s, m)
  {
  }

  lemma StepLocked(y: Sys, step: Step)
    requires Locked(y) && (y.thread.Deciding? || y.thread.Closing? ==> y.s.kind != Invalid)
    ensures var y' := Take(y, step);
            Locked(y') && (y'.thread.Deciding? || y'.thread.Closing? ==> y'.s.kind != Invalid)
  {
    hide Flush, SendList, Emit, Act, Locked;
    UnlockedHand(y);
    var y' := Take(y, step);
    match step
    case Begin(m, low) => BeginLocked(y, m, low);
    case Work(i, n) => if i < |y.workers| { ActLocked(y, i, n); ActThread(y, i, n); }
    case Poll(outs) => FlushGrows(y.s, outs); ThreadLocked(y, y');
    case Command(outs) =>
      if y.thread.Ready? && y.pipe != [] {
        FlushGrows(y.s, outs);
        FlushAlive(y.s, outs);
        if y.pipe[0].Send? { SendKeeps(y.s, y.pipe[0].msg, y.pipe[0].low); }
        ThreadLocked(y, y');
      }
    case _ => ThreadLocked(y, y');
  }

  lemma BeginLocked(y: Sys, m: Bytes, low: bool)
    requires Locked(y)
    ensures Locked(Take(y, Begin(m, low)))
  {
  }

  lemma {:induction false} SendListAlive(s: Sock, high: bool, outs: seq<Outcome>)
    ensures !SendList(s, high, outs).2 ==> SendList(s, high, outs).0.kind == s.kind
    decreases |outs|
  {
    var bufs := List(s, high);
    if bufs != [] && outs != [] {
      match outs[0]
      case Interrupted => SendListAlive(s, high, outs[1..]);
      case Accept(k) => if k >= Size(bufs[0]) >= 0 { SendListAlive(Complete(s, high), high, outs[1..]); }
      case _ =>
    }
  }

  lemma FlushAlive(s: Sock, outs: seq<Outcome>)
    ensures !Flush(s, outs).1 ==> Flush(s, outs).0.kind == s.kind
  {
    hide SendList;
    var t := TakeDirect(s);
    SendListAlive(t, true, outs);
    var (s1, outs1, _) := SendList(t, true, outs);
    SendListAlive(s1, false, outs1);
  }

  /** In every run, disturbed or not, every message handed in is in exactly one place: sent,
      dropped, waiting in a list or in dw, in the pipe, or with the worker that is sending it. */
  lemma {:induction false} EveryMessageOnce(steps: seq<Step>, m: Bytes)
    ensures Everywhere(Run(steps), m) == HandedIn(steps, m)
  {
    hide Take, Everywhere;
    if steps == [] {
      assert Everywhere(INIT, m) == 0 by { StartState(m); }
    } else {
      var n := |steps| - 1;
      EveryMessageOnce(steps[..n], m);
      RunLocked(steps[..n]);
      StepKeeps(Run(steps[..n]), steps[n], m);
    }
  }

  lemma {:induction false} RunLocked(steps: seq<Step>)
    ensures Locked(Run(steps)) && (Run(steps).thread.Deciding? || Run(steps).thread.Closing? ==> Run(steps).s.kind != Invalid)
  {
    hide Take, Locked;
    if steps == [] {
      StartLocked();
    } else {
      var before, step := steps[..|steps| - 1], steps[|steps| - 1];
      RunLocked(before);
      StepLocked(Run(before), step);
      assert Run(steps) == Take(Run(before), step);
    }
  }

  lemma StartState(m: Bytes)
    ensures Everywhere(INIT, m) == 0 && Locked(INIT)
  {
  }

  lemma StartLocked()
    ensures Locked(INIT) && Run([]) == INIT
  {
  }

  /** In every run a direct write only ever touches an open descriptor, and only with the lock. */
  lemma WritesAreOpen(steps: seq<Step>, i: nat)
    requires i < |Run(steps).workers| && (Run(steps).workers[i].Writing? || Run(steps).workers[i].Wrote?)
    ensures Run(steps).s.kind != Invalid && Run(steps).lock == Some(i)
  {
    hide Run;
    RunLocked(steps);
    assert Holding(Run(steps).workers[i]);
  }
}
