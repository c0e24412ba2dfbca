/** What each sender can rely on. */
module SocketSenders {
  // A worker pipes or writes its own message, with its own priority; and because it looks at the
  // socket twice, a direct write does not overtake what was piped before its send began.

  import opened SocketWrite
  import opened SocketRace
  import opened SocketOrder

  // ------------------------------------------------------------------ its own message

  datatype Order = Order(msg: Bytes, low: bool)

  /** the messages handed in so far; worker i sends the i-th one */
  function Orders(steps: seq<Step>): seq<Order>
  {
    if steps == [] then []
    else
      var before, step := Orders(steps[..|steps| - 1]), steps[|steps| - 1];
      if step.Begin? then before + [Order(step.msg, step.low)] else before
  }

  predicate Carries(w: Worker, o: Order)
  {
    match w
    case Start(m, low) => o == Order(m, low)
    case Looking(m) => o == Order(m, false)
    case Looked(m) => o == Order(m, false)
    case Locking(m) => o == Order(m, false)
    case Trying(m) => o == Order(m, false)
    case SawEmpty(m) => o == Order(m, false)
    case Writing(m) => o == Order(m, false)
    case Wrote(m, _) => o == Order(m, false)
    case Unlocking => !o.low
    case Enqueue(m, low) => o == Order(m, low)
    case Piping(m, low) => o == Order(m, low)
    case Finished => true
  }

  predicate AllCarry(y: Sys, orders: seq<Order>)
  {
    |y.workers| == |orders| && forall i :: 0 <= i < |orders| ==> Carries(y.workers[i], orders[i])
  }

  lemma ActCarries(y: Sys, i: nat, n: nat, orders: seq<Order>)
    requires AllCarry(y, orders) && i < |y.workers|
    ensures AllCarry(Act(y, i, n), orders)
  {
    hide DirectWrite, StoreDirect, Dropped;
    var y' := Act(y, i, n);
    assert Carries(y.workers[i], orders[i]);
    assert forall k :: 0 <= k < |orders| && k != i ==> y'.workers[k] == y.workers[k];
  }

  lemma StepCarries(y: Sys, step: Step, orders: seq<Order>)
    requires AllCarry(y, orders)
    ensures AllCarry(Take(y, step), if step.Begin? then orders + [Order(step.msg, step.low)] else orders)
  {
    hide Flush, Act, FreeLists, CloseFd, SendSocket;
    if step.Work? && step.i < |y.workers| { ActCarries(y, step.i, step.n, orders); }
  }

  lemma {:induction false} RunCarries(steps: seq<Step>)
    ensures AllCarry(Run(steps), Orders(steps))
  {
    hide Take, AllCarry;
    if steps == [] {
      assert AllCarry(INIT, []) by { InitCarries(); }
    } else {
      RunCarries(steps[..|steps| - 1]);
      StepCarries(Run(steps[..|steps| - 1]), steps[|steps| - 1], Orders(steps[..|steps| - 1]));
    }
  }

  lemma InitCarries()
    ensures AllCarry(INIT, [])
  {
  }

  /** What a worker puts into the pipe is the message it was given, with its priority. */
  lemma PipesItsMessage(steps: seq<Step>, i: nat, n: nat)
    requires i < |Run(steps).workers| && Run(steps).workers[i].Piping?
    ensures i < |Orders(steps)|
    ensures Run(steps + [Work(i, n)]).pipe == Run(steps).pipe + [Send(Orders(steps)[i].msg, Orders(steps)[i].low)]
  {
    hide Run, Orders;
    RunCarries(steps);
    Extend(steps, Work(i, n));
    assert Carries(Run(steps).workers[i], Orders(steps)[i]);
  }

  /** What it writes is that message too, and never one of low priority. */
  lemma WritesItsMessage(steps: seq<Step>, i: nat, n: nat)
    requires i < |Run(steps).workers| && Run(steps).workers[i].Writing?
    ensures i < |Orders(steps)| && !Orders(steps)[i].low
    ensures Enters(Run(steps), Work(i, n)) == [Event(Direct, Orders(steps)[i].msg)]
  {
    hide Run, Orders;
    RunCarries(steps);
    assert Carries(Run(steps).workers[i], Orders(steps)[i]);
  }

  // ------------------------------------------------------------------ the sending count, in every run

  lemma StepCounted(y: Sys, step: Step)
    requires CountedSends(y)
    ensures CountedSends(Take(y, step))
  {
    hide Flush, Act, FreeLists, CloseFd, SendSocket;
    match step
    case Begin(m, low) => assert (y.workers + [Start(m, low)])[..|y.workers|] == y.workers;
    case AskClose(b) => SendsSnoc(y.pipe, Kill(b));
    case Work(i, n) => if i < |y.workers| { ActCounted(y, i, n); }
    case _ =>
  }

  lemma {:induction false} RunCounted(steps: seq<Step>)
    ensures CountedSends(Run(steps))
  {
    hide Take, CountedSends;
    if steps == [] {
      assert CountedSends(INIT) by { InitCounted(); }
    } else {
      RunCounted(steps[..|steps| - 1]);
      StepCounted(Run(steps[..|steps| - 1]), steps[|steps| - 1]);
    }
  }

  lemma InitCounted()
    ensures CountedSends(INIT)
  {
  }

  // ------------------------------------------------------------------ earlier messages

  /** how many messages were put into the pipe by a step, and so far */
  function PipedBy(y: Sys, step: Step): nat
  {
    if step.Work? && step.i < |y.workers| && y.workers[step.i].Piping? then 1 else 0
  }

  function Pushed(steps: seq<Step>): nat
  {
    if steps == [] then 0 else Pushed(steps[..|steps| - 1]) + PipedBy(Run(steps[..|steps| - 1]), steps[|steps| - 1])
  }

  /** how many of the events are messages from the pipe */
  function Pops(ev: seq<Event>): nat
  {
    if ev == [] then 0 else Pops(ev[..|ev| - 1]) + if ev[|ev| - 1].source == Direct then 0 else 1
  }

  lemma {:induction false} PopsConcat(a: seq<Event>, b: seq<Event>)
    ensures Pops(a + b) == Pops(a) + Pops(b)
  {
    if b == [] {
      assert a + b == a;
    } else {
      assert (a + b)[..|a + b| - 1] == a + b[..|b| - 1];
      PopsConcat(a, b[..|b| - 1]);
    }
  }

  predicate AllPushed(y: Sys, pushed: nat, ev: seq<Event>)
  {
    pushed == Pops(ev) + SendsIn(y.pipe)
  }

  lemma StepPushed(y: Sys, step: Step, pushed: nat, ev: seq<Event>)
    requires AllPushed(y, pushed, ev)
    ensures AllPushed(Take(y, step), pushed + PipedBy(y, step), ev + Enters(y, step))
  {
    hide Flush, FreeLists, CloseFd, SendSocket, Pops;
    PopsConcat(ev, Enters(y, step));
    EnterPops(y, step);
    match step
    case AskClose(b) => SendsSnoc(y.pipe, Kill(b));
    case Work(i, n) => if i < |y.workers| { ActPipes(y, i, n); }
    case _ =>
  }

  lemma EnterPops(y: Sys, step: Step)
    ensures Pops(Enters(y, step)) == if step.Command? && y.thread.Ready? && y.pipe != [] && y.pipe[0].Send? then 1 else 0
  {
    var e := Enters(y, step);
    if e != [] { assert e[..0] == [] && Pops(e[..0]) == 0; }
  }

  lemma ActPipes(y: Sys, i: nat, n: nat)
    requires i < |y.workers|
    ensures SendsIn(Act(y, i, n).pipe) == SendsIn(y.pipe) + PipedBy(y, Work(i, n))
  {
    hide DirectWrite, StoreDirect, Dropped;
    var w := y.workers[i];
    if w.Piping? { SendsSnoc(y.pipe, Send(w.msg, w.low)); }
  }

  lemma {:induction false} RunPushed(steps: seq<Step>)
    ensures AllPushed(Run(steps), Pushed(steps), Events(steps))
  {
    hide Take, Enters, AllPushed, PipedBy;
    if steps == [] {
      assert AllPushed(INIT, 0, []) by { InitPushed(); }
    } else {
      var before := steps[..|steps| - 1];
      RunPushed(before);
      StepPushed(Run(before), steps[|steps| - 1], Pushed(before), Events(before));
    }
  }

  lemma InitPushed()
    ensures AllPushed(INIT, 0, [])
  {
  }

  // ------------------------------------------------------------------ no earlier message is overtaken

  /** the first look is over, and it found nothing under way */
  predicate Past(w: Worker) { w.Locking? || w.Trying? || w.SawEmpty? || w.Writing? || w.Wrote? }

  /** what the last n places hold came behind the first k messages from the pipe */
  predicate Late(from: seq<nat>, ev: seq<Event>, n: nat, k: nat)
  {
    forall j :: 0 <= j < |from| && |from| - n <= j ==> from[j] <= |ev| && Pops(ev[..from[j]]) >= k
  }

  /** worker i, that began when k messages were in the pipe or past it */
  predicate Behind(y: Sys, from: seq<nat>, ev: seq<Event>, pushed: nat, i: nat, k: nat)
  {
    && i < |y.workers| && k <= pushed
    && (Past(y.workers[i]) ==> Pops(ev) >= k)
    && (Decided(y.workers[i]) ==> Late(from, ev, |Queue(y.s)|, k))
  }

  lemma InsertAt(from: seq<nat>, at: nat, x: nat, j: nat)
    requires at <= |from| && j <= |from|
    ensures |Insert(from, at, x)| == |from| + 1 && Insert(from, at, x)[j] == if j == at then x else from[Former(at, j)]
  {
  }

  lemma LateInsert(from: seq<nat>, ev: seq<Event>, at: nat, e: Event, n: nat, k: nat)
    requires at <= |from| <= at + n && Late(from, ev, n, k) && Pops(ev) >= k
    ensures Late(Insert(from, at, |ev|), ev + [e], n + 1, k)
  {
    hide Pops, Insert;
    var f', ev' := Insert(from, at, |ev|), ev + [e];
    InsertAt(from, at, |ev|, 0);
    forall j | 0 <= j < |f'| && |f'| - (n + 1) <= j ensures f'[j] <= |ev'| && Pops(ev'[..f'[j]]) >= k {
      InsertAt(from, at, |ev|, j);
      if j == at {
        assert ev'[..|ev|] == ev;
      } else {
        var m := Former(at, j);
        assert from[m] <= |ev| && Pops(ev[..from[m]]) >= k;
        assert ev'[..from[m]] == ev[..from[m]];
      }
    }
  }

  lemma LateMore(from: seq<nat>, ev: seq<Event>, more: seq<Event>, n: nat, k: nat)
    requires Late(from, ev, n, k)
    ensures Late(from, ev + more, n, k)
  {
    hide Pops;
    forall j | 0 <= j < |from| && |from| - n <= j ensures from[j] <= |ev + more| && Pops((ev + more)[..from[j]]) >= k {
      assert (ev + more)[..from[j]] == ev[..from[j]];
    }
  }

  lemma NothingWaits(from: seq<nat>, ev: seq<Event>, k: nat)
    ensures Late(from, ev, 0, k)
  {
  }

  /** worker i's own step */
  lemma OwnBehind(y: Sys, n: nat, from: seq<nat>, from': seq<nat>, ev: seq<Event>, pushed: nat, i: nat, k: nat)
    requires Behind(y, from, ev, pushed, i, k) && CountedSends(y) && AllPushed(y, pushed, ev)
    requires y.workers[i].SawEmpty? ==> from' == from
    ensures var step := Work(i, n); Behind(Take(y, step), from', ev + Enters(y, step), pushed + PipedBy(y, step), i, k)
  {
    hide DirectWrite, StoreDirect, Dropped, Pops, Late, Queue, Enters;
    var step := Work(i, n);
    PopsConcat(ev, Enters(y, step));
    NothingWaits(from', ev + Enters(y, step), k);
    EmptyQueue(y.s);
    var w := y.workers[i];
    if w.SawEmpty? {
      LateMore(from, ev, Enters(y, step), |Queue(y.s)|, k);
    }
  }

  lemma EmptyQueue(s: Sock)
    ensures Empty(s) ==> |Queue(s)| == 0
  {
  }

  /** a step of anybody else */
  lemma OtherBehind(y: Sys, step: Step, from: seq<nat>, from': seq<nat>, ev: seq<Event>, pushed: nat, i: nat, k: nat)
    requires Behind(y, from, ev, pushed, i, k)
    requires var y' := Take(y, step); i < |y'.workers| && y'.workers[i] == y.workers[i]
    requires Decided(y.workers[i]) ==>
               var y' := Take(y, step);
               || |Queue(y'.s)| == 0
               || (from' == from && |Queue(y'.s)| == |Queue(y.s)|)
               || (exists at: nat, e :: at <= |from| <= at + |Queue(y.s)| && Enters(y, step) == [e] && from' == Insert(from, at, |ev|) && |Queue(y'.s)| == |Queue(y.s)| + 1)
    ensures Behind(Take(y, step), from', ev + Enters(y, step), pushed + PipedBy(y, step), i, k)
  {
    hide Pops, Late, Take, Queue, Enters, Insert;
    var y' := Take(y, step);
    PopsConcat(ev, Enters(y, step));
    NothingWaits(from', ev + Enters(y, step), k);
    if Decided(y.workers[i]) && |Queue(y'.s)| > 0 {
      if from' == from && |Queue(y'.s)| == |Queue(y.s)| {
        LateMore(from, ev, Enters(y, step), |Queue(y.s)|, k);
      } else {
        var at: nat, e :| at <= |from| <= at + |Queue(y.s)| && Enters(y, step) == [e] && from' == Insert(from, at, |ev|) && |Queue(y'.s)| == |Queue(y.s)| + 1;
        LateInsert(from, ev, at, e, |Queue(y.s)|, k);
      }
    }
  }

  /** What a step of anybody else does to a line whose end a worker relies on. */
  lemma OthersStep(y: Sys, step: Step, from: seq<nat>, ev: seq<Event>, i: nat)
    requires Locked(y) && Placed(y, from, ev) && i < |y.workers| && !(step.Work? && step.i == i)
    ensures i < |Take(y, step).workers| && Take(y, step).workers[i] == y.workers[i]
    ensures Decided(y.workers[i]) ==>
              var y', from' := Take(y, step), Onward(y, step, from, |ev|);
              || |Queue(y'.s)| == 0
              || (from' == from && |Queue(y'.s)| == |Queue(y.s)|)
              || (exists at: nat, e :: at <= |from| <= at + |Queue(y.s)| && Enters(y, step) == [e] && from' == Insert(from, at, |ev|) && |Queue(y'.s)| == |Queue(y.s)| + 1)
  {
    hide Flush, Line, Placed, Insert, SendSocket, FreeLists, CloseFd, DirectWrite, StoreDirect, Dropped, Queue, Cut;
    PlacedSize(y, from, ev);
    match step
    case Work(j, n) => if j < |y.workers| { OtherWork(y, j, n, from, ev, i); } else { CutSame(from); }
    case Command(outs) =>
      if Decided(y.workers[i]) {
        LockHolder(y, i);
        if y.thread.Ready? && y.pipe != [] && y.pipe[0].Send? { OtherPop(y, outs, from, ev); } else { CutSame(from); }
      }
    case Poll(_) => if Decided(y.workers[i]) { LockHolder(y, i); CutSame(from); }
    case Hangup => FreedQueue(y.s); CutSame(from);
    case Continue =>
      if Decided(y.workers[i]) { LockHolder(y, i); }
      FreedQueue(y.s);
      HalfLine(y.s);
      CutSame(from);
    case _ => CutSame(from);
  }

  lemma PlacedSize(y: Sys, from: seq<nat>, ev: seq<Event>)
    requires Placed(y, from, ev)
    ensures |from| == |Line(y.s)|
  {
  }

  lemma CutSame(from: seq<nat>)
    ensures Cut(from, |from|) == from
  {
  }

  lemma FreedQueue(s: Sock)
    ensures |Queue(FreeLists(s))| == 0
  {
  }

  lemma OtherWork(y: Sys, j: nat, n: nat, from: seq<nat>, ev: seq<Event>, i: nat)
    requires Locked(y) && |from| == |Line(y.s)| && j < |y.workers| && i < |y.workers| && i != j
    ensures Act(y, j, n).workers[i] == y.workers[i]
    ensures Decided(y.workers[i]) ==> Onward(y, Work(j, n), from, |ev|) == from && Queue(Act(y, j, n).s) == Queue(y.s)
  {
    hide Line, DirectWrite, StoreDirect, Dropped, Queue, Cut;
    if Decided(y.workers[i]) {
      LockHolder(y, i);
      assert !Holding(y.workers[j]);
      CutSame(from);
      if y.workers[j].Start? { DroppedLine(y.s, y.workers[j].msg); }
    }
  }

  lemma OtherPop(y: Sys, outs: seq<Outcome>, from: seq<nat>, ev: seq<Event>)
    requires |from| == |Line(y.s)| && y.thread.Ready? && y.pipe != [] && y.pipe[0].Send?
    ensures var y', from' := Take(y, Command(outs)), Onward(y, Command(outs), from, |ev|);
            || (from' == from && |Queue(y'.s)| == |Queue(y.s)|)
            || (exists at: nat, e :: at <= |from| <= at + |Queue(y.s)| && Enters(y, Command(outs)) == [e] && from' == Insert(from, at, |ev|) && |Queue(y'.s)| == |Queue(y.s)| + 1)
  {
    hide Line, SendSocket, Dropped, Insert, Cut;
    var step := Command(outs);
    if y.s.kind == Connected {
      SendQueue(y.s, y.pipe[0].msg, y.pipe[0].low);
      var at := Place(y, step);
      assert Enters(y, step) == [Enters(y, step)[0]] && at <= |from| <= at + |Queue(y.s)|;
    } else {
      NotQueued(y, outs);
      DroppedLine(y.s, y.pipe[0].msg);
      CutSame(from);
    }
  }

  lemma StepBehind(y: Sys, step: Step, from: seq<nat>, ev: seq<Event>, pushed: nat, i: nat, k: nat)
    requires Behind(y, from, ev, pushed, i, k) && CountedSends(y) && AllPushed(y, pushed, ev) && Locked(y) && Placed(y, from, ev)
    ensures Behind(Take(y, step), Onward(y, step, from, |ev|), ev + Enters(y, step), pushed + PipedBy(y, step), i, k)
  {
    hide Behind, Take, CountedSends, AllPushed, Locked, Placed, Onward, Enters, Insert, Queue;
    assert i < |y.workers| by { BehindIn(y, from, ev, pushed, i, k); }
    if step.Work? && step.i == i {
      OwnFrom(y, step.n, from, ev, i);
      OwnBehind(y, step.n, from, Onward(y, step, from, |ev|), ev, pushed, i, k);
    } else {
      OthersStep(y, step, from, ev, i);
      OtherBehind(y, step, from, Onward(y, step, from, |ev|), ev, pushed, i, k);
    }
  }

  lemma BehindIn(y: Sys, from: seq<nat>, ev: seq<Event>, pushed: nat, i: nat, k: nat)
    requires Behind(y, from, ev, pushed, i, k)
    ensures i < |y.workers|
  {
  }

  lemma OwnFrom(y: Sys, n: nat, from: seq<nat>, ev: seq<Event>, i: nat)
    requires Placed(y, from, ev) && i < |y.workers|
    ensures y.workers[i].SawEmpty? ==> Onward(y, Work(i, n), from, |ev|) == from
  {
    hide Line, Placed, Cut;
    PlacedSize(y, from, ev);
    CutSame(from);
  }

  lemma {:induction false} RunBehind(before: seq<Step>, m: Bytes, more: seq<Step>)
    ensures var steps := before + [Begin(m, false)] + more;
            Behind(Run(steps), From(steps), Events(steps), Pushed(steps), |Run(before).workers|, Pushed(before))
  {
    hide Take, Behind, Enters, Onward, PipedBy, CountedSends, AllPushed, Locked, Placed;
    var begun := before + [Begin(m, false)];
    if more == [] {
      assert begun + [] == begun;
      Extend(before, Begin(m, false));
      PushedSnoc(before, Begin(m, false));
      JustBegun(Run(before), m, From(begun), Events(begun), Pushed(before));
    } else {
      var front, step := more[..|more| - 1], more[|more| - 1];
      var steps := begun + front;
      assert begun + more == steps + [step] && (begun + more)[..|begun + more| - 1] == steps;
      RunBehind(before, m, front);
      RunCounted(steps);
      RunPushed(steps);
      RunLocked(steps);
      RunPlaced(steps);
      StepBehind(Run(steps), step, From(steps), Events(steps), Pushed(steps), |Run(before).workers|, Pushed(before));
    }
  }

  lemma PushedSnoc(steps: seq<Step>, step: Step)
    ensures Pushed(steps + [step]) == Pushed(steps) + PipedBy(Run(steps), step)
  {
    assert (steps + [step])[..|steps|] == steps;
  }

  lemma JustBegun(y: Sys, m: Bytes, from: seq<nat>, ev: seq<Event>, pushed: nat)
    ensures Behind(Take(y, Begin(m, false)), from, ev, pushed + PipedBy(y, Begin(m, false)), |y.workers|, pushed)
  {
  }

  /** A direct write overtakes nothing that was in the pipe when its send began: at the time of the
      write all of that has left the pipe, and whatever waits in the lists came behind all of it. */
  lemma NothingOvertaken(before: seq<Step>, m: Bytes, more: seq<Step>)
    ensures var steps, i := before + [Begin(m, false)] + more, |Run(before).workers|;
            var y, from, ev := Run(steps), From(steps), Events(steps);
            && i < |y.workers|
            && (y.workers[i].Writing? ==> Pops(ev) >= Pushed(before))
            && (y.workers[i].Writing? ==>
                  forall j :: |from| - |Queue(y.s)| <= j < |from| ==>
                    0 <= j && from[j] < |ev| && ev[from[j]].source != Direct && Pops(ev[..from[j]]) >= Pushed(before))
  {
    hide Run, From, Events, Pushed, Pops, Line, Queue;
    var steps, i := before + [Begin(m, false)] + more, |Run(before).workers|;
    RunBehind(before, m, more);
    RunPlaced(steps);
    LowInQueue(Run(steps).s);
    var from, ev := From(steps), Events(steps);
    if Run(steps).workers[i].Writing? {
      assert LastAre(from, ev, |Queue(Run(steps).s)|, false) && Late(from, ev, |Queue(Run(steps).s)|, Pushed(before));
    }
  }

  /** When the second look lets a worker write, nobody's message is in the pipe or on its way there. */
  lemma DecidesAlone(steps: seq<Step>, i: nat, n: nat)
    requires i < |Run(steps).workers| && Run(steps).workers[i].SawEmpty? && Act(Run(steps), i, n).workers[i].Writing?
    ensures var y := Run(steps);
            && SendsIn(y.pipe) == 0 && PipingSum(y.workers) == 0 && !y.thread.Counting? && y.s.dw.None? && y.s.kind == Connected
            && y.lock == Some(i)
  {
    hide Run, SendsIn, PipingSum;
    RunCounted(steps);
    RunLocked(steps);
    LockHolder(Run(steps), i);
  }

  // ------------------------------------------------------------------ a send without disturbance

  /** k steps of worker i, and of nobody else */
  function Works(y: Sys, i: nat, n: nat, k: nat): (r: Sys)
    requires i < |y.workers|
    ensures |r.workers| == |y.workers|
    decreases k
  {
    if k == 0 then y else Works(Act(y, i, n), i, n, k - 1)
  }

  lemma AtTwice(y: Sys, i: nat, v: Worker, w: Worker)
    requires i < |y.workers|
    ensures At(At(y, i, v), i, w) == At(y, i, w)
  {
  }

  lemma Next(y: Sys, i: nat, n: nat, k: nat, y': Sys)
    requires i < |y.workers| && Act(y, i, n) == y'
    ensures i < |y'.workers| && Works(y, i, n, k + 1) == Works(y', i, n, k)
  {
    assert Works(y, i, n, k + 1) == Works(Act(y, i, n), i, n, k);
  }

  /** On an open socket with nothing under way a normal message is written directly; what the kernel
      does not take is left for the socket thread. */
  lemma DirectCall(y: Sys, i: nat, m: Bytes, n: nat)
    requires i < |y.workers| && y.workers[i] == Start(m, false) && Empty(y.s) && Writable(y) && y.lock.None?
    ensures n >= |m| ==> Works(y, i, n, 8) == At(y.(s := y.s.(log := Emit(y.s.log, m, 0, |m|), sent := y.s.sent + [m])), i, Finished)
    ensures n < |m| ==> Works(y, i, n, 9) == At(y.(s := y.s.(log := Emit(y.s.log, m, 0, n), dw := Some(Buf(m, n)), hand := None)), i, Finished)
  {
    hide Works, Emit;
    LooksTwice(y, i, m, n, 2);
    LooksTwice(y, i, m, n, 3);
    var x := At(y.(lock := Some(i)), i, Writing(m));
    var z := At(y.(lock := Some(i), s := DirectWrite(y.s, m, n)), i, if n >= |m| then Unlocking else Wrote(m, n));
    AtTwice(y.(lock := Some(i), s := DirectWrite(y.s, m, n)), i, Writing(m), if n >= |m| then Unlocking else Wrote(m, n));
    Next(x, i, n, 1, z);
    Next(x, i, n, 2, z);
    if n >= |m| {
      Unlocks(z, y.(s := DirectWrite(y.s, m, n)), i, n);
    } else {
      var u := At(z.(s := StoreDirect(z.s)), i, Unlocking);
      Next(z, i, n, 1, u);
      AtTwice(y.(lock := Some(i), s := StoreDirect(z.s)), i, Wrote(m, n), Unlocking);
      Unlocks(u, y.(s := StoreDirect(z.s)), i, n);
    }
  }

  lemma Unlocks(z: Sys, y: Sys, i: nat, n: nat)
    requires i < |y.workers| && z == At(y.(lock := Some(i)), i, Unlocking) && y.lock.None?
    ensures Works(z, i, n, 1) == At(y, i, Finished)
  {
    AtTwice(y, i, Unlocking, Finished);
    assert Act(z, i, n) == At(y, i, Finished);
    assert Works(At(y, i, Finished), i, n, 0) == At(y, i, Finished);
  }

  lemma LooksTwice(y: Sys, i: nat, m: Bytes, n: nat, k: nat)
    requires i < |y.workers| && y.workers[i] == Start(m, false) && Empty(y.s) && Writable(y) && y.lock.None?
    ensures Works(y, i, n, 6 + k) == Works(At(y.(lock := Some(i)), i, Writing(m)), i, n, k)
  {
    hide Works;
    var l := y.(lock := Some(i));
    Next(y, i, n, 5 + k, At(y, i, Looking(m)));
    AtTwice(y, i, Looking(m), Looked(m));
    Next(At(y, i, Looking(m)), i, n, 4 + k, At(y, i, Looked(m)));
    AtTwice(y, i, Looked(m), Locking(m));
    Next(At(y, i, Looked(m)), i, n, 3 + k, At(y, i, Locking(m)));
    AtTwice(l, i, Locking(m), Trying(m));
    Next(At(y, i, Locking(m)), i, n, 2 + k, At(l, i, Trying(m)));
    AtTwice(l, i, Trying(m), SawEmpty(m));
    Next(At(l, i, Trying(m)), i, n, 1 + k, At(l, i, SawEmpty(m)));
    AtTwice(l, i, SawEmpty(m), Writing(m));
    Next(At(l, i, SawEmpty(m)), i, n, k, At(l, i, Writing(m)));
  }

  /** A low message, and one that something is in the way of, goes into the pipe. */
  lemma PipeCall(y: Sys, i: nat, m: Bytes, low: bool, n: nat) returns (k: nat)
    requires i < |y.workers| && y.workers[i] == Start(m, low) && y.s.kind != Invalid && y.sending < MAX_SENDING
    requires low || !Empty(y.s)
    ensures Works(y, i, n, k) == At(y.(sending := y.sending + 1, pipe := y.pipe + [Send(m, low)]), i, Finished)
  {
    hide Works;
    var out := y.(sending := y.sending + 1, pipe := y.pipe + [Send(m, low)]);
    Pipes(y, i, m, low, n);
    if low {
      Next(y, i, n, 2, At(y, i, Enqueue(m, low)));
      k := 3;
    } else {
      Next(y, i, n, 3, At(y, i, Looking(m)));
      AtTwice(y, i, Looking(m), Enqueue(m, false));
      Next(At(y, i, Looking(m)), i, n, 2, At(y, i, Enqueue(m, low)));
      k := 4;
    }
  }

  lemma Pipes(y: Sys, i: nat, m: Bytes, low: bool, n: nat)
    requires i < |y.workers| && y.sending < MAX_SENDING
    ensures Works(At(y, i, Enqueue(m, low)), i, n, 2) == At(y.(sending := y.sending + 1, pipe := y.pipe + [Send(m, low)]), i, Finished)
  {
    hide Works;
    var counted := y.(sending := y.sending + 1);
    AtTwice(counted, i, Enqueue(m, low), Piping(m, low));
    Next(At(y, i, Enqueue(m, low)), i, n, 1, At(counted, i, Piping(m, low)));
    var out := y.(sending := y.sending + 1, pipe := y.pipe + [Send(m, low)]);
    AtTwice(out, i, Piping(m, low), Finished);
    Next(At(counted, i, Piping(m, low)), i, n, 0, At(out, i, Finished));
    WorksNone(At(out, i, Finished), i, n);
  }

  lemma WorksNone(y: Sys, i: nat, n: nat)
    requires i < |y.workers|
    ensures Works(y, i, n, 0) == y
  {
  }
}
