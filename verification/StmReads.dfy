/** What readers and updates of the shared copies get out of a run. */
module StmReads {
  // Reads are atomic: each gives the value of one store, no older than its beginning; updates and
  // closes store once; nothing leaks; and nobody waits for ever.

  import opened RwlockStm

  // ------------------------------------------------------------------ what lread answers

  /** A read keeps what it got, and hands it out exactly when it got a copy and a store lies
      between this read and the one before. */
  lemma LreadAnswers(a: Addr, steps: seq<Step>, i: nat)
    requires i < |Run(a, steps).threads| && Run(a, steps).threads[i].pc.Compare?
    ensures |Run(a, steps + [Go(i)]).threads| == |Run(a, steps).threads|
    ensures var t, t' := Run(a, steps).threads[i], Run(a, steps + [Go(i)]).threads[i];
            && t'.last == t.pc.ret && (t.pc.ret.Some? ==> t'.seen == t.pc.at)
            && (t'.told <==> t.pc.ret.Some? && t.pc.at != t.seen)
  {
    hide Run, LockInv, CopyInv;
    NoAba(a, steps, i);
    RunInv(a, steps);
    var s := Run(a, steps);
    RunSnoc(a, steps, Go(i));
    assert s.threads[i] in s.threads && ThreadInv(s, s.threads[i]);
  }

  // ------------------------------------------------------------------ the history of the pointer

  /** what a step stores to the pointer: an update its copy, a close nothing */
  function StoredBy(s: Stm, step: Step): seq<Option<Addr>>
  {
    if step.Go? && step.i < |s.threads| then
      match s.threads[step.i].pc
      case OldLoaded(c, _) => [Some(c)]
      case CloseStore => [None]
      case _ => []
    else []
  }

  /** All values of the pointer so far, the first one included. */
  function History(a: Addr, steps: seq<Step>): seq<Option<Addr>>
  {
    if steps == [] then [Some(a)]
    else
      var before := steps[..|steps| - 1];
      History(a, before) + StoredBy(Run(a, before), steps[|steps| - 1])
  }

  predicate Remembers(t: Thread, h: seq<Option<Addr>>)
  {
    && (if t.seen == 0 then t.last == None else t.seen <= |h| && t.last == h[t.seen - 1])
    && (t.pc.Loaded? || t.pc.Took? || t.pc.Compare? ==> 0 < t.pc.at <= |h| && t.pc.ret == h[t.pc.at - 1])
  }

  predicate Recorded(s: Stm, h: seq<Option<Addr>>)
  {
    && |h| == s.stores && h != [] && s.obj == h[|h| - 1]
    && forall t :: t in s.threads ==> Remembers(t, h)
  }

  /** one step, which stores 'new' */
  predicate Stores(s: Stm, s': Stm, i: nat, new_: seq<Option<Addr>>)
    requires i < |s.threads|
  {
    && |s'.threads| == |s.threads| && s'.threads == s.threads[i := s'.threads[i]]
    && s'.stores == s.stores + |new_| && |new_| <= 1 && (if new_ == [] then s'.obj == s.obj else s'.obj == new_[0])
    && Learns(s, s.threads[i], s'.threads[i])
  }

  /** What a thread remembers after its step it knew before, or has just read from the pointer. */
  predicate Learns(s: Stm, t: Thread, t': Thread)
  {
    && ((t'.last == t.last && t'.seen == t.seen) || (t'.last == None && t'.seen == 0) || (t.pc.Compare? && t'.last == t.pc.ret && t'.seen == t.pc.at))
    && (t'.pc.Took? || t'.pc.Compare? || t'.pc.Loaded? ==>
          || (t'.pc.Loaded? && t.pc.Load? && t'.pc.ret == s.obj && t'.pc.at == s.stores)
          || ((t.pc.Loaded? || t.pc.Took? || t.pc.Compare?) && t'.pc.ret == t.pc.ret && t'.pc.at == t.pc.at))
  }

  lemma LockStores(s: Stm, i: nat)
    requires i < |s.threads| && Locking(s.threads[i].pc)
    ensures Stores(s, LockStep(s, i), i, [])
  {
  }

  lemma ReadStores(s: Stm, i: nat)
    requires i < |s.threads| && Reading(s.threads[i].pc)
    ensures Stores(s, ReadStep(s, i), i, [])
  {
  }

  lemma WriteStores(s: Stm, i: nat)
    requires i < |s.threads| && Writing(s.threads[i].pc)
    ensures Stores(s, WriteStep(s, i), i, StoredBy(s, Go(i)))
  {
    hide Learns;
    WriteLearns(s, i);
  }

  lemma WriteLearns(s: Stm, i: nat)
    requires i < |s.threads| && Writing(s.threads[i].pc)
    ensures |WriteStep(s, i).threads| == |s.threads| && Learns(s, s.threads[i], WriteStep(s, i).threads[i])
  {
  }

  lemma ReleaseStores(s: Stm, i: nat)
    requires i < |s.threads|
    ensures Stores(s, ReleaseStep(s, i), i, [])
  {
  }

  lemma StartStores(s: Stm, i: nat, what: What)
    requires i < |s.threads|
    ensures Stores(s, Start(s, i, what), i, [])
  {
  }

  lemma StoresRecorded(s: Stm, s': Stm, i: nat, new_: seq<Option<Addr>>, h: seq<Option<Addr>>)
    requires i < |s.threads| && Stores(s, s', i, new_) && Recorded(s, h)
    ensures Recorded(s', h + new_)
  {
    assert s.threads[i] in s.threads;
    forall t | t in s'.threads ensures Remembers(t, h + new_) {
      if t !in s.threads { assert t == s'.threads[i] && Remembers(s.threads[i], h); } else { assert Remembers(t, h); }
    }
  }

  lemma StepRecorded(s: Stm, step: Step, h: seq<Option<Addr>>)
    requires Recorded(s, h)
    ensures Recorded(Take(s, step), h + StoredBy(s, step))
  {
    hide Recorded, Stores, LockStep, ReadStep, WriteStep, ReleaseStep, Start;
    match step
    case Spawn => SpawnRecorded(s, h);
    case Begin(i, what) =>
      if i < |s.threads| {
        StartStores(s, i, what);
        StoresRecorded(s, Take(s, step), i, [], h);
      } else {
        assert h + [] == h;
      }
    case Go(i) =>
      if i < |s.threads| {
        var pc := s.threads[i].pc;
        if Locking(pc) { LockStores(s, i); } else if Reading(pc) { ReadStores(s, i); } else if Writing(pc) { WriteStores(s, i); } else { ReleaseStores(s, i); }
        StoresRecorded(s, Take(s, step), i, StoredBy(s, step), h);
      } else {
        assert h + [] == h;
      }
  }

  lemma SpawnRecorded(s: Stm, h: seq<Option<Addr>>)
    requires Recorded(s, h)
    ensures Recorded(Take(s, Spawn), h + [])
  {
    assert h + [] == h;
  }

  lemma {:induction false} RunRecorded(a: Addr, steps: seq<Step>)
    ensures Recorded(Run(a, steps), History(a, steps))
  {
    hide Take, Recorded, StoredBy;
    if steps == [] {
      assert Recorded(Fresh(a), [Some(a)]) by { FreshRecorded(a); }
    } else {
      var before := steps[..|steps| - 1];
      RunRecorded(a, before);
      StepRecorded(Run(a, before), steps[|steps| - 1], History(a, before));
    }
  }

  lemma FreshRecorded(a: Addr)
    ensures Recorded(Fresh(a), [Some(a)])
  {
  }

  /** Reads are atomic: what a read compares and keeps is the value of one store to the pointer. */
  lemma ReadsAreAtomic(a: Addr, steps: seq<Step>, i: nat)
    requires i < |Run(a, steps).threads| && Run(a, steps).threads[i].pc.Compare?
    ensures var pc, h := Run(a, steps).threads[i].pc, History(a, steps); 0 < pc.at <= |h| && pc.ret == h[pc.at - 1]
  {
    hide Run, History;
    RunRecorded(a, steps);
    assert Run(a, steps).threads[i] in Run(a, steps).threads;
  }

  /** The thread has not loaded the pointer, or has loaded store number k or a later one. */
  predicate SinceOr(pc: Pc, k: nat)
  {
    pc.Loaded? || pc.Took? || pc.Compare? ==> pc.at >= k
  }

  /** And no store that was over before the read began is missed. */
  lemma {:induction false} FreshRead(a: Addr, before: seq<Step>, more: seq<Step>, i: nat)
    requires i < |Run(a, before).threads| && Run(a, before).threads[i].pc.Idle?
    ensures i < |Run(a, before + more).threads| && |History(a, before + more)| >= |History(a, before)|
    ensures SinceOr(Run(a, before + more).threads[i].pc, |History(a, before)|)
  {
    hide Take, StoredBy;
    if more == [] {
      assert before + more == before;
    } else {
      var front, step := more[..|more| - 1], more[|more| - 1];
      assert before + more == before + front + [step];
      assert (before + more)[..|before + more| - 1] == before + front;
      FreshRead(a, before, front, i);
      RunRecorded(a, before + front);
      StepSince(Run(a, before + front), step, i, |History(a, before)|);
    }
  }

  lemma StepSince(s: Stm, step: Step, i: nat, k: nat)
    requires i < |s.threads| && k <= s.stores && SinceOr(s.threads[i].pc, k)
    ensures i < |Take(s, step).threads| && SinceOr(Take(s, step).threads[i].pc, k)
  {
    hide Stores, LockStep, ReadStep, WriteStep, ReleaseStep, Start;
    match step
    case Spawn =>
    case Begin(j, what) => if j < |s.threads| { StartStores(s, j, what); StoresSince(s, Take(s, step), j, [], i, k); }
    case Go(j) =>
      if j < |s.threads| {
        var pc := s.threads[j].pc;
        if Locking(pc) { LockStores(s, j); } else if Reading(pc) { ReadStores(s, j); } else if Writing(pc) { WriteStores(s, j); } else { ReleaseStores(s, j); }
        StoresSince(s, Take(s, step), j, StoredBy(s, step), i, k);
      }
  }

  lemma StoresSince(s: Stm, s': Stm, j: nat, new_: seq<Option<Addr>>, i: nat, k: nat)
    requires j < |s.threads| && i < |s.threads| && Stores(s, s', j, new_) && k <= s.stores && SinceOr(s.threads[i].pc, k)
    ensures i < |s'.threads| && SinceOr(s'.threads[i].pc, k)
  {
  }

  // ------------------------------------------------------------------ updates and closes

  /** on the way to storing o */
  predicate Preparing(pc: Pc, o: Option<Addr>)
  {
    match pc
    case TrySet(job) => o == Value(job)
    case WaitReaders(job) => o == Value(job)
    case InWrite(job) => o == Value(job)
    case OldLoaded(c, _) => o == Some(c)
    case CloseFree(_) => o == None
    case CloseStore => o == None
    case _ => false
  }

  function Value(job: WriteJob): Option<Addr>
  {
    if job.Update? then Some(job.a) else None
  }

  lemma WritePrepares(s: Stm, i: nat, o: Option<Addr>)
    requires i < |s.threads| && Preparing(s.threads[i].pc, o) && Writing(s.threads[i].pc)
    ensures |WriteStep(s, i).threads| == |s.threads|
    ensures Preparing(WriteStep(s, i).threads[i].pc, o) || StoredBy(s, Go(i)) == [o]
  {
  }

  lemma LockPrepares(s: Stm, i: nat, o: Option<Addr>)
    requires i < |s.threads| && Preparing(s.threads[i].pc, o) && Locking(s.threads[i].pc)
    ensures |LockStep(s, i).threads| == |s.threads| && Preparing(LockStep(s, i).threads[i].pc, o)
  {
  }

  lemma OthersPrepare(s: Stm, step: Step, i: nat)
    requires i < |s.threads| && !(step.Go? && step.i == i) && !s.threads[i].pc.Idle?
    ensures i < |Take(s, step).threads| && Take(s, step).threads[i] == s.threads[i]
  {
    hide Learns, Stores, LockStep, ReadStep, WriteStep, ReleaseStep, Start;
    match step
    case Spawn =>
    case Begin(j, what) =>
      if j < |s.threads| { OneThread(s, j, what); }
    case Go(j) =>
      if j < |s.threads| {
        var pc := s.threads[j].pc;
        if Locking(pc) { LockStores(s, j); } else if Reading(pc) { ReadStores(s, j); } else if Writing(pc) { WriteStores(s, j); } else { ReleaseStores(s, j); }
        StoresOne(s, Take(s, step), j, StoredBy(s, step));
      }
  }

  lemma OneThread(s: Stm, j: nat, what: What)
    requires j < |s.threads|
    ensures |Start(s, j, what).threads| == |s.threads| && Start(s, j, what).threads == s.threads[j := Start(s, j, what).threads[j]]
    ensures !s.threads[j].pc.Idle? ==> Start(s, j, what) == s
  {
  }

  lemma StoresOne(s: Stm, s': Stm, j: nat, new_: seq<Option<Addr>>)
    requires j < |s.threads| && Stores(s, s', j, new_)
    ensures |s'.threads| == |s.threads| && s'.threads == s.threads[j := s'.threads[j]]
  {
  }

  lemma StepPrepares(s: Stm, step: Step, i: nat, o: Option<Addr>)
    requires i < |s.threads| && Preparing(s.threads[i].pc, o)
    ensures i < |Take(s, step).threads|
    ensures Preparing(Take(s, step).threads[i].pc, o) || StoredBy(s, step) == [o]
  {
    hide StoredBy, LockStep, ReadStep, WriteStep, ReleaseStep, Start;
    if step == Go(i) {
      if Locking(s.threads[i].pc) { LockPrepares(s, i, o); } else { WritePrepares(s, i, o); }
    } else {
      OthersPrepare(s, step, i);
    }
  }

  /** An update of copy c, and a close: once the thread is past storing, the history has its value
      among what was stored since it began. */
  lemma {:induction false} WritesStore(a: Addr, before: seq<Step>, what: What, more: seq<Step>, i: nat)
    requires i < |Run(a, before).threads| && Run(a, before).threads[i].pc.Idle?
    requires what.StartClose? || (what.StartUpdate? && what.a !in Run(a, before).heap)
    ensures var o, steps := if what.StartUpdate? then Some(what.a) else None, before + [Begin(i, what)] + more;
            && i < |Run(a, steps).threads| && |History(a, before)| <= |History(a, steps)|
            && (Preparing(Run(a, steps).threads[i].pc, o) || o in History(a, steps)[|History(a, before)|..])
  {
    hide Take, StoredBy, Preparing;
    var o, begun := if what.StartUpdate? then Some(what.a) else None, before + [Begin(i, what)];
    if more == [] {
      assert begun + [] == begun;
      RunSnoc(a, before, Begin(i, what));
      Begins(Run(a, before), i, what, o);
      HistorySnoc(a, before, Begin(i, what));
    } else {
      var front, step := more[..|more| - 1], more[|more| - 1];
      assert begun + more == begun + front + [step];
      WritesStore(a, before, what, front, i);
      RunSnoc(a, begun + front, step);
      HistorySnoc(a, begun + front, step);
      Behind(History(a, begun + front), StoredBy(Run(a, begun + front), step), |History(a, before)|);
      if Preparing(Run(a, begun + front).threads[i].pc, o) {
        StepPrepares(Run(a, begun + front), step, i, o);
      } else {
        ThreadStays(Run(a, begun + front), step, i);
      }
    }
  }

  lemma ThreadStays(s: Stm, step: Step, i: nat)
    requires i < |s.threads|
    ensures i < |Take(s, step).threads|
  {
    hide LockStep, ReadStep, WriteStep, ReleaseStep, Start;
    StepSince(s, step, i, 0);
  }

  lemma Behind(h: seq<Option<Addr>>, new_: seq<Option<Addr>>, n: nat)
    requires n <= |h|
    ensures (h + new_)[n..] == h[n..] + new_
  {
  }

  lemma HistorySnoc(a: Addr, steps: seq<Step>, step: Step)
    ensures History(a, steps + [step]) == History(a, steps) + StoredBy(Run(a, steps), step)
  {
    assert (steps + [step])[..|steps|] == steps;
  }

  lemma Begins(s: Stm, i: nat, what: What, o: Option<Addr>)
    requires i < |s.threads| && s.threads[i].pc.Idle? && o == (if what.StartUpdate? then Some(what.a) else None)
    requires what.StartClose? || (what.StartUpdate? && what.a !in s.heap)
    ensures i < |Take(s, Begin(i, what)).threads| && Preparing(Take(s, Begin(i, what)).threads[i].pc, o)
  {
  }

  // ------------------------------------------------------------------ nothing leaks

  lemma {:induction false} SumWitness(ts: seq<Thread>, k: Kind) returns (i: nat)
    requires Sum(ts, k) > 0
    ensures i < |ts| && W(ts[i], k) > 0
  {
    hide W;
    var n := |ts| - 1;
    if W(ts[n], k) > 0 { i := n; } else { i := SumWitness(ts[..n], k); }
  }

  lemma {:induction false} SumZero(ts: seq<Thread>, k: Kind)
    requires forall t :: t in ts ==> W(t, k) == 0
    ensures Sum(ts, k) == 0
  {
    hide W;
    if ts != [] { SumZero(ts[..|ts| - 1], k); }
  }

  /** A copy without references is being freed by somebody. */
  lemma NoLeak(a: Addr, steps: seq<Step>, c: Addr) returns (i: nat)
    requires c in Run(a, steps).heap && Run(a, steps).heap[c].reference <= 0
    ensures i < |Run(a, steps).threads|
    ensures var pc := Run(a, steps).threads[i].pc; pc == Free(c) || pc == CloseFree(c)
  {
    hide Run, Sum;
    RunInv(a, steps);
    assert CopyInv(Run(a, steps), c);
    i := SumWitness(Run(a, steps).threads, Freeing(c));
  }

  /** When nobody is at work, exactly the value of the object and the last values of the readers are
      still there. */
  lemma AtRest(a: Addr, steps: seq<Step>, c: Addr)
    requires forall t :: t in Run(a, steps).threads ==> t.pc.Idle?
    ensures var s := Run(a, steps);
            c in s.heap <==> s.obj == Some(c) || exists t :: t in s.threads && t.last == Some(c)
  {
    hide Run, Sum;
    RunInv(a, steps);
    var s := Run(a, steps);
    assert CopyInv(s, c);
    forall t | t in s.threads ensures W(t, Middle) == 0 && W(t, Freeing(c)) == 0 && W(t, Holding(c)) == One(t.last == Some(c)) { }
    SumZero(s.threads, Middle);
    SumZero(s.threads, Freeing(c));
    if c in s.heap && s.obj != Some(c) {
      var i := SumWitness(s.threads, Holding(c));
      assert s.threads[i] in s.threads;
    }
    if t :| t in s.threads && t.last == Some(c) {
      var i :| 0 <= i < |s.threads| && s.threads[i] == t;
      SumUpdate(s.threads, i, t, Holding(c));
    }
  }

  // ------------------------------------------------------------------ nobody waits for ever

  /** While some operation is under way, some thread can take a step that changes something. */
  lemma NoDeadlock(a: Addr, steps: seq<Step>, i: nat) returns (j: nat)
    requires i < |Run(a, steps).threads| && !Run(a, steps).threads[i].pc.Idle?
    ensures j < |Run(a, steps).threads| && Run(a, steps + [Go(j)]) != Run(a, steps)
  {
    hide Run, Sum;
    RunInv(a, steps);
    var s := Run(a, steps);
    j := i;
    if s.write && (s.threads[i].pc.Spin? || s.threads[i].pc.TrySet?) {
      j := SumWitness(s.threads, Setter);
    }
    if s.threads[j].pc.WaitReaders? && s.read != 0 {
      Counts(s);
      j := SumWitness(s.threads, Counted);
    }
    RunSnoc(a, steps, Go(j));
    Moving(s, j);
  }

  lemma Counts(s: Stm)
    requires LockInv(s)
    ensures s.read >= 0
  {
  }

  /** who is not waiting for somebody */
  lemma Moving(s: Stm, j: nat)
    requires j < |s.threads| && !s.threads[j].pc.Idle?
    requires s.threads[j].pc.Spin? || s.threads[j].pc.TrySet? ==> !s.write
    requires s.threads[j].pc.WaitReaders? ==> s.read == 0
    ensures Take(s, Go(j)) != s
  {
  }

  /** how many steps an operation still takes if nobody is in its way */
  function Rank(pc: Pc): nat
  {
    match pc
    case Idle => 0
    case Free(_) => 1
    case Dec(_) => 2
    case Compare(_, _) => 3
    case InDrop => 3
    case Took(_, _) => 4
    case Loaded(_, _) => 5
    case Load => 6
    case Checking(_) => 7
    case Adding(_) => 8
    case Spin(_) => 9
    case Backing(_) => 10
    case CloseUnlock => 1
    case CloseStore => 2
    case CloseFree(_) => 3
    case Stored(_) => 3
    case OldLoaded(_, _) => 4
    case InWrite(_) => 5
    case WaitReaders(_) => 6
    case TrySet(_) => 7
  }

  predicate Solo(s: Stm, i: nat)
  {
    i < |s.threads| && forall j :: 0 <= j < |s.threads| && j != i ==> s.threads[j].pc.Idle?
  }

  lemma SoloLock(s: Stm, i: nat)
    requires LockInv(s) && Solo(s, i)
    ensures (s.write ==> s.threads[i].pc.WaitReaders? || Writing(s.threads[i].pc))
    ensures (s.read != 0 ==> W(s.threads[i], Counted) > 0)
  {
    hide Sum;
    if s.write {
      var j := SumWitness(s.threads, Setter);
    }
    if s.read != 0 {
      Counts(s);
      var j := SumWitness(s.threads, Counted);
    }
  }

  lemma LockRank(s: Stm, i: nat)
    requires i < |s.threads| && Locking(s.threads[i].pc)
    requires if s.threads[i].pc.WaitReaders? then s.read == 0 else !s.write
    ensures i < |LockStep(s, i).threads| && Rank(LockStep(s, i).threads[i].pc) < Rank(s.threads[i].pc)
  {
  }

  lemma CountKeeps(s: Stm, a: Addr, d: int)
    ensures Count(s, a, d).threads == s.threads
  {
  }

  lemma ReadRank(s: Stm, i: nat)
    requires i < |s.threads| && Reading(s.threads[i].pc)
    ensures i < |ReadStep(s, i).threads| && Rank(ReadStep(s, i).threads[i].pc) < Rank(s.threads[i].pc)
  {
    hide Count;
    if s.threads[i].pc.Loaded? && s.threads[i].pc.ret.Some? { CountKeeps(s, s.threads[i].pc.ret.value, 1); }
  }

  lemma WriteRank(s: Stm, i: nat)
    requires i < |s.threads| && Writing(s.threads[i].pc)
    ensures i < |WriteStep(s, i).threads| && Rank(WriteStep(s, i).threads[i].pc) < Rank(s.threads[i].pc)
  {
    hide Count;
    if s.obj.Some? { CountKeeps(s.(counts := false), s.obj.value, -1); }
  }

  lemma ReleaseRank(s: Stm, i: nat)
    requires i < |s.threads| && (s.threads[i].pc.Dec? || s.threads[i].pc.Free?)
    ensures i < |ReleaseStep(s, i).threads| && Rank(ReleaseStep(s, i).threads[i].pc) < Rank(s.threads[i].pc)
  {
    hide Count;
    if s.threads[i].pc.Dec? && s.threads[i].pc.copy.Some? { CountKeeps(s, s.threads[i].pc.copy.value, -1); }
  }

  lemma SoloStep(s: Stm, i: nat)
    requires LockInv(s) && Solo(s, i) && !s.threads[i].pc.Idle?
    ensures Solo(Take(s, Go(i)), i) && Rank(Take(s, Go(i)).threads[i].pc) < Rank(s.threads[i].pc)
  {
    hide LockInv, W, Stores, LockStep, ReadStep, WriteStep, ReleaseStep, Rank, StoredBy;
    SoloLock(s, i);
    var pc := s.threads[i].pc;
    if Locking(pc) {
      AtMostCounted(s.threads[i]);
      LockRank(s, i);
      LockStores(s, i);
    } else if Reading(pc) {
      ReadRank(s, i);
      ReadStores(s, i);
    } else if Writing(pc) {
      WriteRank(s, i);
      WriteStores(s, i);
    } else {
      ReleaseRank(s, i);
      ReleaseStores(s, i);
    }
    StoresOne(s, Take(s, Go(i)), i, if Writing(pc) then StoredBy(s, Go(i)) else []);
  }

  lemma AtMostCounted(t: Thread)
    ensures t.pc.WaitReaders? ==> W(t, Counted) == 0
  {
  }

  /** Alone, a thread finishes any operation from anywhere within ten steps. */
  lemma {:induction false} SoloFinishes(a: Addr, steps: seq<Step>, i: nat) returns (more: seq<Step>)
    requires Solo(Run(a, steps), i)
    ensures |more| <= Rank(Run(a, steps).threads[i].pc) <= 10 && forall step :: step in more ==> step == Go(i)
    ensures i < |Run(a, steps + more).threads| && Run(a, steps + more).threads[i].pc.Idle?
    decreases Rank(Run(a, steps).threads[i].pc)
  {
    hide Run, Take;
    if Run(a, steps).threads[i].pc.Idle? {
      more := [];
      assert steps + [] == steps;
    } else {
      RunInv(a, steps);
      SoloStep(Run(a, steps), i);
      RunSnoc(a, steps, Go(i));
      var rest := SoloFinishes(a, steps + [Go(i)], i);
      more := [Go(i)] + rest;
      assert steps + more == steps + [Go(i)] + rest;
    }
  }
}
