/** The spin read-write lock, and the shared copies that one object publishes under it: readers
    count themselves in and out, a writer sets a flag and waits for the readers; a copy counts its
    references and is freed by whoever gives up the last one. Every step is one access to shared
    memory; any number of threads interleave. */
module RwlockStm {
  type Addr = nat

  datatype Option<T> = None | Some(value: T)

  /** A published value: its reference count, and the number of the store that published it
      (0 before that). The address of a freed copy may be used again. */
  datatype Copy = Copy(reference: int, version: nat)

  /** what a thread wants the lock for */
  datatype ReadJob = ReadCopy | DropReader
  datatype WriteJob = Update(a: Addr) | Close

  datatype Pc =
    | Idle
    // rwlock_rlock
    | Spin(job: ReadJob) | Adding(job: ReadJob) | Checking(job: ReadJob) | Backing(job: ReadJob)
    // the read section, and what follows it
    | Load | Loaded(ret: Option<Addr>, at: nat) | Took(ret: Option<Addr>, at: nat) | Compare(ret: Option<Addr>, at: nat)
    | InDrop
    // rwlock_wlock
    | TrySet(wjob: WriteJob) | WaitReaders(wjob: WriteJob)
    // the write sections
    | InWrite(wjob: WriteJob) | OldLoaded(a: Addr, was: Option<Addr>) | Stored(was: Option<Addr>)
    | CloseFree(c: Addr) | CloseStore | CloseUnlock
    // stm_releasecopy
    | Dec(copy: Option<Addr>) | Free(c: Addr)

  /** A thread with its reader box: the last copy it read, when that was published, and whether its
      last read handed a value out. */
  datatype Thread = Thread(pc: Pc, last: Option<Addr>, seen: nat, told: bool)

  /** 'counts' is false while the object's pointer has given up its reference but is not cleared
      yet; 'stores' is the number of stores to the pointer so far. */
  datatype Stm = Stm(write: bool, read: int, obj: Option<Addr>, counts: bool, stores: nat, heap: map<Addr, Copy>, threads: seq<Thread>)

  datatype Step = Spawn | Begin(i: nat, what: What) | Go(i: nat)
  datatype What = StartRead | StartDrop | StartUpdate(a: Addr) | StartClose

  function Pcd(s: Stm, i: nat, pc: Pc): Stm
    requires i < |s.threads|
  {
    s.(threads := s.threads[i := s.threads[i].(pc := pc)])
  }

  /** add d to the reference of a copy that is there */
  function Count(s: Stm, a: Addr, d: int): Stm
  {
    if a in s.heap then s.(heap := s.heap[a := s.heap[a].(reference := s.heap[a].reference + d)]) else s
  }

  /** A new operation of an idle thread. A new copy gets any address that is not in use. */
  function Start(s: Stm, i: nat, what: What): Stm
    requires i < |s.threads|
  {
    if !s.threads[i].pc.Idle? then s
    else
      match what
      case StartRead => Pcd(s, i, Spin(ReadCopy))
      case StartDrop => Pcd(s, i, Spin(DropReader))
      case StartUpdate(a) => if a in s.heap then s else Pcd(s.(heap := s.heap[a := Copy(1, 0)]), i, TrySet(Update(a)))
      case StartClose => Pcd(s, i, TrySet(Close))
  }

  /** rwlock_rlock and rwlock_wlock */
  function LockStep(s: Stm, i: nat): Stm
    requires i < |s.threads|
  {
    match s.threads[i].pc
    case Spin(job) => if s.write then s else Pcd(s, i, Adding(job))
    case Adding(job) => Pcd(s.(read := s.read + 1), i, Checking(job))
    case Checking(job) => Pcd(s, i, if s.write then Backing(job) else if job.ReadCopy? then Load else InDrop)
    case Backing(job) => Pcd(s.(read := s.read - 1), i, Spin(job))
    case TrySet(job) => if s.write then s else Pcd(s.(write := true), i, WaitReaders(job))
    case WaitReaders(job) => if s.read != 0 then s else Pcd(s, i, InWrite(job))
    case _ => s
  }

  /** stm_copy, the comparison of lread, and the end of a reader */
  function ReadStep(s: Stm, i: nat): Stm
    requires i < |s.threads|
  {
    var t := s.threads[i];
    match t.pc
    case Load => Pcd(s, i, Loaded(s.obj, s.stores))
    case Loaded(ret, at) => Pcd(if ret.Some? then Count(s, ret.value, 1) else s, i, Took(ret, at))
    case Took(ret, at) => Pcd(s.(read := s.read - 1), i, Compare(ret, at))
    case Compare(ret, at) =>
      if ret == t.last then s.(threads := s.threads[i := t.(pc := Dec(ret), told := false)])
      else s.(threads := s.threads[i := Thread(Dec(t.last), ret, at, ret.Some?)])
    case InDrop => s.(read := s.read - 1, threads := s.threads[i := Thread(Dec(t.last), None, 0, false)])
    case _ => s
  }

  /** stm_update and stm_release inside the lock */
  function WriteStep(s: Stm, i: nat): Stm
    requires i < |s.threads|
  {
    match s.threads[i].pc
    case InWrite(Update(a)) => Pcd(s, i, OldLoaded(a, s.obj))
    case OldLoaded(a, was) =>
      var c := if a in s.heap then s.heap[a].reference else 0;
      Pcd(s.(obj := Some(a), stores := s.stores + 1, heap := s.heap[a := Copy(c, s.stores + 1)]), i, Stored(was))
    case Stored(was) => Pcd(s.(write := false), i, Dec(was))
    case InWrite(Close) =>
      if s.obj.None? then Pcd(s.(counts := false), i, CloseStore)
      else
        var s' := Count(s.(counts := false), s.obj.value, -1);
        Pcd(s', i, if s.obj.value in s'.heap && s'.heap[s.obj.value].reference == 0 then CloseFree(s.obj.value) else CloseStore)
    case CloseFree(c) => Pcd(s.(heap := s.heap - {c}), i, CloseStore)
    case CloseStore => Pcd(s.(obj := None, counts := true, stores := s.stores + 1), i, CloseUnlock)
    case CloseUnlock => Pcd(s.(write := false), i, Idle)
    case _ => s
  }

  /** stm_releasecopy */
  function ReleaseStep(s: Stm, i: nat): Stm
    requires i < |s.threads|
  {
    match s.threads[i].pc
    case Dec(None) => Pcd(s, i, Idle)
    case Dec(Some(c)) =>
      var s' := Count(s, c, -1);
      Pcd(s', i, if c in s'.heap && s'.heap[c].reference == 0 then Free(c) else Idle)
    case Free(c) => Pcd(s.(heap := s.heap - {c}), i, Idle)
    case _ => s
  }

  predicate Locking(pc: Pc) { pc.Spin? || pc.Adding? || pc.Checking? || pc.Backing? || pc.TrySet? || pc.WaitReaders? }
  predicate Reading(pc: Pc) { pc.Load? || pc.Loaded? || pc.Took? || pc.Compare? || pc.InDrop? }
  predicate Writing(pc: Pc) { pc.InWrite? || pc.OldLoaded? || pc.Stored? || pc.CloseFree? || pc.CloseStore? || pc.CloseUnlock? }

  function Take(s: Stm, step: Step): Stm
  {
    match step
    case Spawn => s.(threads := s.threads + [Thread(Idle, None, 0, false)])
    case Begin(i, what) => if i < |s.threads| then Start(s, i, what) else s
    case Go(i) =>
      if i >= |s.threads| then s
      else if Locking(s.threads[i].pc) then LockStep(s, i)
      else if Reading(s.threads[i].pc) then ReadStep(s, i)
      else if Writing(s.threads[i].pc) then WriteStep(s, i)
      else ReleaseStep(s, i)
  }

  // ------------------------------------------------------------------ what threads hold

  datatype Kind = Counted | ReadSection | Setter | WriteSection | Middle | Holding(a: Addr) | Freeing(a: Addr)

  function One(b: bool): nat { if b then 1 else 0 }

  predicate InReadSection(pc: Pc) { pc.Load? || pc.Loaded? || pc.Took? || pc.InDrop? }

  function W(t: Thread, k: Kind): nat
  {
    var pc := t.pc;
    match k
    case Counted => One(pc.Checking? || pc.Backing? || InReadSection(pc))
    case ReadSection => One(InReadSection(pc))
    case Setter => One(pc.WaitReaders? || Writing(pc))
    case WriteSection => One(Writing(pc))
    case Middle => One(pc.CloseFree? || pc.CloseStore?)
    case Holding(a) => One(t.last == Some(a)) + PcHolds(pc, a)
    case Freeing(a) => One((pc.Free? || pc.CloseFree?) && pc.c == a)
  }

  function PcHolds(pc: Pc, a: Addr): nat
  {
    match pc
    case Took(ret, _) => One(ret == Some(a))
    case Compare(ret, _) => One(ret == Some(a))
    case TrySet(job) => One(job == Update(a))
    case WaitReaders(job) => One(job == Update(a))
    case InWrite(job) => One(job == Update(a))
    case OldLoaded(b, _) => One(b == a)
    case Stored(was) => One(was == Some(a))
    case Dec(c) => One(c == Some(a))
    case _ => 0
  }

  function Sum(ts: seq<Thread>, k: Kind): nat
  {
    if ts == [] then 0 else Sum(ts[..|ts| - 1], k) + W(ts[|ts| - 1], k)
  }

  lemma {:induction false} SumUpdate(ts: seq<Thread>, i: nat, t: Thread, k: Kind)
    requires i < |ts|
    ensures Sum(ts, k) >= W(ts[i], k)
    ensures Sum(ts[i := t], k) == Sum(ts, k) - W(ts[i], k) + W(t, k)
  {
    hide W;
    var n := |ts| - 1;
    if i < n {
      SumUpdate(ts[..n], i, t, k);
      assert ts[i := t][..n] == ts[..n][i := t];
    } else {
      assert ts[i := t][..n] == ts[..n];
    }
  }

  lemma SumAppend(ts: seq<Thread>, t: Thread, k: Kind)
    ensures Sum(ts + [t], k) == Sum(ts, k) + W(t, k)
  {
    assert (ts + [t])[..|ts|] == ts;
  }

  lemma {:induction false} SumTwo(ts: seq<Thread>, i: nat, j: nat, k: Kind)
    requires i < j < |ts|
    ensures Sum(ts, k) >= W(ts[i], k) + W(ts[j], k)
  {
    hide W;
    var n := |ts| - 1;
    if j < n { SumTwo(ts[..n], i, j, k); } else { SumUpdate(ts[..n], i, ts[i], k); }
  }

  // ------------------------------------------------------------------ the invariant

  /** the lock's two fields count who is where */
  predicate LockInv(s: Stm)
  {
    && s.read == Sum(s.threads, Counted)
    && Sum(s.threads, Setter) == One(s.write)
    && (Sum(s.threads, WriteSection) > 0 ==> Sum(s.threads, ReadSection) == 0)
    && Sum(s.threads, Middle) == One(!s.counts)
  }

  predicate Points(s: Stm, a: Addr) { s.counts && s.obj == Some(a) }

  /** A copy's reference is the object's pointer plus all holds; at zero exactly one thread is
      about to free it. Nobody knows an address that is not in use. */
  predicate CopyInv(s: Stm, a: Addr)
  {
    var holds, frees := Sum(s.threads, Holding(a)), Sum(s.threads, Freeing(a));
    if a in s.heap then
      && s.heap[a].reference == One(Points(s, a)) + holds && frees == One(s.heap[a].reference == 0)
      && s.heap[a].version <= s.stores && (s.heap[a].version == 0 ==> holds == 1 && !Points(s, a))
    else holds == 0 && frees == 0 && !Points(s, a)
  }

  /** a copy that was the object's value at some time */
  predicate Known(s: Stm, o: Option<Addr>)
  {
    o.Some? ==> o.value in s.heap && s.heap[o.value].version > 0
  }

  predicate Published(s: Stm, o: Option<Addr>, at: nat)
  {
    o.Some? ==> o.value in s.heap && at > 0 && s.heap[o.value].version == at
  }

  /** what a thread remembers is still so */
  predicate ThreadInv(s: Stm, t: Thread)
  {
    && Published(s, t.last, t.seen)
    && match t.pc
       case Loaded(ret, at) => s.counts && ret == s.obj && at == s.stores
       case Took(ret, at) => Published(s, ret, at)
       case Compare(ret, at) => Published(s, ret, at)
       case TrySet(job) => job.Update? ==> job.a in s.heap && s.heap[job.a].version == 0
       case WaitReaders(job) => job.Update? ==> job.a in s.heap && s.heap[job.a].version == 0
       case InWrite(job) => s.counts && (job.Update? ==> job.a in s.heap && s.heap[job.a].version == 0)
       case Stored(was) => s.counts && Known(s, was)
       case CloseUnlock => s.counts
       case Dec(c) => Known(s, c)
       case OldLoaded(a, was) => s.counts && was == s.obj && a in s.heap && s.heap[a].version == 0
       case _ => true
  }

  predicate Versions(s: Stm)
  {
    && (s.counts ==> Published(s, s.obj, s.stores))
    && forall a, b :: a in s.heap && b in s.heap && s.heap[a].version == s.heap[b].version > 0 ==> a == b
  }

  ghost predicate Inv(s: Stm)
  {
    && LockInv(s) && Versions(s)
    && (forall a: Addr :: CopyInv(s, a))
    && (forall t :: t in s.threads ==> ThreadInv(s, t))
  }

  // ------------------------------------------------------------------ every step keeps it

  /** the sums after thread i became t */
  lemma Sums(s: Stm, s': Stm, i: nat)
    requires i < |s.threads| == |s'.threads| && s'.threads == s.threads[i := s'.threads[i]]
    ensures forall k :: Sum(s.threads, k) >= W(s.threads[i], k)
    ensures forall k :: Sum(s'.threads, k) == Sum(s.threads, k) - W(s.threads[i], k) + W(s'.threads[i], k)
  {
    forall k
      ensures Sum(s.threads, k) >= W(s.threads[i], k)
      ensures Sum(s'.threads, k) == Sum(s.threads, k) - W(s.threads[i], k) + W(s'.threads[i], k)
    {
      SumUpdate(s.threads, i, s'.threads[i], k);
    }
  }

  /** Other threads keep what they know if nothing they know of changed. */
  lemma OthersKeep(s: Stm, s': Stm, i: nat)
    requires Inv(s) && i < |s.threads| == |s'.threads| && s'.threads == s.threads[i := s'.threads[i]]
    requires forall j :: 0 <= j < |s.threads| && j != i ==> ThreadInv(s', s.threads[j])
    requires ThreadInv(s', s'.threads[i])
    ensures forall t :: t in s'.threads ==> ThreadInv(s', t)
  {
    forall t | t in s'.threads ensures ThreadInv(s', t) {
      var j :| 0 <= j < |s'.threads| && s'.threads[j] == t;
      if j != i { assert s'.threads[j] == s.threads[j]; }
    }
  }

  /** A step that touches no copy and no pointer. */
  predicate SameMemory(s: Stm, s': Stm)
  {
    s'.obj == s.obj && s'.counts == s.counts && s'.stores == s.stores && s'.heap == s.heap
  }

  ghost predicate SameHolds(t: Thread, t': Thread)
  {
    forall a: Addr :: W(t', Holding(a)) == W(t, Holding(a)) && W(t', Freeing(a)) == W(t, Freeing(a))
  }

  /** the sums that the lock is about */
  predicate LockSums(s: Stm, s': Stm, t: Thread, t': Thread)
  {
    && Sum(s'.threads, Counted) == Sum(s.threads, Counted) - W(t, Counted) + W(t', Counted)
    && Sum(s'.threads, ReadSection) == Sum(s.threads, ReadSection) - W(t, ReadSection) + W(t', ReadSection)
    && Sum(s'.threads, Setter) == Sum(s.threads, Setter) - W(t, Setter) + W(t', Setter)
    && Sum(s'.threads, WriteSection) == Sum(s.threads, WriteSection) - W(t, WriteSection) + W(t', WriteSection)
    && Sum(s'.threads, Middle) == Sum(s.threads, Middle) - W(t, Middle) + W(t', Middle)
    && Sum(s.threads, ReadSection) >= W(t, ReadSection) && Sum(s.threads, WriteSection) >= W(t, WriteSection)
  }

  lemma LockSumsHold(s: Stm, s': Stm, i: nat)
    requires i < |s.threads| == |s'.threads| && s'.threads == s.threads[i := s'.threads[i]]
    ensures LockSums(s, s', s.threads[i], s'.threads[i])
  {
    hide W, Sum;
    Sums(s, s', i);
  }

  lemma SameMemoryKeeps(s: Stm, s': Stm, i: nat)
    requires Inv(s) && i < |s.threads| == |s'.threads| && s'.threads == s.threads[i := s'.threads[i]] && SameMemory(s, s')
    requires ThreadInv(s', s'.threads[i])
    requires SameHolds(s.threads[i], s'.threads[i]) && LockInv(s')
    ensures Inv(s')
  {
    hide LockInv, W, Sum;
    Sums(s, s', i);
    assert SameHolds(s.threads[i], s'.threads[i]);
    forall j | 0 <= j < |s.threads| && j != i ensures ThreadInv(s', s.threads[j]) {
      assert s.threads[j] in s.threads;
    }
    OthersKeep(s, s', i);
    forall a: Addr ensures CopyInv(s', a) { assert CopyInv(s, a); }
  }

  lemma {:induction false} Dominated(ts: seq<Thread>)
    ensures Sum(ts, ReadSection) <= Sum(ts, Counted)
    ensures Sum(ts, Middle) <= Sum(ts, WriteSection) <= Sum(ts, Setter)
  {
    if ts != [] { Dominated(ts[..|ts| - 1]); }
  }

  /** whoever has set the flag is the only one at or in a write section */
  lemma Alone(s: Stm, i: nat)
    requires LockInv(s) && i < |s.threads| && W(s.threads[i], Setter) == 1
    ensures s.write && Sum(s.threads, Setter) == 1
    ensures Sum(s.threads, WriteSection) == W(s.threads[i], WriteSection) && Sum(s.threads, Middle) == W(s.threads[i], Middle)
    ensures forall j :: 0 <= j < |s.threads| && j != i ==> W(s.threads[j], Setter) == 0
  {
    hide W, Sum;
    var idle := Thread(Idle, None, 0, false);
    var rest := s.threads[i := idle];
    SumUpdate(s.threads, i, idle, Setter);
    SumUpdate(s.threads, i, idle, WriteSection);
    SumUpdate(s.threads, i, idle, Middle);
    IdleHolds(idle);
    Dominated(rest);
    forall j | 0 <= j < |s.threads| && j != i ensures W(s.threads[j], Setter) == 0 {
      if i < j { SumTwo(s.threads, i, j, Setter); } else { SumTwo(s.threads, j, i, Setter); }
    }
  }

  lemma IdleHolds(t: Thread)
    requires t == Thread(Idle, None, 0, false)
    ensures forall k :: W(t, k) == 0
  {
  }

  lemma SpinLock(s: Stm, i: nat)
    requires LockInv(s) && i < |s.threads| && (s.threads[i].pc.Spin? || s.threads[i].pc.Adding? || s.threads[i].pc.Checking? || s.threads[i].pc.Backing?)
    ensures LockInv(LockStep(s, i)) && SameHolds(s.threads[i], LockStep(s, i).threads[i])
  {
    hide Sum, PcHolds;
    var s' := LockStep(s, i);
    assert s'.threads == s.threads[i := s'.threads[i]];
    LockSumsHold(s, s', i);
    Dominated(s.threads);
    SpinHolds(s.threads[i], s'.threads[i]);
  }

  lemma SpinHolds(t: Thread, t': Thread)
    requires t.last == t'.last && !t.pc.TrySet? && !t.pc.WaitReaders? && Locking(t.pc)
    requires !t'.pc.TrySet? && !t'.pc.WaitReaders? && (Locking(t'.pc) || t'.pc.Load? || t'.pc.InDrop?)
    ensures SameHolds(t, t')
  {
  }

  lemma SetLock(s: Stm, i: nat)
    requires LockInv(s) && i < |s.threads| && (s.threads[i].pc.TrySet? || s.threads[i].pc.WaitReaders?)
    ensures LockInv(LockStep(s, i)) && SameHolds(s.threads[i], LockStep(s, i).threads[i])
    ensures s.threads[i].pc.WaitReaders? ==> s.counts
  {
    hide Sum;
    var s' := LockStep(s, i);
    assert s'.threads == s.threads[i := s'.threads[i]];
    LockSumsHold(s, s', i);
    Dominated(s.threads);
    if s.threads[i].pc.WaitReaders? { Alone(s, i); }
  }

  lemma LockStepInv(s: Stm, i: nat)
    requires Inv(s) && i < |s.threads| && Locking(s.threads[i].pc)
    ensures Inv(LockStep(s, i))
  {
    hide Sum, W, LockInv, CopyInv, Versions, SameHolds;
    var s' := LockStep(s, i);
    assert s.threads[i] in s.threads && s'.threads == s.threads[i := s'.threads[i]];
    if s.threads[i].pc.TrySet? || s.threads[i].pc.WaitReaders? { SetLock(s, i); } else { SpinLock(s, i); }
    SameMemoryKeeps(s, s', i);
  }

  // ------------------------------------------------------------------ copies

  /** A copy that somebody holds or that the object points to is not about to be freed. */
  lemma HeldAlive(s: Stm, i: nat, a: Addr)
    requires Inv(s) && i < |s.threads| && (W(s.threads[i], Holding(a)) > 0 || Points(s, a))
    ensures a in s.heap && s.heap[a].reference > 0 && Sum(s.threads, Freeing(a)) == 0
  {
    hide W, Sum;
    assert CopyInv(s, a);
    SumUpdate(s.threads, i, s.threads[i], Holding(a));
  }

  /** Changing the reference of one copy changes no version, so threads keep what they know. */
  lemma SameVersions(s: Stm, s': Stm, t: Thread)
    requires ThreadInv(s, t) && s'.obj == s.obj && s'.counts == s.counts && s'.stores == s.stores
    requires forall a :: a in s.heap ==> a in s'.heap && s'.heap[a].version == s.heap[a].version
    ensures ThreadInv(s', t)
  {
  }

  /** What a step on copies has to show: each copy's count, and the thread itself. */
  lemma CopyStepInv(s: Stm, s': Stm, i: nat)
    requires Inv(s) && i < |s.threads| == |s'.threads| && s'.threads == s.threads[i := s'.threads[i]]
    requires s'.obj == s.obj && s'.counts == s.counts && s'.stores == s.stores && s'.heap.Keys == s.heap.Keys
    requires forall a :: a in s.heap ==> s'.heap[a].version == s.heap[a].version
    requires LockInv(s') && ThreadInv(s', s'.threads[i]) && forall a: Addr :: CopyInv(s', a)
    ensures Inv(s')
  {
    hide LockInv, CopyInv, Sum, W;
    forall j | 0 <= j < |s.threads| && j != i ensures ThreadInv(s', s.threads[j]) {
      assert s.threads[j] in s.threads;
      SameVersions(s, s', s.threads[j]);
    }
    OthersKeep(s, s', i);
  }

  lemma ReadLock(s: Stm, i: nat)
    requires LockInv(s) && i < |s.threads| && Reading(s.threads[i].pc)
    ensures LockInv(ReadStep(s, i))
  {
    hide Sum, PcHolds;
    var s' := ReadStep(s, i);
    assert s'.threads == s.threads[i := s'.threads[i]];
    LockSumsHold(s, s', i);
  }

  lemma ReadHolds(s: Stm, i: nat)
    requires i < |s.threads| && Reading(s.threads[i].pc) && !s.threads[i].pc.Loaded?
    ensures SameHolds(s.threads[i], ReadStep(s, i).threads[i])
  {
    var t, t' := s.threads[i], ReadStep(s, i).threads[i];
    if t.pc.Compare? {
      assert t' == if t.pc.ret == t.last then t.(pc := Dec(t.pc.ret), told := false) else Thread(Dec(t.last), t.pc.ret, t.pc.at, t.pc.ret.Some?) by { hide W, Count, PcHolds; }
      hide ReadStep;
      CompareHolds(t, t');
    } else {
      assert t' == (if t.pc.Load? then t.(pc := Loaded(s.obj, s.stores)) else if t.pc.Took? then t.(pc := Compare(t.pc.ret, t.pc.at))
        else Thread(Dec(t.last), None, 0, false)) by { hide W, Count, PcHolds; }
      hide ReadStep;
      SectionHolds(t, t');
    }
  }

  /** the reader box takes over one of the two references, stm_releasecopy the other */
  lemma CompareHolds(t: Thread, t': Thread)
    requires t.pc.Compare?
    requires t' == if t.pc.ret == t.last then t.(pc := Dec(t.pc.ret), told := false) else Thread(Dec(t.last), t.pc.ret, t.pc.at, t.pc.ret.Some?)
    ensures SameHolds(t, t')
  {
  }

  lemma SectionHolds(t: Thread, t': Thread)
    requires (t.pc.Load? && t'.pc.Loaded? && t'.last == t.last) || (t.pc.Took? && t' == t.(pc := Compare(t.pc.ret, t.pc.at)))
          || (t.pc.InDrop? && t' == Thread(Dec(t.last), None, 0, false))
    ensures SameHolds(t, t')
  {
  }

  lemma ReadInv(s: Stm, i: nat)
    requires Inv(s) && i < |s.threads| && Reading(s.threads[i].pc) && !s.threads[i].pc.Loaded?
    ensures Inv(ReadStep(s, i))
  {
    hide Sum, W, LockInv, CopyInv, Versions, SameHolds;
    var s', t := ReadStep(s, i), s.threads[i];
    assert t in s.threads && s'.threads == s.threads[i := s'.threads[i]];
    ReadLock(s, i);
    ReadHolds(s, i);
    if t.pc.Load? { SectionCounts(s, i); }
    SameMemoryKeeps(s, s', i);
  }

  /** Copies after the reference of one of them changed by d, for a hold or for good. */
  lemma CountedCopy(s: Stm, s': Stm, i: nat, c: Addr, d: int, a: Addr)
    requires Inv(s) && i < |s.threads| == |s'.threads| && s'.threads == s.threads[i := s'.threads[i]]
    requires s' == Count(s, c, d).(threads := s'.threads) && c in s.heap && s.heap[c].reference > 0 && s.heap[c].version > 0
    requires W(s'.threads[i], Holding(a)) == W(s.threads[i], Holding(a)) + (if a == c then d else 0)
    requires W(s.threads[i], Freeing(a)) == 0 && W(s'.threads[i], Freeing(a)) == One(a == c && s'.heap[c].reference == 0)
    ensures CopyInv(s', a)
  {
    hide W, Sum;
    assert CopyInv(s, a) && CopyInv(s, c);
    SumUpdate(s.threads, i, s'.threads[i], Holding(a));
    SumUpdate(s.threads, i, s'.threads[i], Freeing(a));
  }

  /** The reader takes its reference while the lock keeps the pointer from changing. */
  lemma LoadedInv(s: Stm, i: nat)
    requires Inv(s) && i < |s.threads| && s.threads[i].pc.Loaded?
    ensures Inv(ReadStep(s, i))
  {
    hide Sum, LockInv, CopyInv, Versions;
    var s', t := ReadStep(s, i), s.threads[i];
    assert t in s.threads && s'.threads == s.threads[i := s'.threads[i]];
    ReadLock(s, i);
    SectionCounts(s, i);
    if t.pc.ret.Some? {
      HeldAlive(s, i, t.pc.ret.value);
      forall a: Addr ensures CopyInv(s', a) { CountedCopy(s, s', i, t.pc.ret.value, 1, a); }
      CopyStepInv(s, s', i);
    } else {
      assert SameHolds(t, s'.threads[i]);
      SameMemoryKeeps(s, s', i);
    }
  }

  /** In a read section the object's pointer has its reference. */
  lemma SectionCounts(s: Stm, i: nat)
    requires LockInv(s) && Versions(s) && i < |s.threads| && InReadSection(s.threads[i].pc)
    ensures s.counts && Published(s, s.obj, s.stores)
  {
    hide Sum;
    SumUpdate(s.threads, i, s.threads[i], ReadSection);
    Dominated(s.threads);
  }

  lemma ReleaseLock(s: Stm, i: nat)
    requires LockInv(s) && i < |s.threads| && (s.threads[i].pc.Dec? || s.threads[i].pc.Free?)
    ensures LockInv(ReleaseStep(s, i))
  {
    hide Sum, PcHolds;
    var s' := ReleaseStep(s, i);
    assert s'.threads == s.threads[i := s'.threads[i]];
    LockSumsHold(s, s', i);
  }

  lemma DecInv(s: Stm, i: nat)
    requires Inv(s) && i < |s.threads| && s.threads[i].pc.Dec?
    ensures Inv(ReleaseStep(s, i))
  {
    hide Sum, LockInv, CopyInv, Versions;
    var s', t := ReleaseStep(s, i), s.threads[i];
    assert t in s.threads && s'.threads == s.threads[i := s'.threads[i]];
    ReleaseLock(s, i);
    if t.pc.copy.Some? {
      HeldAlive(s, i, t.pc.copy.value);
      forall a: Addr ensures CopyInv(s', a) { CountedCopy(s, s', i, t.pc.copy.value, -1, a); }
      CopyStepInv(s, s', i);
    } else {
      assert SameHolds(t, s'.threads[i]);
      SameMemoryKeeps(s, s', i);
    }
  }

  /** Whoever knows an address that is being freed is the one who frees it. */
  lemma NobodyKnows(s: Stm, i: nat, c: Addr, t: Thread)
    requires Inv(s) && i < |s.threads| && W(s.threads[i], Freeing(c)) > 0 && t in s.threads
    ensures c in s.heap && s.heap[c].reference == 0 && !Points(s, c) && Sum(s.threads, Freeing(c)) == 1
    ensures W(t, Holding(c)) == 0
  {
    hide W, Sum;
    assert CopyInv(s, c);
    SumUpdate(s.threads, i, s.threads[i], Freeing(c));
    var j :| 0 <= j < |s.threads| && s.threads[j] == t;
    SumUpdate(s.threads, j, t, Holding(c));
  }

  /** Freeing a copy that nobody knows. */
  lemma ForgetKeeps(s: Stm, s': Stm, c: Addr, t: Thread)
    requires ThreadInv(s, t) && Versions(s) && W(t, Holding(c)) == 0 && !Points(s, c)
    requires s'.heap == s.heap - {c} && s'.obj == s.obj && s'.counts == s.counts && s'.stores == s.stores
    ensures ThreadInv(s', t)
  {
  }

  lemma FreedCopy(s: Stm, i: nat, a: Addr)
    requires Inv(s) && i < |s.threads| && s.threads[i].pc.Free?
    ensures CopyInv(ReleaseStep(s, i), a)
  {
    hide Sum, LockInv, ThreadInv;
    var s', t := ReleaseStep(s, i), s.threads[i];
    assert t in s.threads && s'.threads == s.threads[i := s'.threads[i]];
    SumUpdate(s.threads, i, s'.threads[i], Holding(a));
    SumUpdate(s.threads, i, s'.threads[i], Freeing(a));
    assert CopyInv(s, a);
  }

  lemma IdleKeeps(s: Stm, t: Thread)
    requires ThreadInv(s, t)
    ensures ThreadInv(s, t.(pc := Idle))
  {
  }

  lemma FreeInv(s: Stm, i: nat)
    requires Inv(s) && i < |s.threads| && s.threads[i].pc.Free?
    ensures Inv(ReleaseStep(s, i))
  {
    hide Sum, LockInv, CopyInv, ThreadInv;
    var s', t, c := ReleaseStep(s, i), s.threads[i], s.threads[i].pc.c;
    assert t in s.threads && s'.threads == s.threads[i := s'.threads[i]];
    ReleaseLock(s, i);
    NobodyKnows(s, i, c, t);
    forall a: Addr ensures CopyInv(s', a) { FreedCopy(s, i, a); }
    assert ThreadInv(s', s'.threads[i]) by { ForgetKeeps(s, s', c, t); IdleKeeps(s', t); }
    forall j | 0 <= j < |s.threads| ensures ThreadInv(s', s.threads[j]) {
      NobodyKnows(s, i, c, s.threads[j]);
      ForgetKeeps(s, s', c, s.threads[j]);
    }
    OthersKeep(s, s', i);
  }

  // ------------------------------------------------------------------ the write sections

  lemma WriteLock(s: Stm, i: nat)
    requires LockInv(s) && i < |s.threads| && Writing(s.threads[i].pc)
    ensures LockInv(WriteStep(s, i)) && s.write
    ensures Sum(s.threads, ReadSection) == 0 && (s.counts <==> !s.threads[i].pc.CloseFree? && !s.threads[i].pc.CloseStore?)
  {
    hide Sum, PcHolds;
    var s' := WriteStep(s, i);
    assert s'.threads == s.threads[i := s'.threads[i]];
    LockSumsHold(s, s', i);
    Alone(s, i);
  }

  /** While thread i is in a write section, nobody else is in a section at all. */
  lemma NoOther(s: Stm, i: nat, j: nat)
    requires LockInv(s) && i < |s.threads| && Writing(s.threads[i].pc) && j < |s.threads| && j != i
    ensures !InReadSection(s.threads[j].pc) && !Writing(s.threads[j].pc) && !s.threads[j].pc.WaitReaders?
  {
    hide Sum;
    Alone(s, i);
    SumUpdate(s.threads, i, s.threads[i], WriteSection);
    SumUpdate(s.threads, j, s.threads[j], ReadSection);
  }

  /** steps that leave memory alone: loading the old pointer, and unlocking */
  lemma QuietWriteInv(s: Stm, i: nat)
    requires Inv(s) && i < |s.threads|
    requires (s.threads[i].pc.InWrite? && s.threads[i].pc.wjob.Update?) || s.threads[i].pc.Stored? || s.threads[i].pc.CloseUnlock?
    ensures Inv(WriteStep(s, i))
  {
    hide Sum, LockInv, CopyInv, Versions;
    var s', t := WriteStep(s, i), s.threads[i];
    assert t in s.threads && s'.threads == s.threads[i := s'.threads[i]];
    WriteLock(s, i);
    assert SameHolds(t, s'.threads[i]);
    SameMemoryKeeps(s, s', i);
  }

  /** a thread outside the sections does not notice a store to the pointer */
  lemma StoreKeeps(s: Stm, s': Stm, t: Thread, a: Addr)
    requires ThreadInv(s, t) && !InReadSection(t.pc) && !Writing(t.pc) && a in s.heap && s.heap[a].version == 0 && W(t, Holding(a)) == 0
    requires s'.heap == s.heap[a := Copy(s.heap[a].reference, s.stores + 1)]
    ensures ThreadInv(s', t)
  {
  }

  /** a copy that is not published yet is known to its updater only */
  lemma OnlyHolder(s: Stm, i: nat, a: Addr, j: nat)
    requires CopyInv(s, a) && a in s.heap && s.heap[a].version == 0
    requires i < |s.threads| && W(s.threads[i], Holding(a)) == 1 && j < |s.threads| && i != j
    ensures W(s.threads[j], Holding(a)) == 0
  {
    hide W, Sum;
    if i < j { SumTwo(s.threads, i, j, Holding(a)); } else { SumTwo(s.threads, j, i, Holding(a)); }
  }

  /** The store of a new copy: the updater's reference becomes the pointer's, the pointer's becomes
      the updater's. */
  lemma StoreInv(s: Stm, i: nat)
    requires Inv(s) && i < |s.threads| && s.threads[i].pc.OldLoaded?
    ensures Inv(WriteStep(s, i))
  {
    hide Sum, LockInv;
    var s', t := WriteStep(s, i), s.threads[i];
    assert t in s.threads && s'.threads == s.threads[i := s'.threads[i]];
    var a, was := t.pc.a, t.pc.was;
    assert CopyInv(s, a);
    WriteLock(s, i);
    StoredCopies(s, i);
    forall j | 0 <= j < |s.threads| && j != i ensures ThreadInv(s', s.threads[j]) {
      assert s.threads[j] in s.threads;
      NoOther(s, i, j);
      OnlyHolder(s, i, a, j);
      StoreKeeps(s, s', s.threads[j], a);
    }
    OthersKeep(s, s', i);
  }

  lemma StoredCopies(s: Stm, i: nat)
    requires Inv(s) && i < |s.threads| && s.threads[i].pc.OldLoaded?
    ensures forall b: Addr :: CopyInv(WriteStep(s, i), b)
    ensures Versions(WriteStep(s, i)) && Known(WriteStep(s, i), s.threads[i].pc.was)
  {
    hide Sum, LockInv;
    var s', t := WriteStep(s, i), s.threads[i];
    assert t in s.threads && s'.threads == s.threads[i := s'.threads[i]];
    assert CopyInv(s, t.pc.a);
    forall b: Addr ensures CopyInv(s', b) {
      assert CopyInv(s, b);
      SumUpdate(s.threads, i, s'.threads[i], Holding(b));
      SumUpdate(s.threads, i, s'.threads[i], Freeing(b));
    }
    forall b | b in s.heap ensures s.heap[b].version <= s.stores { assert CopyInv(s, b); }
  }

  /** Closing gives up the pointer's reference, frees the copy if it was the last one, and clears
      the pointer. */
  lemma CloseDecInv(s: Stm, i: nat)
    requires Inv(s) && i < |s.threads| && s.threads[i].pc == InWrite(Close)
    ensures Inv(WriteStep(s, i))
  {
    hide Sum, LockInv, CopyInv;
    var s', t := WriteStep(s, i), s.threads[i];
    assert t in s.threads && s'.threads == s.threads[i := s'.threads[i]];
    WriteLock(s, i);
    if s.obj.Some? { HeldAlive(s, i, s.obj.value); }
    forall a: Addr ensures CopyInv(s', a) { ClosedCopy(s, i, a); }
    forall j | 0 <= j < |s.threads| && j != i ensures ThreadInv(s', s.threads[j]) {
      assert s.threads[j] in s.threads;
      NoOther(s, i, j);
      ClosingKeeps(s, s', s.threads[j]);
    }
    OthersKeep(s, s', i);
  }

  lemma ClosedCopy(s: Stm, i: nat, a: Addr)
    requires Inv(s) && i < |s.threads| && s.threads[i].pc == InWrite(Close)
    ensures CopyInv(WriteStep(s, i), a)
  {
    hide Sum, LockInv;
    var s', t := WriteStep(s, i), s.threads[i];
    assert t in s.threads && s'.threads == s.threads[i := s'.threads[i]];
    if s.obj.Some? { HeldAlive(s, i, s.obj.value); }
    assert CopyInv(s, a);
    SumUpdate(s.threads, i, s'.threads[i], Holding(a));
    SumUpdate(s.threads, i, s'.threads[i], Freeing(a));
  }

  lemma ClosingKeeps(s: Stm, s': Stm, t: Thread)
    requires ThreadInv(s, t) && !InReadSection(t.pc) && !Writing(t.pc)
    requires forall a :: a in s.heap ==> a in s'.heap && s'.heap[a].version == s.heap[a].version
    ensures ThreadInv(s', t)
  {
  }

  lemma CloseFreeInv(s: Stm, i: nat)
    requires Inv(s) && i < |s.threads| && s.threads[i].pc.CloseFree?
    ensures Inv(WriteStep(s, i))
  {
    hide Sum, LockInv;
    var s', t, c := WriteStep(s, i), s.threads[i], s.threads[i].pc.c;
    assert t in s.threads && s'.threads == s.threads[i := s'.threads[i]];
    WriteLock(s, i);
    NobodyKnows(s, i, c, t);
    forall a: Addr ensures CopyInv(s', a) {
      assert CopyInv(s, a);
      SumUpdate(s.threads, i, s'.threads[i], Holding(a));
      SumUpdate(s.threads, i, s'.threads[i], Freeing(a));
    }
    forall j | 0 <= j < |s.threads| ensures ThreadInv(s', s.threads[j]) {
      NobodyKnows(s, i, c, s.threads[j]);
      ForgetKeeps(s, s', c, s.threads[j]);
    }
    OthersKeep(s, s', i);
  }

  lemma ClearInv(s: Stm, i: nat)
    requires Inv(s) && i < |s.threads| && s.threads[i].pc.CloseStore?
    ensures Inv(WriteStep(s, i))
  {
    hide Sum, LockInv;
    var s', t := WriteStep(s, i), s.threads[i];
    assert t in s.threads && s'.threads == s.threads[i := s'.threads[i]];
    WriteLock(s, i);
    forall a: Addr ensures CopyInv(s', a) {
      assert CopyInv(s, a);
      SumUpdate(s.threads, i, s'.threads[i], Holding(a));
      SumUpdate(s.threads, i, s'.threads[i], Freeing(a));
    }
    forall j | 0 <= j < |s.threads| && j != i ensures ThreadInv(s', s.threads[j]) {
      assert s.threads[j] in s.threads;
      NoOther(s, i, j);
      ClosingKeeps(s, s', s.threads[j]);
    }
    OthersKeep(s, s', i);
  }

  // ------------------------------------------------------------------ new operations and threads

  lemma StartLock(s: Stm, i: nat, what: What)
    requires LockInv(s) && i < |s.threads|
    ensures LockInv(Start(s, i, what))
  {
    hide Sum, PcHolds;
    var s' := Start(s, i, what);
    assert s'.threads == s.threads[i := s'.threads[i]];
    LockSumsHold(s, s', i);
  }

  lemma AllocateInv(s: Stm, i: nat, a: Addr)
    requires Inv(s) && i < |s.threads| && s.threads[i].pc.Idle? && a !in s.heap
    ensures Inv(Start(s, i, StartUpdate(a)))
  {
    hide Sum, LockInv;
    var s', t := Start(s, i, StartUpdate(a)), s.threads[i];
    assert t in s.threads && s'.threads == s.threads[i := s'.threads[i]];
    StartLock(s, i, StartUpdate(a));
    forall b: Addr ensures CopyInv(s', b) {
      assert CopyInv(s, b);
      SumUpdate(s.threads, i, s'.threads[i], Holding(b));
      SumUpdate(s.threads, i, s'.threads[i], Freeing(b));
    }
    forall j | 0 <= j < |s.threads| && j != i ensures ThreadInv(s', s.threads[j]) {
      assert s.threads[j] in s.threads;
      MoreMemory(s, s', s.threads[j], a);
    }
    OthersKeep(s, s', i);
  }

  lemma MoreMemory(s: Stm, s': Stm, t: Thread, a: Addr)
    requires ThreadInv(s, t) && a !in s.heap && s'.heap == s.heap[a := Copy(1, 0)]
    requires s'.obj == s.obj && s'.counts == s.counts && s'.stores == s.stores
    ensures ThreadInv(s', t)
  {
  }

  lemma StartInv(s: Stm, i: nat, what: What)
    requires Inv(s) && i < |s.threads|
    ensures Inv(Start(s, i, what))
  {
    hide Sum, LockInv, CopyInv, Versions;
    var s', t := Start(s, i, what), s.threads[i];
    assert t in s.threads && s'.threads == s.threads[i := s'.threads[i]];
    if t.pc.Idle? {
      if what.StartUpdate? {
        if what.a !in s.heap { AllocateInv(s, i, what.a); }
      } else {
        StartLock(s, i, what);
        assert SameHolds(t, s'.threads[i]);
        SameMemoryKeeps(s, s', i);
      }
    }
  }

  lemma SpawnInv(s: Stm)
    requires Inv(s)
    ensures Inv(Take(s, Spawn))
  {
    hide Sum;
    var t := Thread(Idle, None, 0, false);
    var s' := Take(s, Spawn);
    IdleHolds(t);
    forall k ensures Sum(s'.threads, k) == Sum(s.threads, k) { SumAppend(s.threads, t, k); }
    forall a: Addr ensures CopyInv(s', a) { assert CopyInv(s, a); }
    forall u | u in s'.threads ensures ThreadInv(s', u) { assert u == t || u in s.threads; }
  }

  /** Every step of every thread keeps the invariant. */
  lemma StepInv(s: Stm, step: Step)
    requires Inv(s)
    ensures Inv(Take(s, step))
  {
    hide Inv, LockStep, ReadStep, WriteStep, ReleaseStep, Start;
    match step
    case Spawn => SpawnInv(s);
    case Begin(i, what) => if i < |s.threads| { StartInv(s, i, what); }
    case Go(i) =>
      if i < |s.threads| {
        var pc := s.threads[i].pc;
        if Locking(pc) {
          LockStepInv(s, i);
        } else if Reading(pc) {
          if pc.Loaded? { LoadedInv(s, i); } else { ReadInv(s, i); }
        } else if Writing(pc) {
          match pc
          case InWrite(job) => if job.Update? { QuietWriteInv(s, i); } else { CloseDecInv(s, i); }
          case OldLoaded(_, _) => StoreInv(s, i);
          case CloseFree(_) => CloseFreeInv(s, i);
          case CloseStore => ClearInv(s, i);
          case _ => QuietWriteInv(s, i);
        } else {
          match pc
          case Dec(_) => DecInv(s, i);
          case Free(_) => FreeInv(s, i);
          case _ => IdleStep(s, i);
        }
      }
  }

  lemma IdleStep(s: Stm, i: nat)
    requires i < |s.threads| && s.threads[i].pc.Idle?
    ensures ReleaseStep(s, i) == s
  {
  }

  // ------------------------------------------------------------------ runs, and what they show

  /** a new object with its first copy */
  function Fresh(a: Addr): Stm
  {
    Stm(false, 0, Some(a), true, 1, map[a := Copy(1, 1)], [])
  }

  function Run(a: Addr, steps: seq<Step>): Stm
  {
    if steps == [] then Fresh(a) else Take(Run(a, steps[..|steps| - 1]), steps[|steps| - 1])
  }

  lemma {:induction false} RunInv(a: Addr, steps: seq<Step>)
    ensures Inv(Run(a, steps))
  {
    hide Take;
    if steps == [] {
      FreshInv(a);
    } else {
      RunInv(a, steps[..|steps| - 1]);
      StepInv(Run(a, steps[..|steps| - 1]), steps[|steps| - 1]);
    }
  }

  lemma FreshInv(a: Addr)
    ensures Inv(Fresh(a))
  {
  }

  /** With any number of threads, a writer in its section excludes all readers and all other
      writers. */
  lemma WriterExcludes(a: Addr, steps: seq<Step>, i: nat, j: nat)
    requires i < |Run(a, steps).threads| && j < |Run(a, steps).threads| && i != j && Writing(Run(a, steps).threads[i].pc)
    ensures !InReadSection(Run(a, steps).threads[j].pc) && !Writing(Run(a, steps).threads[j].pc)
  {
    hide Run;
    RunInv(a, steps);
    NoOther(Run(a, steps), i, j);
  }

  /** In every run a copy's reference is the object's pointer plus all that threads hold. */
  lemma ReferencesConserved(a: Addr, steps: seq<Step>, c: Addr)
    ensures var s := Run(a, steps);
            c in s.heap ==> s.heap[c].reference == One(Points(s, c)) + Sum(s.threads, Holding(c))
  {
    hide Run, Sum;
    RunInv(a, steps);
    assert CopyInv(Run(a, steps), c);
  }

  /** A copy that a thread holds, or is about to count, exists and is not being freed; the thread
      that frees a copy is the only one, the copy exists and nobody holds it. */
  lemma NeverFreedWhileHeld(a: Addr, steps: seq<Step>, i: nat, c: Addr)
    requires i < |Run(a, steps).threads|
    ensures var s := Run(a, steps);
            W(s.threads[i], Holding(c)) > 0 || (s.threads[i].pc.Loaded? && s.threads[i].pc.ret == Some(c)) ==>
              c in s.heap && s.heap[c].reference > 0 && Sum(s.threads, Freeing(c)) == 0
    ensures var s := Run(a, steps);
            W(s.threads[i], Freeing(c)) > 0 ==>
              c in s.heap && s.heap[c].reference == 0 && Sum(s.threads, Holding(c)) == 0 && Sum(s.threads, Freeing(c)) == 1
  {
    hide Run, W, Sum;
    RunInv(a, steps);
    var s := Run(a, steps);
    assert s.threads[i] in s.threads && CopyInv(s, c);
    if W(s.threads[i], Holding(c)) > 0 || (s.threads[i].pc.Loaded? && s.threads[i].pc.ret == Some(c)) { HeldAlive(s, i, c); }
    if W(s.threads[i], Freeing(c)) > 0 { NobodyKnows(s, i, c, s.threads[i]); }
  }

  // ------------------------------------------------------------------ the comparison of lread

  /** Store number 'at' was one of NULL, or there was no such store yet: no copy carries it. */
  ghost predicate Blank(s: Stm, o: Option<Addr>, at: nat)
  {
    o.None? ==> at <= s.stores && forall a :: a in s.heap && s.heap[a].version > 0 ==> s.heap[a].version != at
  }

  ghost predicate ThreadBlank(s: Stm, t: Thread)
  {
    && Blank(s, t.last, t.seen)
    && (t.pc.Took? || t.pc.Compare? ==> Blank(s, t.pc.ret, t.pc.at))
  }

  ghost predicate BlankInv(s: Stm)
  {
    && (s.counts ==> Blank(s, s.obj, s.stores))
    && forall t :: t in s.threads ==> ThreadBlank(s, t)
  }

  /** Stores only go on, and only a store gives a number to a copy, the next one. */
  predicate Later(s: Stm, s': Stm)
  {
    && s.stores <= s'.stores
    && forall a :: a in s'.heap && s'.heap[a].version > 0 ==>
         (a in s.heap && s'.heap[a].version == s.heap[a].version) || s'.heap[a].version == s'.stores == s.stores + 1
  }

  /** the pointer is what it was, or it was just stored */
  predicate SamePointer(s: Stm, s': Stm)
  {
    s'.counts && s'.obj.None? ==>
      (s.counts && s'.obj == s.obj && s'.stores == s.stores) || (s'.stores == s.stores + 1 && s'.heap == s.heap)
  }

  /** what thread i remembers after its step: what it knew before, or the pointer it just loaded */
  predicate SameMemories(t: Thread, t': Thread)
  {
    && ((t'.last == t.last && t'.seen == t.seen) || (t'.last == None && t'.seen == 0) || (t.pc.Compare? && t'.last == t.pc.ret && t'.seen == t.pc.at))
    && (t'.pc.Took? || t'.pc.Compare? ==>
          (t.pc.Loaded? || t.pc.Took? || t.pc.Compare?) && t'.pc.ret == t.pc.ret && t'.pc.at == t.pc.at)
  }

  predicate Moves(s: Stm, s': Stm, i: nat)
    requires i < |s.threads|
  {
    && |s'.threads| == |s.threads| && s'.threads == s.threads[i := s'.threads[i]]
    && Later(s, s') && SamePointer(s, s') && SameMemories(s.threads[i], s'.threads[i])
  }

  lemma LockMoves(s: Stm, i: nat)
    requires i < |s.threads| && Locking(s.threads[i].pc)
    ensures Moves(s, LockStep(s, i), i)
  {
  }

  lemma ReadMoves(s: Stm, i: nat)
    requires i < |s.threads| && Reading(s.threads[i].pc)
    ensures Moves(s, ReadStep(s, i), i)
  {
  }

  lemma WriteLater(s: Stm, i: nat)
    requires i < |s.threads| && Writing(s.threads[i].pc)
    ensures Later(s, WriteStep(s, i))
  {
  }

  lemma WritePointer(s: Stm, i: nat)
    requires i < |s.threads| && Writing(s.threads[i].pc)
    ensures SamePointer(s, WriteStep(s, i))
  {
  }

  lemma WriteMemories(s: Stm, i: nat)
    requires i < |s.threads| && Writing(s.threads[i].pc)
    ensures var s' := WriteStep(s, i);
            && |s'.threads| == |s.threads| && s'.threads == s.threads[i := s'.threads[i]]
            && SameMemories(s.threads[i], s'.threads[i])
  {
  }

  lemma WriteMoves(s: Stm, i: nat)
    requires i < |s.threads| && Writing(s.threads[i].pc)
    ensures Moves(s, WriteStep(s, i), i)
  {
    hide WriteStep, Later, SamePointer, SameMemories;
    WriteLater(s, i);
    WritePointer(s, i);
    WriteMemories(s, i);
  }

  lemma ReleaseMoves(s: Stm, i: nat)
    requires i < |s.threads|
    ensures Moves(s, ReleaseStep(s, i), i)
  {
  }

  lemma StartMoves(s: Stm, i: nat, what: What)
    requires i < |s.threads|
    ensures Moves(s, Start(s, i, what), i)
  {
  }

  lemma BlankLater(s: Stm, s': Stm, o: Option<Addr>, at: nat)
    requires Blank(s, o, at) && Later(s, s')
    ensures Blank(s', o, at)
  {
  }

  /** Whatever moves like that keeps it: a store of NULL takes a number that no copy has. */
  lemma MovesBlank(s: Stm, s': Stm, i: nat)
    requires Inv(s) && BlankInv(s) && i < |s.threads| && Moves(s, s', i)
    ensures BlankInv(s')
  {
    hide LockInv, W, Sum, Versions;
    if s'.counts && s'.obj.None? {
      forall a | a in s.heap ensures s.heap[a].version <= s.stores { assert CopyInv(s, a); }
      hide CopyInv;
      assert Blank(s', s'.obj, s'.stores);
    }
    hide CopyInv;
    assert s.threads[i] in s.threads && ThreadBlank(s, s.threads[i]) && ThreadInv(s, s.threads[i]);
    forall t | t in s'.threads ensures ThreadBlank(s', t) {
      if t in s.threads { assert ThreadBlank(s, t); } else { assert t == s'.threads[i] && ThreadBlank(s, t); }
      ThreadLater(s, s', t);
    }
  }

  lemma ThreadLater(s: Stm, s': Stm, t: Thread)
    requires ThreadBlank(s, t) && Later(s, s')
    ensures ThreadBlank(s', t)
  {
    BlankLater(s, s', t.last, t.seen);
    if t.pc.Took? || t.pc.Compare? { BlankLater(s, s', t.pc.ret, t.pc.at); }
  }

  lemma BlankStep(s: Stm, step: Step)
    requires Inv(s) && BlankInv(s)
    ensures BlankInv(Take(s, step))
  {
    hide Inv, BlankInv, Moves, LockStep, ReadStep, WriteStep, ReleaseStep, Start;
    var s' := Take(s, step);
    match step
    case Spawn => SpawnBlank(s);
    case Begin(i, what) =>
      if i < |s.threads| {
        StartMoves(s, i, what);
        MovesBlank(s, s', i);
      }
    case Go(i) =>
      if i < |s.threads| {
        var pc := s.threads[i].pc;
        if Locking(pc) { LockMoves(s, i); } else if Reading(pc) { ReadMoves(s, i); } else if Writing(pc) { WriteMoves(s, i); } else { ReleaseMoves(s, i); }
        MovesBlank(s, s', i);
      }
  }

  lemma SpawnBlank(s: Stm)
    requires BlankInv(s)
    ensures BlankInv(Take(s, Spawn))
  {
    var s' := Take(s, Spawn);
    forall t | t in s'.threads ensures ThreadBlank(s', t) { assert t == Thread(Idle, None, 0, false) || t in s.threads; }
  }

  lemma {:induction false} RunBlank(a: Addr, steps: seq<Step>)
    ensures BlankInv(Run(a, steps))
  {
    hide Take, BlankInv, Inv;
    if steps == [] {
      assert BlankInv(Fresh(a)) by { FreshBlank(a); }
    } else {
      RunBlank(a, steps[..|steps| - 1]);
      RunInv(a, steps[..|steps| - 1]);
      BlankStep(Run(a, steps[..|steps| - 1]), steps[|steps| - 1]);
    }
  }

  lemma FreshBlank(a: Addr)
    ensures BlankInv(Fresh(a))
  {
  }

  /** When the comparison of lread tells the truth. The addresses are the same just when no store to
      the pointer happened between the two reads, although addresses are used again; a reader that
      has read nothing yet has seen store number 0. The only exception is a reader that had nothing
      and finds nothing again: it is not told of the stores in between. */
  lemma NoAba(a: Addr, steps: seq<Step>, i: nat)
    requires i < |Run(a, steps).threads| && Run(a, steps).threads[i].pc.Compare?
    ensures var t := Run(a, steps).threads[i];
            t.pc.ret == t.last <==> t.pc.at == t.seen || (t.pc.ret.None? && t.last.None?)
  {
    hide Run, LockInv, CopyInv;
    RunInv(a, steps);
    RunBlank(a, steps);
    var s := Run(a, steps);
    assert s.threads[i] in s.threads && ThreadInv(s, s.threads[i]) && ThreadBlank(s, s.threads[i]);
  }

  lemma RunSnoc(a: Addr, steps: seq<Step>, step: Step)
    ensures Run(a, steps + [step]) == Take(Run(a, steps), step)
  {
    assert (steps + [step])[..|steps|] == steps;
  }

  /** one thread that does nothing but change its place */
  function Single(write: bool, read: int, obj: Option<Addr>, counts: bool, stores: nat, heap: map<Addr, Copy>, pc: Pc): Stm
  {
    Stm(write, read, obj, counts, stores, heap, [Thread(pc, None, 0, false)])
  }

  lemma ClosedRun(a: Addr) returns (steps: seq<Step>)
    ensures Run(a, steps) == Single(false, 0, None, true, 2, map[], Idle)
  {
    hide Run, Take;
    var full := map[a := Copy(1, 1)];
    assert Run(a, []) == Fresh(a) by { RunNothing(a); }
    steps := [] + [Spawn];
    RunSnoc(a, [], Spawn);
    assert Take(Fresh(a), Spawn) == Single(false, 0, Some(a), true, 1, full, Idle) by { Opened(a); }
    RunSnoc(a, steps, Begin(0, StartClose));
    steps := steps + [Begin(0, StartClose)];
    CloseBegins(a);
    for k := 0 to 6
      invariant Run(a, steps) == ClosingState(a, k)
    {
      CloseGoes(a, k);
      RunSnoc(a, steps, Go(0));
      steps := steps + [Go(0)];
    }
  }

  lemma RunNothing(a: Addr)
    ensures Run(a, []) == Fresh(a)
  {
  }

  lemma Opened(a: Addr)
    ensures Take(Fresh(a), Spawn) == Single(false, 0, Some(a), true, 1, map[a := Copy(1, 1)], Idle)
  {
  }

  /** closing, access by access */
  function ClosingState(a: Addr, k: nat): Stm
  {
    var full, gone := map[a := Copy(1, 1)], map[a := Copy(0, 1)];
    if k == 0 then Single(false, 0, Some(a), true, 1, full, TrySet(Close))
    else if k == 1 then Single(true, 0, Some(a), true, 1, full, WaitReaders(Close))
    else if k == 2 then Single(true, 0, Some(a), true, 1, full, InWrite(Close))
    else if k == 3 then Single(true, 0, Some(a), false, 1, gone, CloseFree(a))
    else if k == 4 then Single(true, 0, Some(a), false, 1, map[], CloseStore)
    else if k == 5 then Single(true, 0, None, true, 2, map[], CloseUnlock)
    else Single(false, 0, None, true, 2, map[], Idle)
  }

  lemma CloseBegins(a: Addr)
    ensures Take(Single(false, 0, Some(a), true, 1, map[a := Copy(1, 1)], Idle), Begin(0, StartClose)) == ClosingState(a, 0)
  {
  }

  lemma CloseGoes(a: Addr, k: nat)
    requires k < 6
    ensures Take(ClosingState(a, k), Go(0)) == ClosingState(a, k + 1)
  {
    var s, s' := Take(ClosingState(a, k), Go(0)), ClosingState(a, k + 1);
    assert s.threads == s'.threads && s.heap == s'.heap;
  }

  /** reading a closed object for the first time */
  function ReadingState(k: nat): Stm
  {
    if k == 0 then Single(false, 0, None, true, 2, map[], Spin(ReadCopy))
    else if k == 1 then Single(false, 0, None, true, 2, map[], Adding(ReadCopy))
    else if k == 2 then Single(false, 1, None, true, 2, map[], Checking(ReadCopy))
    else if k == 3 then Single(false, 1, None, true, 2, map[], Load)
    else if k == 4 then Single(false, 1, None, true, 2, map[], Loaded(None, 2))
    else if k == 5 then Single(false, 1, None, true, 2, map[], Took(None, 2))
    else Single(false, 0, None, true, 2, map[], Compare(None, 2))
  }

  lemma ReadingNothing()
    ensures Take(Single(false, 0, None, true, 2, map[], Idle), Begin(0, StartRead)) == ReadingState(0)
    ensures forall k :: 0 <= k < 6 ==> Take(ReadingState(k), Go(0)) == ReadingState(k + 1)
  {
    forall k | 0 <= k < 6 ensures Take(ReadingState(k), Go(0)) == ReadingState(k + 1) {
      assert Take(ReadingState(k), Go(0)).threads == ReadingState(k + 1).threads;
    }
  }

  /** The exception occurs: the first read of a closed object finds 'the same', after two stores. */
  lemma UnseenStores(a: Addr) returns (steps: seq<Step>)
    ensures |Run(a, steps).threads| == 1 && Run(a, steps).threads[0] == Thread(Compare(None, 2), None, 0, false)
  {
    hide Run, Take;
    steps := ClosedRun(a);
    ReadingNothing();
    RunSnoc(a, steps, Begin(0, StartRead));
    steps := steps + [Begin(0, StartRead)];
    for k := 0 to 6
      invariant Run(a, steps) == ReadingState(k)
    {
      RunSnoc(a, steps, Go(0));
      steps := steps + [Go(0)];
    }
  }
}
