/** The life of services and their queues. */
module DispatchProtocol {
  // Any number of workers, senders, killers and creators. One step of the model is one region
  // of the source that runs under a lock, or one atomic operation on a reference count.

  import opened MessageQueue

  type Id = nat

  /** A service context and its queue. The context is freed in the step that sets q.release.
      The last three fields are a record of everything that ever happened to messages. */
  datatype Service = Service(registered: bool, ref: int, init: bool, q: View, freed: nat,
    pushed: seq<Message>, handed: seq<Message>, dropped: seq<Message>)

  /** Where a thread is, and what it holds. A release, a retirement or the end of a queue is
      followed by 'next'. */
  datatype Agent =
    | Idle(weight: int, hand: Option<Id>)
    | Popping(weight: int, q: Id, i: nat, n: int)
    | Measuring(weight: int, q: Id)
    | Next(weight: int, q: Id)
    | PushBack(weight: int, q: Id, nq: Id)
    | Grab(h: Id, m: Message)
    | Push(h: Id, m: Message)
    | Retire(h: Id, next: Agent)
    | Init(h: Id)
    | Launch(h: Id)
    | Release(h: Id, next: Agent)
    | Delete(h: Id, next: Agent)
    | Reclaim(q: Id, next: Agent)
    | Dropping(q: Id, next: Agent)
    | Free(q: Id, next: Agent)
    | Done

  datatype State = State(services: seq<Service>, global: seq<Id>, agents: seq<Agent>)

  datatype Step =
    | SpawnWorker(weight: int)
    | SpawnSend(h: Id, m: Message)
    | SpawnKill(h: Id)
    | SpawnNew
    | Go(i: nat, ok: bool)

  predicate Registered(s: State, h: Id)
  {
    h < |s.services| && s.services[h].registered
  }

  /** All ids an agent keeps belong to services that were created. A handle that is only looked
      up may be any number. */
  predicate Known(a: Agent, n: nat)
  {
    match a
    case Idle(_, hand) => hand.Some? ==> hand.value < n
    case Popping(_, q, _, _) => q < n
    case Measuring(_, q) => q < n
    case Next(_, q) => q < n
    case PushBack(_, q, nq) => q < n && nq < n
    case Grab(_, _) => true
    case Push(h, _) => h < n
    case Retire(_, next) => Known(next, n)
    case Init(h) => h < n
    case Launch(h) => h < n
    case Release(h, next) => h < n && Known(next, n)
    case Delete(h, next) => h < n && Known(next, n)
    case Reclaim(q, next) => q < n && Known(next, n)
    case Dropping(q, next) => q < n && Known(next, n)
    case Free(q, next) => q < n && Known(next, n)
    case Done => true
  }

  predicate AllKnown(s: State)
  {
    && (forall a :: a in s.agents ==> Known(a, |s.services|))
    && (forall q :: q in s.global ==> q < |s.services|)
  }

  // ------------------------------------------------------------------ steps

  function With(s: State, i: nat, a: Agent): State
    requires i < |s.agents|
  {
    s.(agents := s.agents[i := a])
  }

  function Set(s: State, h: Id, v: Service): State
    requires h < |s.services|
  {
    s.(services := s.services[h := v])
  }

  function Enlist(s: State, q: Id, needed: bool): State
  {
    if needed then s.(global := s.global + [q]) else s
  }

  /** the next turn of the dispatch loop */
  function Continue(weight: int, q: Id, i: nat, n: int): Agent
  {
    if i < n then Popping(weight, q, i, n) else Next(weight, q)
  }

  /** skynet_context_message_dispatch: take a queue, or look its context up. */
  function Look(s: State, i: nat): State
    requires i < |s.agents| && s.agents[i].Idle? && Known(s.agents[i], |s.services|)
  {
    var w := s.agents[i].weight;
    match s.agents[i].hand
    case None => if s.global == [] then s else With(s.(global := s.global[1..]), i, Idle(w, Some(s.global[0])))
    case Some(q) =>
      var v := s.services[q];
      if v.registered then With(Set(s, q, v.(ref := v.ref + 1)), i, Popping(w, q, 0, 1))
      else With(s, i, Reclaim(q, Idle(w, None)))
  }

  /** its loop over the messages */
  function HandOut(s: State, i: nat): State
    requires i < |s.agents| && s.agents[i].Popping? && Known(s.agents[i], |s.services|)
  {
    var Popping(w, q, k, n) := s.agents[i];
    var v := s.services[q];
    if v.q.msgs == [] then With(Set(s, q, v.(q := Popped(v.q))), i, Release(q, Idle(w, None)))
    else
      With(Set(s, q, v.(q := Popped(v.q), handed := v.handed + [v.q.msgs[0]])), i,
        if k == 0 && w >= 0 then Measuring(w, q) else Continue(w, q, k + 1, n))
  }

  function Measure(s: State, i: nat): State
    requires i < |s.agents| && s.agents[i].Measuring? && Known(s.agents[i], |s.services|)
  {
    var Measuring(w, q) := s.agents[i];
    With(s, i, Continue(w, q, 1, if w >= 0 then |s.services[q].q.msgs| / Two(w) else 1))
  }

  /** and its end: keep the queue if no other one waits */
  function Exchange(s: State, i: nat): State
    requires i < |s.agents| && s.agents[i].Next? && Known(s.agents[i], |s.services|)
  {
    var Next(w, q) := s.agents[i];
    if s.global == [] then With(s, i, Release(q, Idle(w, Some(q))))
    else With(s.(global := s.global[1..]), i, PushBack(w, q, s.global[0]))
  }

  function GiveBack(s: State, i: nat): State
    requires i < |s.agents| && s.agents[i].PushBack? && Known(s.agents[i], |s.services|)
  {
    var PushBack(w, q, nq) := s.agents[i];
    With(Enlist(s, q, true), i, Release(q, Idle(w, Some(nq))))
  }

  /** skynet_context_push */
  function Lookup(s: State, i: nat): State
    requires i < |s.agents| && s.agents[i].Grab?
  {
    var Grab(h, m) := s.agents[i];
    if !Registered(s, h) then With(s, i, Done)
    else
      var v := s.services[h];
      With(Set(s, h, v.(ref := v.ref + 1)), i, Push(h, m))
  }

  function Store(s: State, i: nat): State
    requires i < |s.agents| && s.agents[i].Push? && Known(s.agents[i], |s.services|)
  {
    var Push(h, m) := s.agents[i];
    var v := s.services[h];
    With(Enlist(Set(s, h, v.(q := Pushed(v.q, m), pushed := v.pushed + [m])), h, !v.q.inGlobal), i, Release(h, Done))
  }

  /** skynet_handle_retire */
  function Unregister(s: State, i: nat): State
    requires i < |s.agents| && s.agents[i].Retire?
  {
    var Retire(h, next) := s.agents[i];
    if !Registered(s, h) then With(s, i, next)
    else With(Set(s, h, s.services[h].(registered := false)), i, Release(h, next))
  }

  /** skynet_context_new, after the init function returned, and its last step, which marks the
      service as ready unless its context was deleted meanwhile */
  function Inited(s: State, i: nat, ok: bool): State
    requires i < |s.agents| && s.agents[i].Init?
  {
    var h := s.agents[i].h;
    With(s, i, Release(h, if ok then Launch(h) else Retire(h, Reclaim(h, Done))))
  }

  function Launched(s: State, i: nat): State
    requires i < |s.agents| && s.agents[i].Launch? && Known(s.agents[i], |s.services|)
  {
    var h := s.agents[i].h;
    var v := s.services[h];
    With(Enlist(Set(s, h, v.(init := v.init || !v.q.release)), h, true), i, Done)
  }

  /** skynet_context_release and delete_context */
  function Unref(s: State, i: nat): State
    requires i < |s.agents| && s.agents[i].Release? && Known(s.agents[i], |s.services|)
  {
    var Release(h, next) := s.agents[i];
    var v := s.services[h];
    With(Set(s, h, v.(ref := v.ref - 1)), i, if v.ref - 1 == 0 then Delete(h, next) else next)
  }

  function Deleted(s: State, i: nat): State
    requires i < |s.agents| && s.agents[i].Delete? && Known(s.agents[i], |s.services|)
  {
    var Delete(h, next) := s.agents[i];
    var v := s.services[h];
    With(Enlist(Set(s, h, v.(q := Marked(v.q))), h, !v.q.inGlobal), i, next)
  }

  /** skynet_mq_release and _drop_queue */
  function Reclaimed(s: State, i: nat): State
    requires i < |s.agents| && s.agents[i].Reclaim? && Known(s.agents[i], |s.services|)
  {
    var Reclaim(q, next) := s.agents[i];
    if s.services[q].q.release then With(s, i, Dropping(q, next)) else With(Enlist(s, q, true), i, next)
  }

  function DropOne(s: State, i: nat): State
    requires i < |s.agents| && s.agents[i].Dropping? && Known(s.agents[i], |s.services|)
  {
    var Dropping(q, next) := s.agents[i];
    var v := s.services[q];
    if v.q.msgs == [] then With(Set(s, q, v.(q := Popped(v.q))), i, Free(q, next))
    else Set(s, q, v.(q := Popped(v.q), dropped := v.dropped + [v.q.msgs[0]]))
  }

  function Freed(s: State, i: nat): State
    requires i < |s.agents| && s.agents[i].Free? && Known(s.agents[i], |s.services|)
  {
    var Free(q, next) := s.agents[i];
    var v := s.services[q];
    With(Set(s, q, v.(freed := v.freed + 1)), i, next)
  }

  /** One step of agent i; 'ok' is the result of a service's init function. */
  function Act(s: State, i: nat, ok: bool): State
    requires AllKnown(s) && i < |s.agents|
  {
    assert s.agents[i] in s.agents;
    match s.agents[i]
    case Idle(_, _) => Look(s, i)
    case Popping(_, _, _, _) => HandOut(s, i)
    case Measuring(_, _) => Measure(s, i)
    case Next(_, _) => Exchange(s, i)
    case PushBack(_, _, _) => GiveBack(s, i)
    case Grab(_, _) => Lookup(s, i)
    case Push(_, _) => Store(s, i)
    case Retire(_, _) => Unregister(s, i)
    case Init(_) => Inited(s, i, ok)
    case Launch(_) => Launched(s, i)
    case Release(_, _) => Unref(s, i)
    case Delete(_, _) => Deleted(s, i)
    case Reclaim(_, _) => Reclaimed(s, i)
    case Dropping(_, _) => DropOne(s, i)
    case Free(_, _) => Freed(s, i)
    case Done => s
  }

  function Fresh(): Service
  {
    Service(true, 2, false, Created(), 0, [], [], [])
  }

  function Take(s: State, step: Step): State
    requires AllKnown(s)
  {
    match step
    case SpawnWorker(w) => s.(agents := s.agents + [Idle(w, None)])
    case SpawnSend(h, m) => s.(agents := s.agents + [Grab(h, m)])
    case SpawnKill(h) => s.(agents := s.agents + [Retire(h, Done)])
    case SpawnNew => s.(services := s.services + [Fresh()], agents := s.agents + [Init(|s.services|)])
    case Go(i, ok) => if i < |s.agents| then Act(s, i, ok) else s
  }

  // ------------------------------------------------------------------ what agents hold

  datatype Kind = Hand | Make | Hold | Run | Del | Out | Drop | End

  function One(b: bool): nat { if b then 1 else 0 }

  /** How often an agent holds x: a queue in a worker's hand or in its creator's hand, a
      reference to a context, a service it is dispatching, the duty to delete one, a queue whose context it could not look up
      any more, one that it drops or is about to free. */
  function W(a: Agent, k: Kind, x: Id): nat
  {
    match a
    case Idle(_, hand) => One(k.Hand? && hand == Some(x))
    case Popping(_, q, _, _) => One((k.Hand? || k.Hold? || k.Run?) && q == x)
    case Measuring(_, q) => One((k.Hand? || k.Hold? || k.Run?) && q == x)
    case Next(_, q) => One((k.Hand? || k.Hold? || k.Run?) && q == x)
    case PushBack(_, q, nq) => One((k.Hand? || k.Hold? || k.Run?) && q == x) + One(k.Hand? && nq == x)
    case Grab(_, _) => 0
    case Push(h, _) => One(k.Hold? && h == x)
    case Retire(h, next) => if k.Out? && h == x then 0 else W(next, k, x)
    case Init(h) => One((k.Make? || k.Hold?) && h == x)
    case Launch(h) => One(k.Make? && h == x)
    case Release(h, next) => One(k.Hold? && h == x) + W(next, k, x)
    case Delete(h, next) => One(k.Del? && h == x) + W(next, k, x)
    case Reclaim(q, next) => One(((if next.Done? then k.Make? else k.Hand?) || k.Out?) && q == x) + W(next, k, x)
    case Dropping(q, next) => One(((if next.Done? then k.Make? else k.Hand?) || k.Out? || k.Drop?) && q == x) + W(next, k, x)
    case Free(q, next) => One(((if next.Done? then k.Make? else k.Hand?) || k.Out? || k.Drop? || k.End?) && q == x) + W(next, k, x)
    case Done => 0
  }

  function Sum(agents: seq<Agent>, k: Kind, x: Id): nat
  {
    if agents == [] then 0 else Sum(agents[..|agents| - 1], k, x) + W(agents[|agents| - 1], k, x)
  }

  lemma {:induction false} SumUpdate(agents: seq<Agent>, i: nat, a: Agent, k: Kind, x: Id)
    requires i < |agents|
    ensures Sum(agents, k, x) >= W(agents[i], k, x)
    ensures Sum(agents[i := a], k, x) == Sum(agents, k, x) - W(agents[i], k, x) + W(a, k, x)
  {
    hide W;
    var n := |agents| - 1;
    if i < n {
      SumUpdate(agents[..n], i, a, k, x);
      assert agents[i := a][..n] == agents[..n][i := a];
    } else {
      assert agents[i := a][..n] == agents[..n];
    }
  }

  lemma SumAppend(agents: seq<Agent>, a: Agent, k: Kind, x: Id)
    ensures Sum(agents + [a], k, x) == Sum(agents, k, x) + W(a, k, x)
  {
    assert (agents + [a])[..|agents|] == agents;
  }

  lemma {:induction false} UnknownHeld(a: Agent, n: nat, k: Kind, x: Id)
    requires Known(a, n) && x >= n
    ensures W(a, k, x) == 0
  {
    match a
    case Retire(_, next) => UnknownHeld(next, n, k, x);
    case Release(_, next) => UnknownHeld(next, n, k, x);
    case Delete(_, next) => UnknownHeld(next, n, k, x);
    case Reclaim(_, next) => UnknownHeld(next, n, k, x);
    case Dropping(_, next) => UnknownHeld(next, n, k, x);
    case Free(_, next) => UnknownHeld(next, n, k, x);
    case _ =>
  }

  lemma {:induction false} UnknownSum(agents: seq<Agent>, n: nat, k: Kind, x: Id)
    requires (forall a :: a in agents ==> Known(a, n)) && x >= n
    ensures Sum(agents, k, x) == 0
  {
    hide W, Known;
    if agents != [] {
      assert agents[|agents| - 1] in agents;
      UnknownHeld(agents[|agents| - 1], n, k, x);
      UnknownSum(agents[..|agents| - 1], n, k, x);
    }
  }

  // ------------------------------------------------------------------ the invariant

  datatype Tally = Tally(own: Own, hold: nat, run: nat, del: nat, ends: Ends)

  datatype Own = Own(listed: nat, hand: nat, make: nat)

  datatype Ends = Ends(out: nat, drop: nat, end: nat)

  ghost function Count(s: State, x: Id): Tally
  {
    Tally(Own(multiset(s.global)[x], Sum(s.agents, Hand, x), Sum(s.agents, Make, x)),
      Sum(s.agents, Hold, x), Sum(s.agents, Run, x), Sum(s.agents, Del, x),
      Ends(Sum(s.agents, Out, x), Sum(s.agents, Drop, x), Sum(s.agents, End, x)))
  }

  function Owners(t: Tally): nat { t.own.listed + t.own.hand + t.own.make }

  /** What links the flags of a service to who can reach it. */
  predicate Good(v: Service, t: Tally)
  {
    InOrder(v) && GoodFlags(v, t)
  }

  predicate InOrder(v: Service) { v.pushed == v.handed + v.dropped + v.q.msgs }

  predicate GoodFlags(v: Service, t: Tally)
  {
    && Owners(t) <= 1
    && v.ref == One(v.registered) + t.hold
    && t.del == One(v.ref == 0 && !v.q.release)
    && (v.registered && !v.init ==> t.own.make == 1)
    && (t.run > 0 ==> v.init)
    && (t.ends.out > 0 ==> !v.registered)
    && (t.ends.drop > 0 ==> v.q.release)
    && (t.ends.end > 0 ==> v.q.release && v.q.msgs == [])
    && (!v.q.release ==> GoodLive(v, t))
    && (v.q.release ==> GoodReleased(v, t))
  }

  predicate GoodLive(v: Service, t: Tally)
  {
    v.freed == 0 && (v.q.inGlobal <==> Owners(t) == 1) && (!v.q.inGlobal ==> v.q.msgs == []) && v.dropped == []
  }

  predicate GoodReleased(v: Service, t: Tally)
  {
    v.ref == 0 && ((v.freed == 0 && Owners(t) == 1) || (v.freed == 1 && Owners(t) == 0 && v.q.msgs == []))
  }

  ghost predicate Inv(s: State)
  {
    AllKnown(s) && forall x :: 0 <= x < |s.services| ==> Good(s.services[x], Count(s, x))
  }

  function Swap(t: Tally, listed: nat, was: Agent, a: Agent, x: Id): Tally
    requires t.own.hand >= W(was, Hand, x) && t.own.make >= W(was, Make, x) && t.hold >= W(was, Hold, x) && t.run >= W(was, Run, x)
    requires t.del >= W(was, Del, x) && t.ends.out >= W(was, Out, x) && t.ends.drop >= W(was, Drop, x) && t.ends.end >= W(was, End, x)
  {
    Tally(Own(listed, t.own.hand - W(was, Hand, x) + W(a, Hand, x), t.own.make - W(was, Make, x) + W(a, Make, x)),
      t.hold - W(was, Hold, x) + W(a, Hold, x), t.run - W(was, Run, x) + W(a, Run, x), t.del - W(was, Del, x) + W(a, Del, x),
      Ends(t.ends.out - W(was, Out, x) + W(a, Out, x), t.ends.drop - W(was, Drop, x) + W(a, Drop, x), t.ends.end - W(was, End, x) + W(a, End, x)))
  }

  lemma CountSwap(s: State, s': State, i: nat, x: Id)
    requires i < |s.agents| == |s'.agents| && s'.agents == s.agents[i := s'.agents[i]]
    ensures var t, a := Count(s, x), s.agents[i];
            && t.own.listed == multiset(s.global)[x]
            && t.own.hand >= W(a, Hand, x) && t.own.make >= W(a, Make, x) && t.hold >= W(a, Hold, x) && t.run >= W(a, Run, x)
            && t.del >= W(a, Del, x) && t.ends.out >= W(a, Out, x) && t.ends.drop >= W(a, Drop, x) && t.ends.end >= W(a, End, x)
            && Count(s', x) == Swap(t, multiset(s'.global)[x], a, s'.agents[i], x)
  {
    hide W, Sum;
    SumUpdate(s.agents, i, s'.agents[i], Hand, x);
    SumUpdate(s.agents, i, s'.agents[i], Make, x);
    SumUpdate(s.agents, i, s'.agents[i], Hold, x);
    SumUpdate(s.agents, i, s'.agents[i], Run, x);
    SumUpdate(s.agents, i, s'.agents[i], Del, x);
    SumUpdate(s.agents, i, s'.agents[i], Out, x);
    SumUpdate(s.agents, i, s'.agents[i], Drop, x);
    SumUpdate(s.agents, i, s'.agents[i], End, x);
  }

  lemma Listing(global: seq<Id>, q: Id, x: Id)
    ensures multiset(global + [q])[x] == multiset(global)[x] + One(q == x)
    ensures global != [] ==> multiset(global)[x] == One(global[0] == x) + multiset(global[1..])[x]
  {
    if global != [] { assert global == [global[0]] + global[1..]; }
  }

  /** what an agent holds after the last step of a call */
  lemma Leaf(a: Agent, x: Id)
    requires a.Idle? || a.Launch? || a.Done?
    ensures W(a, Hand, x) == One(a.Idle? && a.hand == Some(x)) && W(a, Make, x) == One(a.Launch? && a.h == x)
    ensures W(a, Hold, x) == 0 && W(a, Run, x) == 0 && W(a, Del, x) == 0 && W(a, Out, x) == 0 && W(a, Drop, x) == 0 && W(a, End, x) == 0
  {
  }

  lemma FailedLaunch(h: Id, x: Id)
    ensures var a := Retire(h, Reclaim(h, Done));
            && W(a, Hand, x) == 0 && W(a, Make, x) == One(h == x)
            && W(a, Hold, x) == 0 && W(a, Run, x) == 0 && W(a, Del, x) == 0 && W(a, Out, x) == 0 && W(a, Drop, x) == 0 && W(a, End, x) == 0
  {
    Leaf(Done, x);
    assert forall k: Kind :: W(Reclaim(h, Done), k, x) == One((k.Make? || k.Out?) && h == x) + W(Done, k, x);
  }

  /** From the global list to a worker's hand. */
  lemma Moved(v: Service, t: Tally, t': Tally, n: nat)
    requires Good(v, t) && t.own.listed >= n && t' == t.(own := Own(t.own.listed - n, t.own.hand + n, t.own.make))
    ensures Good(v, t')
  {
  }

  lemma TakeGood(s: State, i: nat, x: Id)
    requires Inv(s) && i < |s.agents| && x < |s.services| && s.agents[i].Idle? && s.agents[i].hand.None? && s.global != []
    ensures |Look(s, i).services| == |s.services|
    ensures Good(Look(s, i).services[x], Count(Look(s, i), x))
  {
    hide Count, Sum, AllKnown, W, Good;
    var s', a, g := Look(s, i), s.agents[i], s.global[0];
    assert Good(s.services[x], Count(s, x)) && s'.agents == s.agents[i := Idle(a.weight, Some(g))];
    CountSwap(s, s', i, x);
    Listing(s.global, g, x);
    Leaf(a, x);
    Leaf(Idle(a.weight, Some(g)), x);
    Moved(s.services[x], Count(s, x), Count(s', x), One(g == x));
  }

  lemma FindGood(s: State, i: nat, x: Id)
    requires Inv(s) && i < |s.agents| && x < |s.services| && s.agents[i].Idle? && s.agents[i].hand.Some? && Known(s.agents[i], |s.services|)
    ensures |Look(s, i).services| == |s.services|
    ensures Good(Look(s, i).services[x], Count(Look(s, i), x))
  {
    hide Count, Sum, AllKnown;
    var s', a := Look(s, i), s.agents[i];
    assert Good(s.services[x], Count(s, x)) && s'.agents == s.agents[i := s'.agents[i]];
    CountSwap(s, s', i, x);
    Leaf(Idle(a.weight, None), x);
  }

  /** Each step keeps the books of every service. */
  lemma LookGood(s: State, i: nat, x: Id)
    requires Inv(s) && i < |s.agents| && x < |s.services| && s.agents[i].Idle? && Known(s.agents[i], |s.services|)
    ensures |Look(s, i).services| == |s.services|
    ensures Good(Look(s, i).services[x], Count(Look(s, i), x))
  {
    hide Count, Good;
    if s.agents[i].hand.Some? { FindGood(s, i, x); } else if s.global != [] { TakeGood(s, i, x); }
  }

  lemma SwitchGood(s: State, i: nat, x: Id)
    requires Inv(s) && i < |s.agents| && x < |s.services| && s.agents[i].Next? && Known(s.agents[i], |s.services|) && s.global != []
    ensures |Exchange(s, i).services| == |s.services|
    ensures Good(Exchange(s, i).services[x], Count(Exchange(s, i), x))
  {
    hide Count, Sum, AllKnown, Good;
    var s', a, g := Exchange(s, i), s.agents[i], s.global[0];
    assert Good(s.services[x], Count(s, x)) && s'.agents == s.agents[i := PushBack(a.weight, a.q, g)];
    CountSwap(s, s', i, x);
    Listing(s.global, g, x);
    Moved(s.services[x], Count(s, x), Count(s', x), One(g == x));
  }

  lemma KeepGood(s: State, i: nat, x: Id)
    requires Inv(s) && i < |s.agents| && x < |s.services| && s.agents[i].Next? && Known(s.agents[i], |s.services|) && s.global == []
    ensures |Exchange(s, i).services| == |s.services|
    ensures Good(Exchange(s, i).services[x], Count(Exchange(s, i), x))
  {
    hide Count, Sum, AllKnown;
    var s', a := Exchange(s, i), s.agents[i];
    assert Good(s.services[x], Count(s, x)) && s'.agents == s.agents[i := s'.agents[i]];
    CountSwap(s, s', i, x);
    Leaf(Idle(a.weight, Some(a.q)), x);
  }

  lemma ExchangeGood(s: State, i: nat, x: Id)
    requires Inv(s) && i < |s.agents| && x < |s.services| && s.agents[i].Next? && Known(s.agents[i], |s.services|)
    ensures |Exchange(s, i).services| == |s.services|
    ensures Good(Exchange(s, i).services[x], Count(Exchange(s, i), x))
  {
    hide Count, Good;
    if s.global != [] { SwitchGood(s, i, x); } else { KeepGood(s, i, x); }
  }

  lemma HandOutOrder(s: State, i: nat, x: Id)
    requires i < |s.agents| && x < |s.services| && s.agents[i].Popping? && Known(s.agents[i], |s.services|)
    ensures InOrder(s.services[x]) && s.services[x].dropped == [] ==> InOrder(HandOut(s, i).services[x])
    ensures x != s.agents[i].q ==> HandOut(s, i).services[x] == s.services[x]
  {
  }

  lemma HandOutGood(s: State, i: nat, x: Id)
    requires Inv(s) && i < |s.agents| && x < |s.services| && s.agents[i].Popping? && Known(s.agents[i], |s.services|)
    ensures |HandOut(s, i).services| == |s.services|
    ensures Good(HandOut(s, i).services[x], Count(HandOut(s, i), x))
  {
    hide Count, Sum, AllKnown, InOrder;
    var s', a := HandOut(s, i), s.agents[i];
    HandOutOrder(s, i, x);
    assert Good(s.services[x], Count(s, x)) && s'.agents == s.agents[i := s'.agents[i]];
    CountSwap(s, s', i, x);
    Leaf(Idle(a.weight, None), x);
  }

  lemma MeasureGood(s: State, i: nat, x: Id)
    requires Inv(s) && i < |s.agents| && x < |s.services| && s.agents[i].Measuring? && Known(s.agents[i], |s.services|)
    ensures |Measure(s, i).services| == |s.services|
    ensures Good(Measure(s, i).services[x], Count(Measure(s, i), x))
  {
    hide Count, Sum, AllKnown;
    var s', a := Measure(s, i), s.agents[i];
    assert Good(s.services[x], Count(s, x)) && s'.agents == s.agents[i := s'.agents[i]];
    CountSwap(s, s', i, x);
  }

  lemma GiveBackGood(s: State, i: nat, x: Id)
    requires Inv(s) && i < |s.agents| && x < |s.services| && s.agents[i].PushBack? && Known(s.agents[i], |s.services|)
    ensures |GiveBack(s, i).services| == |s.services|
    ensures Good(GiveBack(s, i).services[x], Count(GiveBack(s, i), x))
  {
    hide Count, Sum, AllKnown;
    var s', a := GiveBack(s, i), s.agents[i];
    assert Good(s.services[x], Count(s, x)) && s'.agents == s.agents[i := s'.agents[i]];
    CountSwap(s, s', i, x);
    Listing(s.global, a.q, x);
    Leaf(Idle(a.weight, Some(a.nq)), x);
  }

  lemma LookupGood(s: State, i: nat, x: Id)
    requires Inv(s) && i < |s.agents| && x < |s.services| && s.agents[i].Grab? && Known(s.agents[i], |s.services|)
    ensures |Lookup(s, i).services| == |s.services|
    ensures Good(Lookup(s, i).services[x], Count(Lookup(s, i), x))
  {
    hide Count, Sum, AllKnown;
    var s', a := Lookup(s, i), s.agents[i];
    assert Good(s.services[x], Count(s, x)) && s'.agents == s.agents[i := s'.agents[i]];
    CountSwap(s, s', i, x);
    Leaf(Done, x);
  }

  lemma StoreGood(s: State, i: nat, x: Id)
    requires Inv(s) && i < |s.agents| && x < |s.services| && s.agents[i].Push? && Known(s.agents[i], |s.services|)
    ensures |Store(s, i).services| == |s.services|
    ensures Good(Store(s, i).services[x], Count(Store(s, i), x))
  {
    hide Count, Sum, AllKnown;
    var s', a := Store(s, i), s.agents[i];
    assert Good(s.services[x], Count(s, x)) && s'.agents == s.agents[i := s'.agents[i]];
    CountSwap(s, s', i, x);
    Listing(s.global, a.h, x);
    Leaf(Done, x);
    var v := s.services[a.h];
    assert v.handed + v.dropped + (v.q.msgs + [a.m]) == v.handed + v.dropped + v.q.msgs + [a.m];
  }

  lemma UnregisterGood(s: State, i: nat, x: Id)
    requires Inv(s) && i < |s.agents| && x < |s.services| && s.agents[i].Retire? && Known(s.agents[i], |s.services|)
    ensures |Unregister(s, i).services| == |s.services|
    ensures Good(Unregister(s, i).services[x], Count(Unregister(s, i), x))
  {
    hide Count, Sum, AllKnown;
    var s', a := Unregister(s, i), s.agents[i];
    assert Good(s.services[x], Count(s, x)) && s'.agents == s.agents[i := s'.agents[i]];
    CountSwap(s, s', i, x);
  }

  lemma InitedGood(s: State, i: nat, ok: bool, x: Id)
    requires Inv(s) && i < |s.agents| && x < |s.services| && s.agents[i].Init? && Known(s.agents[i], |s.services|)
    ensures |Inited(s, i, ok).services| == |s.services|
    ensures Good(Inited(s, i, ok).services[x], Count(Inited(s, i, ok), x))
  {
    hide Count, Sum, AllKnown;
    var s', a := Inited(s, i, ok), s.agents[i];
    assert Good(s.services[x], Count(s, x)) && s'.agents == s.agents[i := s'.agents[i]];
    CountSwap(s, s', i, x);
    Leaf(Launch(a.h), x);
    FailedLaunch(a.h, x);
  }

  lemma LaunchedGood(s: State, i: nat, x: Id)
    requires Inv(s) && i < |s.agents| && x < |s.services| && s.agents[i].Launch? && Known(s.agents[i], |s.services|)
    ensures |Launched(s, i).services| == |s.services|
    ensures Good(Launched(s, i).services[x], Count(Launched(s, i), x))
  {
    hide Count, Sum, AllKnown;
    var s', a := Launched(s, i), s.agents[i];
    assert Good(s.services[x], Count(s, x)) && s'.agents == s.agents[i := s'.agents[i]];
    CountSwap(s, s', i, x);
    Listing(s.global, a.h, x);
    Leaf(Done, x);
  }

  lemma UnrefGood(s: State, i: nat, x: Id)
    requires Inv(s) && i < |s.agents| && x < |s.services| && s.agents[i].Release? && Known(s.agents[i], |s.services|)
    ensures |Unref(s, i).services| == |s.services|
    ensures Good(Unref(s, i).services[x], Count(Unref(s, i), x))
  {
    hide Count, Sum, AllKnown;
    var s', a := Unref(s, i), s.agents[i];
    assert Good(s.services[x], Count(s, x)) && s'.agents == s.agents[i := s'.agents[i]];
    CountSwap(s, s', i, x);
  }

  lemma DeletedGood(s: State, i: nat, x: Id)
    requires Inv(s) && i < |s.agents| && x < |s.services| && s.agents[i].Delete? && Known(s.agents[i], |s.services|)
    ensures |Deleted(s, i).services| == |s.services|
    ensures Good(Deleted(s, i).services[x], Count(Deleted(s, i), x))
  {
    hide Count, Sum, AllKnown;
    var s', a := Deleted(s, i), s.agents[i];
    assert Good(s.services[x], Count(s, x)) && s'.agents == s.agents[i := s'.agents[i]];
    CountSwap(s, s', i, x);
    Listing(s.global, a.h, x);
  }

  lemma ReclaimedGood(s: State, i: nat, x: Id)
    requires Inv(s) && i < |s.agents| && x < |s.services| && s.agents[i].Reclaim? && Known(s.agents[i], |s.services|)
    ensures |Reclaimed(s, i).services| == |s.services|
    ensures Good(Reclaimed(s, i).services[x], Count(Reclaimed(s, i), x))
  {
    hide Count, Sum, AllKnown, Good;
    if s.services[s.agents[i].q].q.release { StartDropping(s, i, x); } else { Relisted(s, i, x); }
  }

  lemma StartDropping(s: State, i: nat, x: Id)
    requires Inv(s) && i < |s.agents| && x < |s.services| && s.agents[i].Reclaim? && Known(s.agents[i], |s.services|)
    requires s.services[s.agents[i].q].q.release
    ensures Reclaimed(s, i).services == s.services && Good(s.services[x], Count(Reclaimed(s, i), x))
  {
    hide Count, Sum, AllKnown, InOrder;
    var s', a := Reclaimed(s, i), s.agents[i];
    assert Good(s.services[x], Count(s, x)) && s'.agents == s.agents[i := s'.agents[i]];
    CountSwap(s, s', i, x);
  }

  lemma Relisted(s: State, i: nat, x: Id)
    requires Inv(s) && i < |s.agents| && x < |s.services| && s.agents[i].Reclaim? && Known(s.agents[i], |s.services|)
    requires !s.services[s.agents[i].q].q.release
    ensures |Reclaimed(s, i).services| == |s.services|
    ensures Good(Reclaimed(s, i).services[x], Count(Reclaimed(s, i), x))
  {
    hide Count, Sum, AllKnown;
    var s', a := Reclaimed(s, i), s.agents[i];
    assert Good(s.services[x], Count(s, x)) && s'.agents == s.agents[i := s'.agents[i]];
    CountSwap(s, s', i, x);
    Listing(s.global, a.q, x);
  }

  lemma DropOneGood(s: State, i: nat, x: Id)
    requires Inv(s) && i < |s.agents| && x < |s.services| && s.agents[i].Dropping? && Known(s.agents[i], |s.services|)
    ensures |DropOne(s, i).services| == |s.services|
    ensures Good(DropOne(s, i).services[x], Count(DropOne(s, i), x))
  {
    hide Count, Sum, AllKnown, Good;
    if s.services[s.agents[i].q].q.msgs == [] { NoneLeft(s, i, x); } else { OneDropped(s, i, x); }
  }

  lemma NoneLeft(s: State, i: nat, x: Id)
    requires Inv(s) && i < |s.agents| && x < |s.services| && s.agents[i].Dropping? && Known(s.agents[i], |s.services|)
    requires s.services[s.agents[i].q].q.msgs == []
    ensures |DropOne(s, i).services| == |s.services|
    ensures Good(DropOne(s, i).services[x], Count(DropOne(s, i), x))
  {
    hide Count, Sum, AllKnown;
    var s', a := DropOne(s, i), s.agents[i];
    assert Good(s.services[x], Count(s, x)) && s'.agents == s.agents[i := s'.agents[i]];
    CountSwap(s, s', i, x);
  }

  lemma OneDropped(s: State, i: nat, x: Id)
    requires Inv(s) && i < |s.agents| && x < |s.services| && s.agents[i].Dropping? && Known(s.agents[i], |s.services|)
    requires s.services[s.agents[i].q].q.msgs != []
    ensures |DropOne(s, i).services| == |s.services|
    ensures Good(DropOne(s, i).services[x], Count(DropOne(s, i), x))
  {
    hide Count, Sum, AllKnown;
    var s', a := DropOne(s, i), s.agents[i];
    assert Good(s.services[x], Count(s, x)) && s'.agents == s.agents[i := s'.agents[i]];
    CountSwap(s, s', i, x);
  }

  lemma FreedGood(s: State, i: nat, x: Id)
    requires Inv(s) && i < |s.agents| && x < |s.services| && s.agents[i].Free? && Known(s.agents[i], |s.services|)
    ensures |Freed(s, i).services| == |s.services|
    ensures Good(Freed(s, i).services[x], Count(Freed(s, i), x))
  {
    hide Count, Sum, AllKnown;
    var s', a := Freed(s, i), s.agents[i];
    assert Good(s.services[x], Count(s, x)) && s'.agents == s.agents[i := s'.agents[i]];
    CountSwap(s, s', i, x);
  }

  /** One step of one agent keeps the books of every service. */
  lemma ActGood(s: State, i: nat, ok: bool, x: Id)
    requires Inv(s) && i < |s.agents| && x < |s.services|
    ensures |Act(s, i, ok).services| == |s.services|
    ensures Good(Act(s, i, ok).services[x], Count(Act(s, i, ok), x))
  {
    hide Count, Sum, Good, Look, HandOut, Measure, Exchange, GiveBack, Lookup, Store, Unregister, Inited, Launched, Unref, Deleted, Reclaimed, DropOne, Freed;
    assert s.agents[i] in s.agents;
    match s.agents[i]
    case Idle(_, _) => LookGood(s, i, x);
    case Popping(_, _, _, _) => HandOutGood(s, i, x);
    case Measuring(_, _) => MeasureGood(s, i, x);
    case Next(_, _) => ExchangeGood(s, i, x);
    case PushBack(_, _, _) => GiveBackGood(s, i, x);
    case Grab(_, _) => LookupGood(s, i, x);
    case Push(_, _) => StoreGood(s, i, x);
    case Retire(_, _) => UnregisterGood(s, i, x);
    case Init(_) => InitedGood(s, i, ok, x);
    case Launch(_) => LaunchedGood(s, i, x);
    case Release(_, _) => UnrefGood(s, i, x);
    case Delete(_, _) => DeletedGood(s, i, x);
    case Reclaim(_, _) => ReclaimedGood(s, i, x);
    case Dropping(_, _) => DropOneGood(s, i, x);
    case Free(_, _) => FreedGood(s, i, x);
    case Done =>
  }

  lemma {:induction false} KnownMore(a: Agent, n: nat, m: nat)
    requires Known(a, n) && n <= m
    ensures Known(a, m)
  {
    match a
    case Retire(_, next) => KnownMore(next, n, m);
    case Release(_, next) => KnownMore(next, n, m);
    case Delete(_, next) => KnownMore(next, n, m);
    case Reclaim(_, next) => KnownMore(next, n, m);
    case Dropping(_, next) => KnownMore(next, n, m);
    case Free(_, next) => KnownMore(next, n, m);
    case _ =>
  }

  lemma LeafKnown(a: Agent, n: nat)
    requires a.Idle? || a.Launch? || a.Done?
    ensures Known(a, n) <==> (a.Idle? && a.hand.Some? ==> a.hand.value < n) && (a.Launch? ==> a.h < n)
  {
  }

  /** the one new agent state of a step, and the one new entry of the global list */
  lemma WorkerKnown(s: State, i: nat, ok: bool)
    requires AllKnown(s) && i < |s.agents|
    requires s.agents[i].Idle? || s.agents[i].Popping? || s.agents[i].Measuring? || s.agents[i].Next? || s.agents[i].PushBack?
    ensures OneKnown(s, Act(s, i, ok), i)
  {
    var a, n := s.agents[i], |s.services|;
    assert a in s.agents;
    match a
    case Idle(w, _) => LeafKnown(Idle(w, None), n); HeadKnown(s, w);
    case Popping(w, _, _, _) => LeafKnown(Idle(w, None), n);
    case Next(w, q) => LeafKnown(Idle(w, Some(q)), n); HeadKnown(s, w);
    case PushBack(w, _, nq) => LeafKnown(Idle(w, Some(nq)), n);
    case _ =>
  }

  lemma NextKnown(s: State, i: nat, ok: bool)
    requires AllKnown(s) && i < |s.agents|
    ensures OneKnown(s, Act(s, i, ok), i)
  {
    var a, n := s.agents[i], |s.services|;
    assert a in s.agents;
    LeafKnown(Done, n);
    match a
    case Idle(_, _) => WorkerKnown(s, i, ok);
    case Popping(_, _, _, _) => WorkerKnown(s, i, ok);
    case Measuring(_, _) => WorkerKnown(s, i, ok);
    case Next(_, _) => WorkerKnown(s, i, ok);
    case PushBack(_, _, _) => WorkerKnown(s, i, ok);
    case Init(h) =>
      LeafKnown(Launch(h), n);
      assert Known(Reclaim(h, Done), n) && Known(Retire(h, Reclaim(h, Done)), n);
    case _ =>
  }

  predicate OneKnown(s: State, s': State, i: nat)
    requires i < |s.agents|
  {
    && |s'.services| == |s.services| && |s'.agents| == |s.agents| && Known(s'.agents[i], |s.services|)
    && forall q :: q in s'.global ==> q in s.global || q < |s.services|
  }

  lemma HeadKnown(s: State, w: int)
    requires AllKnown(s)
    ensures s.global != [] ==> s.global[0] < |s.services| && Known(Idle(w, Some(s.global[0])), |s.services|)
    ensures s.global != [] ==> forall q :: q in s.global[1..] ==> q in s.global
  {
    if s.global != [] { assert s.global[0] in s.global; }
  }

  lemma ActKnown(s: State, i: nat, ok: bool)
    requires AllKnown(s) && i < |s.agents|
    ensures |Act(s, i, ok).services| == |s.services| && AllKnown(Act(s, i, ok))
  {
    hide Known;
    NextKnown(s, i, ok);
    var s' := Act(s, i, ok);
    assert s'.agents == s.agents[i := s'.agents[i]];
    forall b | b in s'.agents ensures Known(b, |s.services|) {
      assert b == s'.agents[i] || b in s.agents;
    }
  }

  lemma SpawnGood(s: State, a: Agent, x: Id)
    requires Inv(s) && x < |s.services| && forall k: Kind :: W(a, k, x) == 0
    ensures Count(s.(agents := s.agents + [a]), x) == Count(s, x)
  {
    hide Sum, W;
    forall k: Kind { SumAppend(s.agents, a, k, x); }
  }

  lemma NewKnown(s: State)
    requires AllKnown(s)
    ensures AllKnown(Take(s, SpawnNew))
  {
    var n := |s.services|;
    var s', a := Take(s, SpawnNew), Init(n);
    forall b | b in s'.agents ensures Known(b, n + 1) {
      if b in s.agents { KnownMore(b, n, n + 1); } else { assert b == a; }
    }
  }

  lemma FreshCount(s: State, x: Id)
    requires AllKnown(s) && x == |s.services|
    ensures Count(s, x) == Tally(Own(0, 0, 0), 0, 0, 0, Ends(0, 0, 0))
  {
    hide Sum;
    forall k: Kind ensures Sum(s.agents, k, x) == 0 { hide Known, W; UnknownSum(s.agents, x, k, x); }
    assert x !in s.global;
  }

  lemma CreatorHolds(n: Id, x: Id)
    ensures forall k: Kind :: W(Init(n), k, x) == One(x == n && (k.Make? || k.Hold?))
  {
  }

  lemma NewCount(s: State, x: Id)
    requires AllKnown(s) && x == |s.services|
    ensures Count(s.(agents := s.agents + [Init(x)]), x) == Tally(Own(0, 0, 1), 1, 0, 0, Ends(0, 0, 0))
  {
    hide Sum, W, AllKnown, Known;
    FreshCount(s, x);
    CreatorHolds(x, x);
    forall k: Kind { SumAppend(s.agents, Init(x), k, x); }
  }

  /** A new service and its creator. */
  lemma NewGood(s: State, x: Id)
    requires Inv(s) && x <= |s.services|
    ensures var s' := Take(s, SpawnNew); AllKnown(s') && Good(s'.services[x], Count(s', x))
  {
    hide Sum, Known, W, GoodFlags;
    var n := |s.services|;
    var s', a := Take(s, SpawnNew), Init(n);
    var t := s.(agents := s.agents + [a]);
    NewKnown(s);
    assert s'.global == t.global && s'.agents == t.agents;
    assert Count(s', x) == Count(t, x);
    if x == n {
      NewCount(s, x);
      FreshGood(s'.services[x], Count(s', x));
    } else {
      hide Good;
      assert Good(s.services[x], Count(s, x));
      CreatorHolds(n, x);
      SpawnGood(s, a, x);
    }
  }

  lemma FreshGood(v: Service, t: Tally)
    requires t.own.listed == t.own.hand == t.run == t.del == t.ends.out == t.ends.drop == t.ends.end == 0 && t.own.make == t.hold == 1
    requires v.registered && v.ref == 2 && !v.init && v.freed == 0 && v.q == Created() && v.dropped == []
    ensures GoodFlags(v, t)
  {
  }

  lemma StarterHolds(a: Agent, x: Id)
    requires a.Grab? || (a.Idle? && a.hand.None?)
    ensures forall k: Kind :: W(a, k, x) == 0
  {
  }

  lemma KillerHolds(h: Id, x: Id)
    ensures forall k: Kind :: W(Retire(h, Done), k, x) == 0
  {
    assert forall k: Kind :: W(Done, k, x) == 0;
  }

  /** Every step of every agent keeps the invariant. */
  lemma StepKeepsInv(s: State, step: Step)
    requires Inv(s)
    ensures Inv(Take(s, step))
  {
    hide Count, Sum, Good, Act, W;
    var s' := Take(s, step);
    match step
    case SpawnNew =>
      NewGood(s, |s.services|);
      forall x: Id | x <= |s.services| ensures AllKnown(s') && Good(s'.services[x], Count(s', x)) { NewGood(s, x); }
    case Go(i, ok) =>
      if i < |s.agents| {
        ActKnown(s, i, ok);
        forall x: Id | x < |s.services| ensures Good(s'.services[x], Count(s', x)) { ActGood(s, i, ok, x); }
      }
    case SpawnWorker(w) =>
      forall x: Id | x < |s.services| ensures Good(s'.services[x], Count(s', x)) {
        StarterHolds(Idle(w, None), x);
        SpawnGood(s, Idle(w, None), x);
      }
    case SpawnSend(h, m) =>
      forall x: Id | x < |s.services| ensures Good(s'.services[x], Count(s', x)) {
        StarterHolds(Grab(h, m), x);
        SpawnGood(s, Grab(h, m), x);
      }
    case SpawnKill(h) =>
      LeafKnown(Done, |s.services|);
      forall x: Id | x < |s.services| ensures Good(s'.services[x], Count(s', x)) {
        KillerHolds(h, x);
        SpawnGood(s, Retire(h, Done), x);
      }
  }

  // ------------------------------------------------------------------ runs

  const START := State([], [], [])

  /** s is reached from the empty system by some run, with any interleaving. */
  ghost predicate Reachable(s: State)
  {
    exists steps: seq<Step> :: Reached(steps, s)
  }

  ghost predicate Reached(steps: seq<Step>, s: State)
  {
    if steps == [] then s == START
    else exists p: State :: Reached(steps[..|steps| - 1], p) && AllKnown(p) && s == Take(p, steps[|steps| - 1])
  }

  lemma {:induction false} ReachedInv(steps: seq<Step>, s: State)
    requires Reached(steps, s)
    ensures Inv(s)
  {
    if steps != [] {
      var p :| Reached(steps[..|steps| - 1], p) && AllKnown(p) && s == Take(p, steps[|steps| - 1]);
      ReachedInv(steps[..|steps| - 1], p);
      StepKeepsInv(p, steps[|steps| - 1]);
    }
  }

  lemma ReachableInv(s: State)
    requires Reachable(s)
    ensures Inv(s)
  {
    var steps :| Reached(steps, s);
    ReachedInv(steps, s);
  }

  // ------------------------------------------------------------------ what it means

  /** in a worker's or in its creator's hand */
  predicate Owns(a: Agent, q: Id)
  {
    W(a, Hand, q) + W(a, Make, q) > 0
  }

  lemma {:induction false} SumAtLeast(agents: seq<Agent>, i: nat, j: nat, k: Kind, x: Id)
    requires i < j < |agents|
    ensures Sum(agents, k, x) >= W(agents[i], k, x) + W(agents[j], k, x)
  {
    hide W;
    var n := |agents| - 1;
    if j < n { SumAtLeast(agents[..n], i, j, k, x); } else { SumUpdate(agents[..n], i, Done, k, x); }
  }

  lemma {:induction false} SumWitness(agents: seq<Agent>, k: Kind, x: Id) returns (i: nat)
    requires Sum(agents, k, x) > 0
    ensures i < |agents| && W(agents[i], k, x) > 0
  {
    hide W;
    var n := |agents| - 1;
    if W(agents[n], k, x) > 0 { i := n; } else { i := SumWitness(agents[..n], k, x); }
  }

  /** No queue is in two places: not in two hands, not in a hand and on the global list, not on
      the list twice. So no service is ever dispatched by two workers. */
  lemma SingleOwner(s: State, q: Id, i: nat, j: nat)
    requires Reachable(s) && q < |s.services|
    ensures multiset(s.global)[q] <= 1
    ensures i < |s.agents| && q in s.global ==> !Owns(s.agents[i], q)
    ensures i < j < |s.agents| ==> !(Owns(s.agents[i], q) && Owns(s.agents[j], q))
  {
    hide W, Sum;
    ReachableInv(s);
    assert Good(s.services[q], Count(s, q));
    if i < |s.agents| {
      SumUpdate(s.agents, i, Done, Hand, q);
      SumUpdate(s.agents, i, Done, Make, q);
      if i < j < |s.agents| {
        SumAtLeast(s.agents, i, j, Hand, q);
        SumAtLeast(s.agents, i, j, Make, q);
        SumUpdate(s.agents, j, Done, Hand, q);
        SumUpdate(s.agents, j, Done, Make, q);
      }
    }
  }

  /** A queue that holds messages, or whose context is gone but which is not freed, is on the
      global list or in somebody's hand. */
  lemma NoStrandedMessage(s: State, q: Id)
    requires Reachable(s) && q < |s.services|
    requires s.services[q].q.msgs != [] || (s.services[q].q.release && s.services[q].freed == 0)
    ensures q in s.global || exists i :: 0 <= i < |s.agents| && Owns(s.agents[i], q)
  {
    hide W, Sum;
    ReachableInv(s);
    assert Good(s.services[q], Count(s, q));
    if q !in s.global {
      if Sum(s.agents, Hand, q) > 0 {
        var i := SumWitness(s.agents, Hand, q);
        assert Owns(s.agents[i], q);
      } else {
        var i := SumWitness(s.agents, Make, q);
        assert Owns(s.agents[i], q);
      }
    }
  }

  /** A queue is freed at most once, and then nothing leads to it any more: its handle is not
      registered, it is on no list and in no hand, and no thread has a reference to its context. */
  lemma FreedUnreachable(s: State, q: Id, i: nat)
    requires Reachable(s) && q < |s.services|
    ensures s.services[q].freed <= 1
    ensures s.services[q].freed == 1 ==> !s.services[q].registered && s.services[q].q.release && q !in s.global
    ensures s.services[q].freed == 1 && i < |s.agents| ==> !Owns(s.agents[i], q) && W(s.agents[i], Hold, q) == 0
  {
    hide W, Sum;
    ReachableInv(s);
    assert Good(s.services[q], Count(s, q));
    if i < |s.agents| {
      SumUpdate(s.agents, i, Done, Hand, q);
      SumUpdate(s.agents, i, Done, Make, q);
      SumUpdate(s.agents, i, Done, Hold, q);
    }
  }

  /** Messages are handed out in the order they were pushed; what is left when the context dies
      is dropped in that order, and when the queue is freed nothing is left. */
  lemma EachMessageOnce(s: State, q: Id)
    requires Reachable(s) && q < |s.services|
    ensures var v := s.services[q];
            && v.pushed == v.handed + v.dropped + v.q.msgs
            && (!v.q.release ==> v.dropped == [])
            && (v.freed == 1 ==> v.pushed == v.handed + v.dropped)
  {
    ReachableInv(s);
    assert Good(s.services[q], Count(s, q));
  }

  /** the end of a service, once its context is deleted */
  predicate Ending(v: Service, v': Service)
  {
    && v'.q.release && v'.pushed == v.pushed && v'.handed == v.handed
    && v.freed <= v'.freed && v.dropped <= v'.dropped
  }

  /** After the context is gone nothing is pushed and nothing is handed out; only dropping goes on. */
  lemma AfterRelease(s: State, step: Step, q: Id)
    requires Reachable(s) && q < |s.services| && s.services[q].q.release
    ensures AllKnown(s) && q < |Take(s, step).services| && Ending(s.services[q], Take(s, step).services[q])
  {
    hide Sum, Act;
    ReachableInv(s);
    assert Good(s.services[q], Count(s, q));
    if step.Go? && step.i < |s.agents| {
      var a := s.agents[step.i];
      ActKnown(s, step.i, step.ok);
      SumUpdate(s.agents, step.i, Done, Hold, q);
      assert W(a, Hold, q) == 0;
      ActEnding(s, step.i, step.ok, q);
    }
  }

  lemma ActEnding(s: State, i: nat, ok: bool, q: Id)
    requires AllKnown(s) && i < |s.agents| && q < |s.services| && s.services[q].q.release
    requires W(s.agents[i], Hold, q) == 0
    ensures |Act(s, i, ok).services| == |s.services| && Ending(s.services[q], Act(s, i, ok).services[q])
  {
    var a := s.agents[i];
    assert !(a.Popping? && a.q == q) && !(a.Push? && a.h == q);
    if a.Idle? || a.Popping? || a.Measuring? || a.Next? || a.PushBack? {
      WorkerEnding(s, i, ok, q);
    } else if a.Grab? || a.Push? || a.Retire? || a.Init? || a.Launch? {
      SenderEnding(s, i, ok, q);
    } else {
      ReleaseEnding(s, i, ok, q);
    }
  }

  lemma WorkerEnding(s: State, i: nat, ok: bool, q: Id)
    requires AllKnown(s) && i < |s.agents| && q < |s.services| && s.services[q].q.release
    requires var a := s.agents[i]; a.Idle? || (a.Popping? && a.q != q) || a.Measuring? || a.Next? || a.PushBack?
    ensures |Act(s, i, ok).services| == |s.services| && Ending(s.services[q], Act(s, i, ok).services[q])
  {
    hide W;
    assert s.agents[i] in s.agents;
  }

  lemma SenderEnding(s: State, i: nat, ok: bool, q: Id)
    requires AllKnown(s) && i < |s.agents| && q < |s.services| && s.services[q].q.release
    requires var a := s.agents[i]; a.Grab? || (a.Push? && a.h != q) || a.Retire? || a.Init? || a.Launch?
    ensures |Act(s, i, ok).services| == |s.services| && Ending(s.services[q], Act(s, i, ok).services[q])
  {
    hide W;
    assert s.agents[i] in s.agents;
  }

  lemma ReleaseEnding(s: State, i: nat, ok: bool, q: Id)
    requires AllKnown(s) && i < |s.agents| && q < |s.services| && s.services[q].q.release
    requires var a := s.agents[i]; a.Release? || a.Delete? || a.Reclaim? || a.Dropping? || a.Free? || a.Done?
    ensures |Act(s, i, ok).services| == |s.services| && Ending(s.services[q], Act(s, i, ok).services[q])
  {
    hide W;
    assert s.agents[i] in s.agents;
  }

  // ------------------------------------------------------------------ no step goes wrong

  /** What the next step of agent a relies on: memory it touches is not freed, and the source's
      assertions: a queue that is put on the global list is on no list, a context is deleted
      once, and messages go only to services whose init function has succeeded. */
  predicate Safe(s: State, a: Agent)
    requires Known(a, |s.services|)
  {
    match a
    case Idle(_, hand) => hand.Some? ==> s.services[hand.value].freed == 0
    case Popping(_, q, _, _) => s.services[q].freed == 0 && !s.services[q].q.release && s.services[q].init
    case Measuring(_, q) => s.services[q].freed == 0
    case Next(_, q) => s.services[q].freed == 0
    case PushBack(_, q, nq) => s.services[q].freed == 0 && s.services[nq].freed == 0 && q !in s.global
    case Grab(h, _) => Registered(s, h) ==> !s.services[h].q.release
    case Push(h, _) => s.services[h].freed == 0 && !s.services[h].q.release && (!s.services[h].q.inGlobal ==> h !in s.global)
    case Retire(h, _) => Registered(s, h) ==> !s.services[h].q.release
    case Init(h) => s.services[h].freed == 0 && !s.services[h].q.release
    case Launch(h) => s.services[h].freed == 0 && h !in s.global
    case Release(h, _) => s.services[h].ref > 0 && !s.services[h].q.release
    case Delete(h, _) => s.services[h].freed == 0 && !s.services[h].q.release && (!s.services[h].q.inGlobal ==> h !in s.global)
    case Reclaim(q, _) => s.services[q].freed == 0 && q !in s.global
    case Dropping(q, _) => s.services[q].freed == 0 && q !in s.global && s.services[q].q.release
    case Free(q, _) => s.services[q].freed == 0 && q !in s.global && s.services[q].q.release && s.services[q].q.msgs == []
    case Done => true
  }

  lemma Bounds(s: State, i: nat, x: Id)
    requires Inv(s) && i < |s.agents| && x < |s.services|
    ensures var t, a := Count(s, x), s.agents[i];
            && t.own.listed == multiset(s.global)[x] && Good(s.services[x], t)
            && t.own.hand >= W(a, Hand, x) && t.own.make >= W(a, Make, x) && t.hold >= W(a, Hold, x) && t.run >= W(a, Run, x)
            && t.del >= W(a, Del, x) && t.ends.out >= W(a, Out, x) && t.ends.drop >= W(a, Drop, x) && t.ends.end >= W(a, End, x)
  {
    hide W, Sum, Good;
    CountSwap(s, s.(agents := s.agents[i := Done]), i, x);
  }

  lemma DispatchSafe(s: State, i: nat)
    requires Inv(s) && i < |s.agents| && Known(s.agents[i], |s.services|)
    requires s.agents[i].Idle? || s.agents[i].Popping? || s.agents[i].Measuring? || s.agents[i].Next? || s.agents[i].PushBack?
    ensures Safe(s, s.agents[i])
  {
    hide Count, Sum, Inv;
    match s.agents[i]
    case Idle(_, hand) => if hand.Some? { Bounds(s, i, hand.value); }
    case Popping(_, q, _, _) => Bounds(s, i, q);
    case Measuring(_, q) => Bounds(s, i, q);
    case Next(_, q) => Bounds(s, i, q);
    case PushBack(_, q, nq) => Bounds(s, i, q); Bounds(s, i, nq);
  }

  lemma ContextSafe(s: State, i: nat)
    requires Inv(s) && i < |s.agents| && Known(s.agents[i], |s.services|)
    requires s.agents[i].Grab? || s.agents[i].Push? || s.agents[i].Retire? || s.agents[i].Init? || s.agents[i].Launch?
    ensures Safe(s, s.agents[i])
  {
    hide Count, Sum, Inv;
    match s.agents[i]
    case Grab(h, _) => if h < |s.services| { Bounds(s, i, h); }
    case Push(h, _) => Bounds(s, i, h);
    case Retire(h, _) => if h < |s.services| { Bounds(s, i, h); }
    case Init(h) => Bounds(s, i, h);
    case Launch(h) => Bounds(s, i, h);
  }

  lemma EndingSafe(s: State, i: nat)
    requires Inv(s) && i < |s.agents| && Known(s.agents[i], |s.services|)
    requires s.agents[i].Release? || s.agents[i].Delete? || s.agents[i].Reclaim? || s.agents[i].Dropping? || s.agents[i].Free?
    ensures Safe(s, s.agents[i])
  {
    hide Count, Sum, Inv;
    match s.agents[i]
    case Release(h, _) => Bounds(s, i, h);
    case Delete(h, _) => Bounds(s, i, h);
    case Reclaim(q, _) => Bounds(s, i, q);
    case Dropping(q, _) => Bounds(s, i, q);
    case Free(q, _) => Bounds(s, i, q);
  }

  /** In every reachable state the next step of every agent is safe. */
  lemma EveryStepSafe(s: State, i: nat)
    requires Reachable(s) && i < |s.agents|
    ensures Known(s.agents[i], |s.services|) && Safe(s, s.agents[i])
    ensures forall q :: q in s.global ==> q < |s.services| && s.services[q].freed == 0
  {
    hide Count, Sum, Reachable, W;
    ReachableInv(s);
    var a := s.agents[i];
    assert a in s.agents;
    forall q | q in s.global ensures q < |s.services| && s.services[q].freed == 0 { Bounds(s, i, q); }
    match a
    case Idle(_, _) => DispatchSafe(s, i);
    case Popping(_, _, _, _) => DispatchSafe(s, i);
    case Measuring(_, _) => DispatchSafe(s, i);
    case Next(_, _) => DispatchSafe(s, i);
    case PushBack(_, _, _) => DispatchSafe(s, i);
    case Grab(_, _) => ContextSafe(s, i);
    case Push(_, _) => ContextSafe(s, i);
    case Retire(_, _) => ContextSafe(s, i);
    case Init(_) => ContextSafe(s, i);
    case Launch(_) => ContextSafe(s, i);
    case Release(_, _) => EndingSafe(s, i);
    case Delete(_, _) => EndingSafe(s, i);
    case Reclaim(_, _) => EndingSafe(s, i);
    case Dropping(_, _) => EndingSafe(s, i);
    case Free(_, _) => EndingSafe(s, i);
    case Done =>
  }
}
