/** How the life of a service begins and ends, over whole runs. */
module ServiceLife {
  // What the result of a service's init function decides, and who retires a service.

  import opened DispatchProtocol

  // ------------------------------------------------------------------ one step

  /** the agent is creating h, or will launch it */
  predicate Creating(a: Agent, h: Id)
  {
    match a
    case Init(x) => x == h
    case Launch(x) => x == h
    case Retire(_, next) => Creating(next, h)
    case Release(_, next) => Creating(next, h)
    case Delete(_, next) => Creating(next, h)
    case Reclaim(_, next) => Creating(next, h)
    case Dropping(_, next) => Creating(next, h)
    case Free(_, next) => Creating(next, h)
    case _ => false
  }

  /** it will launch it */

  predicate Launches(a: Agent, h: Id)
  {
    match a
    case Launch(x) => x == h
    case Retire(_, next) => Launches(next, h)
    case Release(_, next) => Launches(next, h)
    case Delete(_, next) => Launches(next, h)
    case Reclaim(_, next) => Launches(next, h)
    case Dropping(_, next) => Launches(next, h)
    case Free(_, next) => Launches(next, h)
    case _ => false
  }

  /** the agent will retire h */
  predicate Retires(a: Agent, h: Id)
  {
    match a
    case Retire(x, next) => x == h || Retires(next, h)
    case Release(_, next) => Retires(next, h)
    case Delete(_, next) => Retires(next, h)
    case Reclaim(_, next) => Retires(next, h)
    case Dropping(_, next) => Retires(next, h)
    case Free(_, next) => Retires(next, h)
    case _ => false
  }

  /** What a step of agent a can do to a service. */
  predicate Moves(v: Service, v': Service, a: Agent, h: Id)
  {
    && (v'.registered ==> v.registered) && (v.init ==> v'.init) && (v.q.release ==> v'.q.release)
    && (v.registered && !v'.registered ==> a.Retire? && a.h == h)
    && (v'.init && !v.init ==> a == Launch(h))
    && (a == Launch(h) ==> v'.init || v'.q.release)
  }

  lemma WorkerMoves(s: State, i: nat, ok: bool, h: Id)
    requires AllKnown(s) && i < |s.agents| && h < |s.services|
    requires var a := s.agents[i]; a.Idle? || a.Popping? || a.Measuring? || a.Next? || a.PushBack?
    ensures |Act(s, i, ok).services| == |s.services| && Moves(s.services[h], Act(s, i, ok).services[h], s.agents[i], h)
  {
    assert s.agents[i] in s.agents;
  }

  lemma SenderMoves(s: State, i: nat, ok: bool, h: Id)
    requires AllKnown(s) && i < |s.agents| && h < |s.services|
    requires var a := s.agents[i]; a.Grab? || a.Push? || a.Retire? || a.Init? || a.Launch?
    ensures |Act(s, i, ok).services| == |s.services| && Moves(s.services[h], Act(s, i, ok).services[h], s.agents[i], h)
  {
    assert s.agents[i] in s.agents;
  }

  lemma EndMoves(s: State, i: nat, ok: bool, h: Id)
    requires AllKnown(s) && i < |s.agents| && h < |s.services|
    requires var a := s.agents[i]; a.Release? || a.Delete? || a.Reclaim? || a.Dropping? || a.Free? || a.Done?
    ensures |Act(s, i, ok).services| == |s.services| && Moves(s.services[h], Act(s, i, ok).services[h], s.agents[i], h)
  {
    assert s.agents[i] in s.agents;
  }

  lemma ActMoves(s: State, i: nat, ok: bool, h: Id)
    requires AllKnown(s) && i < |s.agents| && h < |s.services|
    ensures |Act(s, i, ok).services| == |s.services| && Moves(s.services[h], Act(s, i, ok).services[h], s.agents[i], h)
  {
    hide Act, Moves, AllKnown;
    var a := s.agents[i];
    if a.Idle? || a.Popping? || a.Measuring? || a.Next? || a.PushBack? {
      WorkerMoves(s, i, ok, h);
    } else if a.Grab? || a.Push? || a.Retire? || a.Init? || a.Launch? {
      SenderMoves(s, i, ok, h);
    } else {
      EndMoves(s, i, ok, h);
    }
  }

  predicate Simple(a: Agent)
  {
    a.Idle? || a.Popping? || a.Measuring? || a.Next? || a.PushBack? || a.Grab? || a.Push? || a.Done?
  }

  /** What comes after a release, a retirement or the end of a queue. */
  function Rest(a: Agent): Agent
  {
    match a
    case Retire(_, next) => next
    case Release(_, next) => next
    case Delete(_, next) => next
    case Reclaim(_, next) => next
    case Dropping(_, next) => next
    case Free(_, next) => next
    case _ => Done
  }

  /** how an agent goes on */
  predicate Goes(a: Agent, a': Agent, ok: bool)
  {
    if Simple(a) then Simple(a') || ((a'.Release? || a'.Reclaim?) && Simple(Rest(a')))
    else if a.Init? then a' == Release(a.h, if ok then Launch(a.h) else Retire(a.h, Reclaim(a.h, Done)))
    else if a.Launch? then a' == Done
    else a' == Rest(a) || ((a'.Release? || a'.Delete? || a'.Dropping? || a'.Free?) && Rest(a') == Rest(a))
  }

  lemma ActGoes(s: State, i: nat, ok: bool)
    requires AllKnown(s) && i < |s.agents|
    ensures |Act(s, i, ok).agents| == |s.agents| && Act(s, i, ok).agents == s.agents[i := Act(s, i, ok).agents[i]]
    ensures Goes(s.agents[i], Act(s, i, ok).agents[i], ok)
  {
    assert s.agents[i] in s.agents;
  }

  lemma SimpleNeither(a: Agent, h: Id)
    requires Simple(a)
    ensures !Launches(a, h) && !Retires(a, h) && !Creating(a, h)
  {
  }

  lemma RestKeeps(a: Agent, h: Id)
    requires !Simple(a) && !a.Init? && !a.Launch?
    ensures Launches(a, h) <==> Launches(Rest(a), h)
    ensures Creating(a, h) <==> Creating(Rest(a), h)
    ensures Retires(a, h) <==> (a.Retire? && a.h == h) || Retires(Rest(a), h)
  {
  }

  lemma FailedPath(h: Id, x: Id)
    ensures var a := Release(h, Retire(h, Reclaim(h, Done))); !Launches(a, x) && !Creating(a, x) && (Retires(a, x) <==> x == h)
    ensures var a := Release(h, Launch(h)); (Launches(a, x) <==> x == h) && (Creating(a, x) <==> x == h) && !Retires(a, x)
  {
    SimpleNeither(Done, x);
    RestKeeps(Reclaim(h, Done), x);
    RestKeeps(Retire(h, Reclaim(h, Done)), x);
    RestKeeps(Release(h, Retire(h, Reclaim(h, Done))), x);
    RestKeeps(Release(h, Launch(h)), x);
    LeafCreates(h, x);
  }

  /** What an agent does next it had before it, except for the two ways on from Init. */
  lemma GoesKeeps(a: Agent, a': Agent, ok: bool, h: Id)
    requires Goes(a, a', ok)
    ensures a != Init(h) ==> (Launches(a', h) ==> Launches(a, h)) && (Retires(a', h) ==> Retires(a, h))
    ensures Creating(a', h) ==> Creating(a, h)
  {
    hide Launches, Retires, Creating;
    if Simple(a) {
      SimpleNeither(if Simple(a') then a' else Rest(a'), h);
      if !Simple(a') { RestKeeps(a', h); }
    } else if a.Init? {
      FailedPath(a.h, h);
      LeafCreates(a.h, h);
    } else if a.Launch? {
      SimpleNeither(a', h);
    } else {
      RestKeeps(a, h);
      if a' != Rest(a) { RestKeeps(a', h); }
    }
  }

  lemma LeafCreates(h: Id, x: Id)
    ensures (Creating(Init(h), x) <==> x == h) && (Creating(Launch(h), x) <==> x == h) && (Launches(Launch(h), x) <==> x == h)
    ensures !Launches(Init(h), x) && !Retires(Init(h), x) && !Retires(Launch(h), x)
  {
  }

  lemma {:induction false} CreatorMakes(a: Agent, h: Id, n: nat)
    requires Creating(a, h)
    ensures W(a, Make, h) > 0 && (Known(a, n) ==> h < n)
  {
    match a
    case Retire(_, next) => CreatorMakes(next, h, n);
    case Release(_, next) => CreatorMakes(next, h, n);
    case Delete(_, next) => CreatorMakes(next, h, n);
    case Reclaim(_, next) => CreatorMakes(next, h, n);
    case Dropping(_, next) => CreatorMakes(next, h, n);
    case Free(_, next) => CreatorMakes(next, h, n);
    case _ =>
  }

  // ------------------------------------------------------------------ runs

  lemma {:induction false} SameState(steps: seq<Step>, s: State, s': State)
    requires Reached(steps, s) && Reached(steps, s')
    ensures s == s'
  {
    if steps != [] {
      var p :| Reached(steps[..|steps| - 1], p) && AllKnown(p) && s == Take(p, steps[|steps| - 1]);
      var p' :| Reached(steps[..|steps| - 1], p') && AllKnown(p') && s' == Take(p', steps[|steps| - 1]);
      SameState(steps[..|steps| - 1], p, p');
    }
  }

  /** Step k of the run is the end of the init function of service h, with this result. */
  ghost predicate Ended(steps: seq<Step>, k: nat, p: State, i: nat, h: Id, ok: bool)
  {
    && k < |steps| && Reached(steps[..k], p) && steps[k] == Go(i, ok)
    && i < |p.agents| && p.agents[i] == Init(h)
  }

  ghost predicate Decided(steps: seq<Step>, h: Id, ok: bool)
  {
    exists k: nat, p: State, i: nat :: Ended(steps, k, p, i, h, ok)
  }

  lemma DecidedLater(steps: seq<Step>, step: Step, h: Id, ok: bool)
    requires Decided(steps, h, ok)
    ensures Decided(steps + [step], h, ok)
  {
    var k: nat, p: State, i: nat :| Ended(steps, k, p, i, h, ok);
    assert (steps + [step])[..k] == steps[..k];
    assert Ended(steps + [step], k, p, i, h, ok);
  }

  lemma DecidedNow(steps: seq<Step>, p: State, i: nat, h: Id, ok: bool)
    requires Reached(steps, p) && i < |p.agents| && p.agents[i] == Init(h)
    ensures Decided(steps + [Go(i, ok)], h, ok)
  {
    assert (steps + [Go(i, ok)])[..|steps|] == steps;
    assert Ended(steps + [Go(i, ok)], |steps|, p, i, h, ok);
  }

  /** Whatever is or will be ready was launched after a good init, and whatever is or will be
      retired was killed or had a bad one. */
  ghost predicate Caused(steps: seq<Step>, s: State, h: Id)
  {
    && ((exists j :: 0 <= j < |s.agents| && Launches(s.agents[j], h)) || (h < |s.services| && s.services[h].init) ==>
          Decided(steps, h, true))
    && ((exists j :: 0 <= j < |s.agents| && Retires(s.agents[j], h)) || (h < |s.services| && !s.services[h].registered) ==>
          SpawnKill(h) in steps || Decided(steps, h, false))
  }

  lemma {:induction false} RunCaused(steps: seq<Step>, s: State, h: Id)
    requires Reached(steps, s)
    ensures Caused(steps, s, h)
  {
    if steps != [] {
      var before, step := steps[..|steps| - 1], steps[|steps| - 1];
      assert steps == before + [step];
      var p :| Reached(before, p) && AllKnown(p) && s == Take(p, step);
      RunCaused(before, p, h);
      if Decided(before, h, true) { DecidedLater(before, step, h, true); }
      if Decided(before, h, false) { DecidedLater(before, step, h, false); }
      if step.Go? { GoCaused(before, p, step.i, step.ok, h); } else { SpawnCaused(before, p, step, h); }
    }
  }

  lemma SpawnCaused(before: seq<Step>, p: State, step: Step, h: Id)
    requires AllKnown(p) && Caused(before, p, h) && !step.Go?
    requires Decided(before, h, true) ==> Decided(before + [step], h, true)
    requires Decided(before, h, false) ==> Decided(before + [step], h, false)
    ensures Caused(before + [step], Take(p, step), h)
  {
    hide Decided;
    var s := Take(p, step);
    SimpleNeither(Done, h);
    LeafCreates(|p.services|, h);
    forall j | 0 <= j < |s.agents| ensures Launches(s.agents[j], h) ==> j < |p.agents| && Launches(p.agents[j], h) {
      if j == |p.agents| && step.SpawnKill? { RestKeeps(s.agents[j], h); }
    }
    forall j | 0 <= j < |s.agents| ensures Retires(s.agents[j], h) ==> step == SpawnKill(h) || (j < |p.agents| && Retires(p.agents[j], h)) {
      if j == |p.agents| && step.SpawnKill? { RestKeeps(s.agents[j], h); }
    }
  }

  lemma GoCaused(before: seq<Step>, p: State, i: nat, ok: bool, h: Id)
    requires AllKnown(p) && Reached(before, p) && Caused(before, p, h)
    requires Decided(before, h, true) ==> Decided(before + [Go(i, ok)], h, true)
    requires Decided(before, h, false) ==> Decided(before + [Go(i, ok)], h, false)
    ensures Caused(before + [Go(i, ok)], Take(p, Go(i, ok)), h)
  {
    hide Decided, Act, Launches, Retires, Goes;
    if i < |p.agents| {
      var s := Act(p, i, ok);
      ActGoes(p, i, ok);
      GoesKeeps(p.agents[i], s.agents[i], ok, h);
      if p.agents[i] == Init(h) {
        InitGoes(p.agents[i], s.agents[i], ok);
        FailedPath(h, h);
        DecidedNow(before, p, i, h, ok);
      }
      if h < |p.services| { ActMoves(p, i, ok, h); MoveCauses(p.services[h], s.services[h], p.agents[i], h); }
      ServicesStay(p, i, ok);
    }
  }

  lemma InitGoes(a: Agent, a': Agent, ok: bool)
    requires a.Init? && Goes(a, a', ok)
    ensures a' == Release(a.h, if ok then Launch(a.h) else Retire(a.h, Reclaim(a.h, Done)))
  {
  }

  lemma MoveCauses(v: Service, v': Service, a: Agent, h: Id)
    requires Moves(v, v', a, h)
    ensures v.registered && !v'.registered ==> Retires(a, h)
    ensures v'.init && !v.init ==> Launches(a, h)
  {
    LeafCreates(h, h);
    if a.Retire? { RestKeeps(a, h); }
  }

  lemma ServicesStay(p: State, i: nat, ok: bool)
    requires AllKnown(p) && i < |p.agents|
    ensures |Act(p, i, ok).services| == |p.services|
  {
    hide Act;
    ActKnown(p, i, ok);
  }

  /** A service is ready only if its init function succeeded. */
  lemma ReadyOnlyIfGood(steps: seq<Step>, s: State, h: Id)
    requires Reached(steps, s) && h < |s.services| && s.services[h].init
    ensures Decided(steps, h, true)
  {
    RunCaused(steps, s, h);
  }

  /** And it is retired only by a killer, or because its init function failed. */
  lemma RetiredOnlyIf(steps: seq<Step>, s: State, h: Id)
    requires Reached(steps, s) && h < |s.services| && !s.services[h].registered
    ensures SpawnKill(h) in steps || Decided(steps, h, false)
  {
    RunCaused(steps, s, h);
  }

  // ------------------------------------------------------------------ what the result decides

  /** There is one creator at most. */
  lemma OneCreator(s: State, h: Id, i: nat, j: nat)
    requires Inv(s) && i < |s.agents| && j < |s.agents| && i != j && Creating(s.agents[i], h)
    ensures !Creating(s.agents[j], h)
  {
    hide W, Sum, Creating, Known;
    if Creating(s.agents[j], h) {
      assert s.agents[i] in s.agents;
      CreatorMakes(s.agents[i], h, |s.services|);
      CreatorMakes(s.agents[j], h, |s.services|);
      assert Good(s.services[h], Count(s, h));
      if i < j { SumAtLeast(s.agents, i, j, Make, h); } else { SumAtLeast(s.agents, j, i, Make, h); }
    }
  }

  /** What is still being created is not ready. */
  ghost predicate NotReady(s: State, h: Id)
  {
    forall j :: 0 <= j < |s.agents| && Creating(s.agents[j], h) ==> h < |s.services| && !s.services[h].init
  }

  lemma {:induction false} RunNotReady(steps: seq<Step>, s: State, h: Id)
    requires Reached(steps, s)
    ensures NotReady(s, h) && Inv(s)
  {
    hide Inv, Take;
    ReachedInv(steps, s);
    if steps != [] {
      var before, step := steps[..|steps| - 1], steps[|steps| - 1];
      var p :| Reached(before, p) && AllKnown(p) && s == Take(p, step);
      RunNotReady(before, p, h);
      if step.Go? { GoNotReady(p, step.i, step.ok, h); } else { SpawnNotReady(p, step, h); }
    }
  }

  lemma SpawnNotReady(p: State, step: Step, h: Id)
    requires AllKnown(p) && NotReady(p, h) && !step.Go?
    ensures NotReady(Take(p, step), h)
  {
    var s := Take(p, step);
    SimpleNeither(Done, h);
    LeafCreates(|p.services|, h);
    if step.SpawnKill? { RestKeeps(Retire(step.h, Done), h); }
    assert forall j :: 0 <= j < |p.agents| ==> s.agents[j] == p.agents[j];
  }

  lemma GoNotReady(p: State, i: nat, ok: bool, h: Id)
    requires Inv(p) && NotReady(p, h)
    ensures NotReady(Take(p, Go(i, ok)), h)
  {
    hide Act, Creating, Goes, Inv;
    if i < |p.agents| {
      assert AllKnown(p) by { InvKnown(p); }
      var s := Act(p, i, ok);
      ActGoes(p, i, ok);
      GoesKeeps(p.agents[i], s.agents[i], ok, h);
      ServicesStay(p, i, ok);
      forall j | 0 <= j < |s.agents| && Creating(s.agents[j], h) ensures h < |s.services| && !s.services[h].init {
        assert Creating(p.agents[j], h);
        ActMoves(p, i, ok, h);
        if p.agents[i] == Launch(h) {
          LaunchGoes(p.agents[i], s.agents[i], ok);
          LeafCreates(h, h);
          SimpleNeither(Done, h);
          OneCreator(p, h, j, i);
        }
      }
    }
  }

  lemma LaunchGoes(a: Agent, a': Agent, ok: bool)
    requires a.Launch? && Goes(a, a', ok)
    ensures a' == Done
  {
  }

  lemma InvKnown(s: State)
    requires Inv(s)
    ensures AllKnown(s)
  {
  }

  /** after a bad init: never ready, nobody will launch it, and agent i retires it before it is done */
  ghost predicate Unmade(s: State, i: nat, h: Id)
  {
    && i < |s.agents| && h < |s.services| && !s.services[h].init
    && (forall j :: 0 <= j < |s.agents| ==> !Creating(s.agents[j], h))
    && Failing(s.agents[i], h, s.services[h].registered)
  }

  predicate Failing(a: Agent, h: Id, registered: bool)
  {
    var end := Reclaim(h, Done);
    var retire := Retire(h, end);
    || a == Release(h, retire) || a == Delete(h, retire) || a == retire
    || (!registered && (a == Release(h, end) || a == Delete(h, end) || a == end || a == Dropping(h, Done) || a == Free(h, Done) || a == Done))
  }

  /** after a good init: ready, unless the context is gone, as soon as agent i is done */
  predicate Made(s: State, i: nat, h: Id)
  {
    && i < |s.agents| && h < |s.services|
    && (s.agents[i] == Release(h, Launch(h)) || s.agents[i] == Delete(h, Launch(h)) || s.agents[i] == Launch(h)
        || (s.agents[i] == Done && (s.services[h].init || s.services[h].q.release)))
  }

  lemma FailingGoes(p: State, i: nat, ok: bool, h: Id)
    requires AllKnown(p) && i < |p.agents| && h < |p.services| && Failing(p.agents[i], h, p.services[h].registered)
    ensures i < |Act(p, i, ok).agents| && h < |Act(p, i, ok).services| && Failing(Act(p, i, ok).agents[i], h, Act(p, i, ok).services[h].registered)
  {
    assert p.agents[i] in p.agents;
  }

  lemma FailingStays(a: Agent, h: Id, was: bool, registered: bool)
    requires Failing(a, h, was) && (registered ==> was)
    ensures Failing(a, h, registered)
  {
  }

  lemma StepUnmade(p: State, step: Step, i: nat, h: Id)
    requires AllKnown(p) && Unmade(p, i, h)
    ensures Unmade(Take(p, step), i, h)
  {
    hide Act, Creating, Goes, Failing;
    var s := Take(p, step);
    if step.Go? {
      if step.i < |p.agents| {
        ActGoes(p, step.i, step.ok);
        GoesKeeps(p.agents[step.i], s.agents[step.i], step.ok, h);
        ActMoves(p, step.i, step.ok, h);
        LeafCreates(h, h);
        if step.i == i { FailingGoes(p, i, step.ok, h); } else { FailingStays(p.agents[i], h, p.services[h].registered, s.services[h].registered); }
      }
    } else {
      SpawnsNobody(p, step, h);
    }
  }

  lemma SpawnsNobody(p: State, step: Step, h: Id)
    requires AllKnown(p) && !step.Go? && h < |p.services|
    ensures var s := Take(p, step); |s.agents| == |p.agents| + 1 && s.agents[..|p.agents|] == p.agents && !Creating(s.agents[|p.agents|], h)
    ensures h < |Take(p, step).services| && Take(p, step).services[h] == p.services[h]
  {
    SimpleNeither(Done, h);
    LeafCreates(|p.services|, h);
    if step.SpawnKill? { RestKeeps(Retire(step.h, Done), h); }
  }

  lemma StepMade(p: State, step: Step, i: nat, h: Id)
    requires AllKnown(p) && Made(p, i, h)
    ensures Made(Take(p, step), i, h)
  {
    hide Act, Goes;
    var s := Take(p, step);
    if step.Go? {
      if step.i < |p.agents| {
        ActGoes(p, step.i, step.ok);
        ActMoves(p, step.i, step.ok, h);
        if step.i == i { MadeGoes(p, i, step.ok, h); }
      }
    }
  }

  lemma MadeGoes(p: State, i: nat, ok: bool, h: Id)
    requires AllKnown(p) && Made(p, i, h)
    ensures Made(Act(p, i, ok), i, h)
  {
    assert p.agents[i] in p.agents;
  }

  lemma {:induction false} EndedUnmade(steps: seq<Step>, s: State, k: nat, p: State, i: nat, h: Id)
    requires Reached(steps, s) && Ended(steps, k, p, i, h, false)
    ensures Unmade(s, i, h)
  {
    hide Take, Unmade;
    var before, step := steps[..|steps| - 1], steps[|steps| - 1];
    var q :| Reached(before, q) && AllKnown(q) && s == Take(q, step);
    if k == |steps| - 1 {
      SameState(before, q, p);
      RunNotReady(before, q, h);
      BadEnd(q, i, h);
    } else {
      assert before[..k] == steps[..k];
      EndedUnmade(before, q, k, p, i, h);
      StepUnmade(q, step, i, h);
    }
  }

  lemma BadEnd(q: State, i: nat, h: Id)
    requires Inv(q) && NotReady(q, h) && i < |q.agents| && q.agents[i] == Init(h)
    ensures AllKnown(q) && Unmade(Take(q, Go(i, false)), i, h)
  {
    hide Inv, Goes, Creating, Act;
    InvKnown(q);
    LeafCreates(h, h);
    var s := Act(q, i, false);
    ActGoes(q, i, false);
    InitGoes(q.agents[i], s.agents[i], false);
    FailedPath(h, h);
    ServicesStay(q, i, false);
    ActMoves(q, i, false, h);
    forall j | 0 <= j < |s.agents| ensures !Creating(s.agents[j], h) {
      if j != i { OneCreator(q, h, i, j); }
    }
  }

  lemma {:induction false} EndedMade(steps: seq<Step>, s: State, k: nat, p: State, i: nat, h: Id)
    requires Reached(steps, s) && Ended(steps, k, p, i, h, true)
    ensures Made(s, i, h)
  {
    hide Take, Made;
    var before, step := steps[..|steps| - 1], steps[|steps| - 1];
    var q :| Reached(before, q) && AllKnown(q) && s == Take(q, step);
    if k == |steps| - 1 {
      SameState(before, q, p);
      GoodEnd(q, i, h);
    } else {
      assert before[..k] == steps[..k];
      EndedMade(before, q, k, p, i, h);
      StepMade(q, step, i, h);
    }
  }

  lemma GoodEnd(q: State, i: nat, h: Id)
    requires AllKnown(q) && i < |q.agents| && q.agents[i] == Init(h)
    ensures Made(Take(q, Go(i, true)), i, h)
  {
    assert q.agents[i] in q.agents;
  }

  /** When the init function of h fails, h is never ready, and it is not registered any more once
      its creator is done. */
  lemma BadInit(steps: seq<Step>, s: State, k: nat, p: State, i: nat, h: Id)
    requires Reached(steps, s) && Ended(steps, k, p, i, h, false)
    ensures h < |s.services| && i < |s.agents| && !s.services[h].init
    ensures s.agents[i] == Done ==> !s.services[h].registered
  {
    EndedUnmade(steps, s, k, p, i, h);
  }

  /** When it succeeds, h is ready once its creator is done, if its context was not deleted before
      that; so it is ready whenever it is registered. */
  lemma GoodInit(steps: seq<Step>, s: State, k: nat, p: State, i: nat, h: Id)
    requires Reached(steps, s) && Ended(steps, k, p, i, h, true)
    ensures h < |s.services| && i < |s.agents|
    ensures s.agents[i] == Done ==> s.services[h].init || s.services[h].q.release
    ensures s.agents[i] == Done && s.services[h].registered ==> s.services[h].init
  {
    hide Inv, Count, Sum;
    EndedMade(steps, s, k, p, i, h);
    ReachedInv(steps, s);
    RegisteredLives(s, h);
  }

  lemma RegisteredLives(s: State, h: Id)
    requires Inv(s) && h < |s.services|
    ensures s.services[h].registered ==> !s.services[h].q.release
  {
    hide Count, Sum;
    assert Good(s.services[h], Count(s, h));
  }

  lemma CreatorHoldsOn(s: State, h: Id, i: nat)
    requires Inv(s) && i < |s.agents| && s.agents[i] == Init(h)
    ensures h < |s.services| && !s.services[h].q.release
  {
    hide Sum, W;
    LeafCreates(h, h);
    assert s.agents[i] in s.agents && Known(s.agents[i], |s.services|);
    assert Good(s.services[h], Count(s, h));
    SumUpdate(s.agents, i, Done, Hold, h);
    InitHolds(h);
  }

  lemma InitHolds(h: Id)
    ensures W(Init(h), Hold, h) == 1
  {
  }

  /** The init function of a service ends once. */
  lemma OneResult(steps: seq<Step>, k1: nat, p1: State, i1: nat, k2: nat, p2: State, i2: nat, h: Id)
    requires Ended(steps, k1, p1, i1, h, true)
    ensures !Ended(steps, k2, p2, i2, h, false)
  {
    hide Inv, Creating;
    if Ended(steps, k2, p2, i2, h, false) {
      LeafCreates(h, h);
      if k1 == k2 {
        assert false;
      } else if k1 < k2 {
        assert steps[..k2][..k1] == steps[..k1];
        EndedMade(steps[..k2], p2, k1, p1, i1, h);
        RunNotReady(steps[..k2], p2, h);
        CreatorHoldsOn(p2, h, i2);
        RestKeeps(Release(h, Launch(h)), h);
        RestKeeps(Delete(h, Launch(h)), h);
        if p2.agents[i1] != Done { OneCreator(p2, h, i1, i2); }
      } else {
        assert steps[..k1][..k2] == steps[..k2];
        EndedUnmade(steps[..k1], p1, k2, p2, i2, h);
      }
    }
  }

  /** So a service that nobody kills is ready and registered for good once a successful creation
      is over. */
  lemma UnkilledStays(steps: seq<Step>, s: State, k: nat, p: State, i: nat, h: Id)
    requires Reached(steps, s) && Ended(steps, k, p, i, h, true) && SpawnKill(h) !in steps
    ensures h < |s.services| && i < |s.agents| && s.services[h].registered
    ensures s.agents[i] == Done ==> s.services[h].init
  {
    GoodInit(steps, s, k, p, i, h);
    if !s.services[h].registered {
      RetiredOnlyIf(steps, s, h);
      var k2: nat, p2: State, i2: nat :| Ended(steps, k2, p2, i2, h, false);
      OneResult(steps, k, p, i, k2, p2, i2, h);
    }
  }
}
