/** The steps of the protocol, put together to whole calls. */
module DispatchCalls {
  // What a call does when no other thread moves meanwhile: dispatching, sending, killing, creating.

  import opened MessageQueue
  import opened DispatchProtocol

  /** n steps of agent i, and of nobody else */
  function Alone(s: State, i: nat, ok: bool, n: nat): (r: State)
    requires AllKnown(s) && i < |s.agents|
    ensures AllKnown(r) && |r.agents| == |s.agents| && |r.services| == |s.services|
    decreases n
  {
    if n == 0 then s
    else
      ActKnown(s, i, ok);
      ActSize(s, i, ok);
      Alone(Act(s, i, ok), i, ok, n - 1)
  }

  lemma ActSize(s: State, i: nat, ok: bool)
    requires AllKnown(s) && i < |s.agents|
    ensures |Act(s, i, ok).agents| == |s.agents|
  {
    assert s.agents[i] in s.agents;
  }

  lemma {:induction false} AloneThen(s: State, i: nat, ok: bool, m: nat, n: nat)
    requires AllKnown(s) && i < |s.agents|
    ensures Alone(s, i, ok, m + n) == Alone(Alone(s, i, ok, m), i, ok, n)
    decreases m
  {
    hide Act, AllKnown;
    if m > 0 {
      ActKnown(s, i, ok);
      ActSize(s, i, ok);
      AloneThen(Act(s, i, ok), i, ok, m - 1, n);
    }
  }

  /** s, but for agent i, service q and the global list */
  function Changed(s: State, i: nat, a: Agent, q: Id, v: Service, g: seq<Id>): State
    requires i < |s.agents| && q < |s.services|
  {
    State(s.services[q := v], g, s.agents[i := a])
  }

  predicate Fits(s: State, i: nat, a: Agent, q: Id, g: seq<Id>)
  {
    AllKnown(s) && i < |s.agents| && q < |s.services| && Known(a, |s.services|) && forall x :: x in g ==> x < |s.services|
  }

  lemma Again(s: State, i: nat, a: Agent, q: Id, v: Service, g: seq<Id>, a': Agent, v': Service, g': seq<Id>)
    requires i < |s.agents| && q < |s.services|
    ensures Changed(Changed(s, i, a, q, v, g), i, a', q, v', g') == Changed(s, i, a', q, v', g')
  {
  }

  lemma Itself(s: State, i: nat, q: Id)
    requires i < |s.agents| && q < |s.services|
    ensures Changed(s, i, s.agents[i], q, s.services[q], s.global) == s
  {
  }

  // ------------------------------------------------------------------ dispatching

  /** b messages handed out */
  function Served(v: Service, b: nat): Service
    requires b <= |v.q.msgs|
  {
    v.(q := v.q.(msgs := v.q.msgs[b..]), handed := v.handed + v.q.msgs[..b])
  }

  /** how many messages a worker of weight w hands out of k */
  function Batch(w: int, k: nat): (b: nat)
    requires k > 0
    ensures 1 <= b <= k
  {
    if w >= 0 && (k - 1) / Two(w) > 1 then AtMost(k - 1, Two(w)); (k - 1) / Two(w) else 1
  }

  lemma AtMost(x: nat, d: nat)
    requires d > 0
    ensures x / d <= x
  {
    var y := x / d;
    assert x == d * y + x % d;
    assert d * y == y + (d - 1) * y;
    NotNegative(d - 1, y);
  }

  lemma NotNegative(x: nat, y: nat)
    ensures x * y >= 0
  {
  }

  lemma PopOne(s: State, i: nat, w: int, q: Id, j: nat, n: int, v: Service, g: seq<Id>)
    requires Fits(s, i, Popping(w, q, j, n), q, g) && AllKnown(Changed(s, i, Popping(w, q, j, n), q, v, g)) && v.q.msgs != []
    ensures var a := if j == 0 && w >= 0 then Measuring(w, q) else Continue(w, q, j + 1, n);
            Act(Changed(s, i, Popping(w, q, j, n), q, v, g), i, true) == Changed(s, i, a, q, Served(v, 1), g)
  {
    var a := if j == 0 && w >= 0 then Measuring(w, q) else Continue(w, q, j + 1, n);
    Again(s, i, Popping(w, q, j, n), q, v, g, a, Served(v, 1), g);
    assert v.q.msgs[..1] == [v.q.msgs[0]];
    HandedOut(Changed(s, i, Popping(w, q, j, n), q, v, g), i, w, q, j, n);
  }

  lemma HandedOut(x: State, i: nat, w: int, q: Id, j: nat, n: int)
    requires AllKnown(x) && i < |x.agents| && x.agents[i] == Popping(w, q, j, n) && q < |x.services| && x.services[q].q.msgs != []
    ensures var v := x.services[q];
            var v' := v.(q := Popped(v.q), handed := v.handed + [v.q.msgs[0]]);
            Act(x, i, true) == Changed(x, i, if j == 0 && w >= 0 then Measuring(w, q) else Continue(w, q, j + 1, n), q, v', x.global)
  {
    assert x.agents[i] in x.agents;
  }

  lemma ServedMore(v: Service, b: nat, c: nat)
    requires b + c <= |v.q.msgs|
    ensures Served(Served(v, b), c) == Served(v, b + c)
  {
    assert v.q.msgs[..b] + v.q.msgs[b..][..c] == v.q.msgs[..b + c];
    assert v.handed + v.q.msgs[..b] + v.q.msgs[b..][..c] == v.handed + v.q.msgs[..b + c];
  }

  /** the loop from its second turn on */
  lemma {:induction false} PopMany(s: State, i: nat, w: int, q: Id, j: nat, n: int, v: Service, g: seq<Id>)
    requires Fits(s, i, Popping(w, q, j, n), q, g) && AllKnown(Changed(s, i, Popping(w, q, j, n), q, v, g))
    requires 1 <= j < n && n - j <= |v.q.msgs|
    ensures Alone(Changed(s, i, Popping(w, q, j, n), q, v, g), i, true, n - j) == Changed(s, i, Next(w, q), q, Served(v, n - j), g)
    decreases n - j
  {
    hide Act, AllKnown;
    var x := Changed(s, i, Popping(w, q, j, n), q, v, g);
    PopOne(s, i, w, q, j, n, v, g);
    ServedMore(v, 1, n - j - 1);
    ActKnown(x, i, true);
    ActSize(x, i, true);
    if j + 1 < n {
      PopMany(s, i, w, q, j + 1, n, Served(v, 1), g);
    }
  }

  lemma OneStep(x: State, i: nat, ok: bool)
    requires AllKnown(x) && i < |x.agents|
    ensures AllKnown(Act(x, i, ok)) && i < |Act(x, i, ok).agents| && Alone(x, i, ok, 1) == Act(x, i, ok)
  {
    hide Act, AllKnown;
    ActKnown(x, i, ok);
    ActSize(x, i, ok);
    assert Alone(Act(x, i, ok), i, ok, 0) == Act(x, i, ok);
  }

  /** x becomes y by n steps of agent i. */
  ghost predicate Leads(x: State, i: nat, ok: bool, n: nat, y: State)
  {
    AllKnown(x) && i < |x.agents| && Alone(x, i, ok, n) == y
  }

  lemma Then(x: State, i: nat, ok: bool, m: nat, y: State, n: nat, z: State)
    requires Leads(x, i, ok, m, y) && Leads(y, i, ok, n, z)
    ensures Leads(x, i, ok, m + n, z)
  {
    AloneThen(x, i, ok, m, n);
  }

  lemma Step(x: State, i: nat, ok: bool, y: State)
    requires AllKnown(x) && i < |x.agents| && Act(x, i, ok) == y
    ensures Leads(x, i, ok, 1, y) && AllKnown(y) && i < |y.agents|
  {
    OneStep(x, i, ok);
  }

  /** One step that changes agent i, one service and the global list. */
  lemma Acted(s: State, i: nat, ok: bool, a: Agent, q: Id, v: Service, g: seq<Id>, a': Agent, v': Service, g': seq<Id>)
    requires i < |s.agents| && q < |s.services| && AllKnown(Changed(s, i, a, q, v, g))
    requires Act(Changed(s, i, a, q, v, g), i, ok) == Changed(Changed(s, i, a, q, v, g), i, a', q, v', g')
    ensures Leads(Changed(s, i, a, q, v, g), i, ok, 1, Changed(s, i, a', q, v', g')) && AllKnown(Changed(s, i, a', q, v', g'))
  {
    hide Act;
    Again(s, i, a, q, v, g, a', v', g');
    Step(Changed(s, i, a, q, v, g), i, ok, Changed(s, i, a', q, v', g'));
  }

  lemma LookStep(s: State, i: nat, w: int, q: Id)
    requires AllKnown(s) && i < |s.agents| && s.agents[i] == Idle(w, Some(q)) && q < |s.services| && s.services[q].registered
    ensures Act(s, i, true) == Changed(s, i, Popping(w, q, 0, 1), q, s.services[q].(ref := s.services[q].ref + 1), s.global)
  {
    assert s.agents[i] in s.agents;
  }

  lemma MeasureStep(x: State, i: nat, w: int, q: Id)
    requires AllKnown(x) && i < |x.agents| && x.agents[i] == Measuring(w, q) && q < |x.services|
    ensures Act(x, i, true) == Changed(x, i, Continue(w, q, 1, if w >= 0 then |x.services[q].q.msgs| / Two(w) else 1), q, x.services[q], x.global)
  {
    assert x.agents[i] in x.agents;
    assert x.services[q := x.services[q]] == x.services;
  }

  lemma NextStep(x: State, i: nat, w: int, q: Id)
    requires AllKnown(x) && i < |x.agents| && x.agents[i] == Next(w, q) && q < |x.services|
    ensures Act(x, i, true) ==
            if x.global == [] then Changed(x, i, Release(q, Idle(w, Some(q))), q, x.services[q], [])
            else Changed(x, i, PushBack(w, q, x.global[0]), q, x.services[q], x.global[1..])
  {
    assert x.agents[i] in x.agents;
    assert x.services[q := x.services[q]] == x.services;
  }

  lemma PushBackStep(x: State, i: nat, w: int, q: Id, nq: Id)
    requires AllKnown(x) && i < |x.agents| && x.agents[i] == PushBack(w, q, nq) && q < |x.services|
    ensures Act(x, i, true) == Changed(x, i, Release(q, Idle(w, Some(nq))), q, x.services[q], x.global + [q])
  {
    assert x.agents[i] in x.agents;
    assert x.services[q := x.services[q]] == x.services;
  }

  lemma ReleaseStep(x: State, i: nat, ok: bool, q: Id, next: Agent)
    requires AllKnown(x) && i < |x.agents| && x.agents[i] == Release(q, next) && q < |x.services|
    ensures var v := x.services[q];
            Act(x, i, ok) == Changed(x, i, if v.ref == 1 then Delete(q, next) else next, q, v.(ref := v.ref - 1), x.global)
  {
    assert x.agents[i] in x.agents;
  }

  /** The loop over the messages: the batch is handed out in order. */
  lemma Serve(s: State, i: nat, w: int, q: Id) returns (n: nat)
    requires AllKnown(s) && i < |s.agents| && s.agents[i] == Idle(w, Some(q)) && q < |s.services| && s.services[q].registered
    requires s.services[q].q.msgs != []
    ensures var v := s.services[q].(ref := s.services[q].ref + 1);
            var y := Changed(s, i, Next(w, q), q, Served(v, Batch(w, |v.q.msgs|)), s.global);
            Leads(s, i, true, n, y) && AllKnown(y)
  {
    hide Act, AllKnown, Served, Batch, Leads, Changed;
    var v, g := s.services[q].(ref := s.services[q].ref + 1), s.global;
    var k := |v.q.msgs|;
    Itself(s, i, q);
    LookStep(s, i, w, q);
    Acted(s, i, true, s.agents[i], q, s.services[q], g, Popping(w, q, 0, 1), v, g);
    HeadFits(s, i, w, q);
    PopOne(s, i, w, q, 0, 1, v, g);
    ServedSize(v, 1);
    if w < 0 {
      ContinueIs(w, q, 1, 1);
      FirstPop(s, i, w, q, v, g, Next(w, q));
      Then(s, i, true, 1, Changed(s, i, Popping(w, q, 0, 1), q, v, g), 1, Changed(s, i, Next(w, q), q, Served(v, 1), g));
      n := 2;
      BatchIs(w, k);
    } else {
      var m := (k - 1) / Two(w);
      FirstPop(s, i, w, q, v, g, Measuring(w, q));
      Then(s, i, true, 1, Changed(s, i, Popping(w, q, 0, 1), q, v, g), 1, Changed(s, i, Measuring(w, q), q, Served(v, 1), g));
      Measured(s, i, w, q, v, g);
      Then(s, i, true, 2, Changed(s, i, Measuring(w, q), q, Served(v, 1), g), 1, Changed(s, i, Continue(w, q, 1, m), q, Served(v, 1), g));
      ContinueIs(w, q, 1, m);
      BatchIs(w, k);
      n := 3;
      if m > 1 {
        AtMost(k - 1, Two(w));
        PopFits(s, i, w, q, m);
        PopMany(s, i, w, q, 1, m, Served(v, 1), g);
        ServedMore(v, 1, m - 1);
        n := 3 + (m - 1);
        PoppedMany(s, i, w, q, m, v, g);
        Then(s, i, true, 3, Changed(s, i, Popping(w, q, 1, m), q, Served(v, 1), g), m - 1, Changed(s, i, Next(w, q), q, Served(v, m), g));
      }
    }
  }

  lemma HeadFits(s: State, i: nat, w: int, q: Id)
    requires AllKnown(s) && i < |s.agents| && q < |s.services|
    ensures Fits(s, i, Popping(w, q, 0, 1), q, s.global)
  {
  }

  lemma PopFits(s: State, i: nat, w: int, q: Id, m: int)
    requires AllKnown(s) && i < |s.agents| && q < |s.services|
    ensures Fits(s, i, Popping(w, q, 1, m), q, s.global)
  {
  }

  lemma ServedSize(v: Service, b: nat)
    requires b <= |v.q.msgs|
    ensures |Served(v, b).q.msgs| == |v.q.msgs| - b
  {
  }

  lemma ContinueIs(w: int, q: Id, i: nat, n: int)
    ensures Continue(w, q, i, n) == if i < n then Popping(w, q, i, n) else Next(w, q)
  {
  }

  lemma BatchIs(w: int, k: nat)
    requires k > 0
    ensures Batch(w, k) == if w >= 0 && (k - 1) / Two(w) > 1 then (k - 1) / Two(w) else 1
  {
  }

  lemma FirstPop(s: State, i: nat, w: int, q: Id, v: Service, g: seq<Id>, a: Agent)
    requires i < |s.agents| && q < |s.services| && v.q.msgs != [] && AllKnown(Changed(s, i, Popping(w, q, 0, 1), q, v, g))
    requires Act(Changed(s, i, Popping(w, q, 0, 1), q, v, g), i, true) == Changed(s, i, a, q, Served(v, 1), g)
    ensures Leads(Changed(s, i, Popping(w, q, 0, 1), q, v, g), i, true, 1, Changed(s, i, a, q, Served(v, 1), g))
    ensures AllKnown(Changed(s, i, a, q, Served(v, 1), g))
  {
    hide Act, AllKnown, Served;
    Step(Changed(s, i, Popping(w, q, 0, 1), q, v, g), i, true, Changed(s, i, a, q, Served(v, 1), g));
  }

  lemma Measured(s: State, i: nat, w: int, q: Id, v: Service, g: seq<Id>)
    requires i < |s.agents| && q < |s.services| && v.q.msgs != [] && w >= 0 && AllKnown(Changed(s, i, Measuring(w, q), q, Served(v, 1), g))
    ensures var y := Changed(s, i, Continue(w, q, 1, (|v.q.msgs| - 1) / Two(w)), q, Served(v, 1), g);
            Leads(Changed(s, i, Measuring(w, q), q, Served(v, 1), g), i, true, 1, y) && AllKnown(y)
  {
    hide Act, AllKnown, Served, Leads;
    var x := Changed(s, i, Measuring(w, q), q, Served(v, 1), g);
    ServedSize(v, 1);
    MeasureStep(x, i, w, q);
    Acted(s, i, true, Measuring(w, q), q, Served(v, 1), g, Continue(w, q, 1, (|v.q.msgs| - 1) / Two(w)), Served(v, 1), g);
  }

  lemma PoppedMany(s: State, i: nat, w: int, q: Id, m: nat, v: Service, g: seq<Id>)
    requires 1 < m <= |v.q.msgs| && i < |s.agents| && q < |s.services| && AllKnown(Changed(s, i, Popping(w, q, 1, m), q, Served(v, 1), g))
    requires Alone(Changed(s, i, Popping(w, q, 1, m), q, Served(v, 1), g), i, true, m - 1) == Changed(s, i, Next(w, q), q, Served(v, m), g)
    ensures Leads(Changed(s, i, Popping(w, q, 1, m), q, Served(v, 1), g), i, true, m - 1, Changed(s, i, Next(w, q), q, Served(v, m), g))
    ensures AllKnown(Changed(s, i, Next(w, q), q, Served(v, m), g))
  {
    hide Act, AllKnown, Served;
  }

  lemma RegisteredRef(s: State, q: Id)
    requires Inv(s) && q < |s.services| && s.services[q].registered
    ensures s.services[q].ref >= 1 && AllKnown(s)
  {
    hide Count, Sum;
    assert Good(s.services[q], Count(s, q));
  }

  /** The turn ends: another queue waits and takes the place of this one, which goes to the end of
      the list, or the worker keeps the queue. */
  lemma EndTurn(s: State, i: nat, w: int, q: Id, v: Service, g: seq<Id>) returns (n: nat)
    requires Fits(s, i, Next(w, q), q, g) && AllKnown(Changed(s, i, Next(w, q), q, v, g)) && v.ref > 1
    ensures var y := if g == [] then Changed(s, i, Idle(w, Some(q)), q, v.(ref := v.ref - 1), [])
                     else Changed(s, i, Idle(w, Some(g[0])), q, v.(ref := v.ref - 1), g[1..] + [q]);
            Leads(Changed(s, i, Next(w, q), q, v, g), i, true, n, y) && AllKnown(y)
  {
    hide Act, AllKnown, Leads;
    var x := Changed(s, i, Next(w, q), q, v, g);
    var back := v.(ref := v.ref - 1);
    NextStep(x, i, w, q);
    if g == [] {
      var a := Release(q, Idle(w, Some(q)));
      Acted(s, i, true, Next(w, q), q, v, g, a, v, []);
      ReleaseStep(Changed(s, i, a, q, v, []), i, true, q, Idle(w, Some(q)));
      Acted(s, i, true, a, q, v, [], Idle(w, Some(q)), back, []);
      n := 2;
      Then(x, i, true, 1, Changed(s, i, a, q, v, []), 1, Changed(s, i, Idle(w, Some(q)), q, back, []));
    } else {
      var b, a, g' := PushBack(w, q, g[0]), Release(q, Idle(w, Some(g[0]))), g[1..] + [q];
      Acted(s, i, true, Next(w, q), q, v, g, b, v, g[1..]);
      PushBackStep(Changed(s, i, b, q, v, g[1..]), i, w, q, g[0]);
      Acted(s, i, true, b, q, v, g[1..], a, v, g');
      ReleaseStep(Changed(s, i, a, q, v, g'), i, true, q, Idle(w, Some(g[0])));
      Acted(s, i, true, a, q, v, g', Idle(w, Some(g[0])), back, g');
      n := 3;
      Then(x, i, true, 1, Changed(s, i, b, q, v, g[1..]), 1, Changed(s, i, a, q, v, g'));
      Then(x, i, true, 2, Changed(s, i, a, q, v, g'), 1, Changed(s, i, Idle(w, Some(g[0])), q, back, g'));
    }
  }

  /** A dispatch by a worker alone: it hands out its batch, oldest messages first, and leaves with
      the queue that waits longest, putting its own behind all others; or it keeps its own. */
  lemma DispatchCall(s: State, i: nat, w: int, q: Id) returns (n: nat)
    requires Reachable(s) && i < |s.agents| && s.agents[i] == Idle(w, Some(q)) && q < |s.services|
    requires s.services[q].registered && s.services[q].q.msgs != []
    ensures var v, g := s.services[q], s.global;
            var v' := Served(v, Batch(w, |v.q.msgs|));
            Leads(s, i, true, n, if g == [] then Changed(s, i, Idle(w, Some(q)), q, v', []) else Changed(s, i, Idle(w, Some(g[0])), q, v', g[1..] + [q]))
  {
    hide Act, AllKnown, Leads, Inv, Batch, Reachable;
    ReachableInv(s);
    RegisteredRef(s, q);
    var v := s.services[q];
    var b := Batch(w, |v.q.msgs|);
    var m := Serve(s, i, w, q);
    var held := Served(v.(ref := v.ref + 1), b);
    NextFits(s, i, w, q);
    var k := EndTurn(s, i, w, q, held, s.global);
    assert held.(ref := held.ref - 1) == Served(v, b);
    n := m + k;
    var y := if s.global == [] then Changed(s, i, Idle(w, Some(q)), q, Served(v, b), [])
             else Changed(s, i, Idle(w, Some(s.global[0])), q, Served(v, b), s.global[1..] + [q]);
    Then(s, i, true, m, Changed(s, i, Next(w, q), q, held, s.global), k, y);
  }

  lemma NextFits(s: State, i: nat, w: int, q: Id)
    requires AllKnown(s) && i < |s.agents| && q < |s.services|
    ensures Fits(s, i, Next(w, q), q, s.global)
  {
  }

  /** An empty queue: it is let go, and is nobody's until the next message comes. */
  lemma DispatchNothing(s: State, i: nat, w: int, q: Id)
    requires Reachable(s) && i < |s.agents| && s.agents[i] == Idle(w, Some(q)) && q < |s.services|
    requires s.services[q].registered && s.services[q].q.msgs == []
    ensures Leads(s, i, true, 3, Changed(s, i, Idle(w, None), q, s.services[q].(q := s.services[q].q.(inGlobal := false)), s.global))
  {
    hide Act, AllKnown, Leads, Inv, Reachable;
    ReachableInv(s);
    RegisteredRef(s, q);
    var v, g := s.services[q], s.global;
    var up, a := v.(ref := v.ref + 1), Release(q, Idle(w, None));
    var out := up.(q := v.q.(inGlobal := false));
    Itself(s, i, q);
    LookStep(s, i, w, q);
    Acted(s, i, true, s.agents[i], q, v, g, Popping(w, q, 0, 1), up, g);
    NoMessage(Changed(s, i, Popping(w, q, 0, 1), q, up, g), i, w, q);
    Acted(s, i, true, Popping(w, q, 0, 1), q, up, g, a, out, g);
    ReleaseStep(Changed(s, i, a, q, out, g), i, true, q, Idle(w, None));
    Acted(s, i, true, a, q, out, g, Idle(w, None), out.(ref := v.ref), g);
    Then(s, i, true, 1, Changed(s, i, Popping(w, q, 0, 1), q, up, g), 1, Changed(s, i, a, q, out, g));
    Then(s, i, true, 2, Changed(s, i, a, q, out, g), 1, Changed(s, i, Idle(w, None), q, out.(ref := v.ref), g));
  }

  lemma NoMessage(x: State, i: nat, w: int, q: Id)
    requires AllKnown(x) && i < |x.agents| && x.agents[i] == Popping(w, q, 0, 1) && q < |x.services| && x.services[q].q.msgs == []
    ensures var v := x.services[q]; Act(x, i, true) == Changed(x, i, Release(q, Idle(w, None)), q, v.(q := v.q.(inGlobal := false)), x.global)
  {
    assert x.agents[i] in x.agents;
  }

  // ------------------------------------------------------------------ a queue without its context

  /** all messages dropped */
  function AllDropped(v: Service): Service
  {
    v.(q := v.q.(msgs := [], inGlobal := false), dropped := v.dropped + v.q.msgs)
  }

  lemma DropStep(x: State, i: nat, ok: bool, q: Id, next: Agent)
    requires AllKnown(x) && i < |x.agents| && x.agents[i] == Dropping(q, next) && q < |x.services|
    ensures var v := x.services[q];
            Act(x, i, ok) == if v.q.msgs == [] then Changed(x, i, Free(q, next), q, v.(q := v.q.(inGlobal := false)), x.global)
                             else Changed(x, i, Dropping(q, next), q, v.(q := v.q.(msgs := v.q.msgs[1..]), dropped := v.dropped + [v.q.msgs[0]]), x.global)
  {
    assert x.agents[i] in x.agents;
    assert x.agents[i := x.agents[i]] == x.agents;
  }

  lemma {:induction false} DropAllSteps(s: State, i: nat, ok: bool, q: Id, next: Agent, v: Service, g: seq<Id>) returns (n: nat)
    requires i < |s.agents| && q < |s.services| && AllKnown(Changed(s, i, Dropping(q, next), q, v, g))
    ensures var y := Changed(s, i, Free(q, next), q, AllDropped(v), g);
            Leads(Changed(s, i, Dropping(q, next), q, v, g), i, ok, n, y) && AllKnown(y)
    decreases |v.q.msgs|
  {
    hide Act, AllKnown, Leads;
    var a := Dropping(q, next);
    var x := Changed(s, i, a, q, v, g);
    DropStep(x, i, ok, q, next);
    if v.q.msgs == [] {
      assert v.dropped + [] == v.dropped;
      Acted(s, i, ok, a, q, v, g, Free(q, next), AllDropped(v), g);
      n := 1;
    } else {
      var v' := v.(q := v.q.(msgs := v.q.msgs[1..]), dropped := v.dropped + [v.q.msgs[0]]);
      Acted(s, i, ok, a, q, v, g, a, v', g);
      var m := DropAllSteps(s, i, ok, q, next, v', g);
      assert v.dropped + [v.q.msgs[0]] + v.q.msgs[1..] == v.dropped + v.q.msgs;
      n := 1 + m;
      Then(x, i, ok, 1, Changed(s, i, a, q, v', g), m, Changed(s, i, Free(q, next), q, AllDropped(v), g));
    }
  }

  lemma ReclaimStep(x: State, i: nat, ok: bool, q: Id, next: Agent)
    requires AllKnown(x) && i < |x.agents| && x.agents[i] == Reclaim(q, next) && q < |x.services|
    ensures var v := x.services[q];
            Act(x, i, ok) == if v.q.release then Changed(x, i, Dropping(q, next), q, v, x.global) else Changed(x, i, next, q, v, x.global + [q])
  {
    assert x.agents[i] in x.agents;
    assert x.services[q := x.services[q]] == x.services;
  }

  lemma FreeStep(x: State, i: nat, ok: bool, q: Id, next: Agent)
    requires AllKnown(x) && i < |x.agents| && x.agents[i] == Free(q, next) && q < |x.services|
    ensures var v := x.services[q]; Act(x, i, ok) == Changed(x, i, next, q, v.(freed := v.freed + 1), x.global)
  {
    assert x.agents[i] in x.agents;
  }

  /** skynet_mq_release of a marked queue: everything is dropped in order, and the queue freed. */
  lemma ReleaseCall(s: State, i: nat, ok: bool, q: Id, next: Agent, v: Service, g: seq<Id>) returns (n: nat)
    requires i < |s.agents| && q < |s.services| && AllKnown(Changed(s, i, Reclaim(q, next), q, v, g)) && v.q.release
    ensures var y := Changed(s, i, next, q, AllDropped(v).(freed := v.freed + 1), g);
            Leads(Changed(s, i, Reclaim(q, next), q, v, g), i, ok, n, y) && AllKnown(y)
  {
    hide Act, AllKnown, Leads;
    var x := Changed(s, i, Reclaim(q, next), q, v, g);
    ReclaimStep(x, i, ok, q, next);
    Acted(s, i, ok, Reclaim(q, next), q, v, g, Dropping(q, next), v, g);
    var m := DropAllSteps(s, i, ok, q, next, v, g);
    var gone := AllDropped(v);
    FreeStep(Changed(s, i, Free(q, next), q, gone, g), i, ok, q, next);
    Acted(s, i, ok, Free(q, next), q, gone, g, next, gone.(freed := v.freed + 1), g);
    n := 1 + m + 1;
    Then(x, i, ok, 1, Changed(s, i, Dropping(q, next), q, v, g), m, Changed(s, i, Free(q, next), q, gone, g));
    Then(x, i, ok, 1 + m, Changed(s, i, Free(q, next), q, gone, g), 1, Changed(s, i, next, q, gone.(freed := v.freed + 1), g));
  }

  lemma OrphanStep(s: State, i: nat, w: int, q: Id)
    requires AllKnown(s) && i < |s.agents| && s.agents[i] == Idle(w, Some(q)) && q < |s.services| && !s.services[q].registered
    ensures Act(s, i, true) == Changed(s, i, Reclaim(q, Idle(w, None)), q, s.services[q], s.global)
  {
    assert s.agents[i] in s.agents;
    assert s.services[q := s.services[q]] == s.services;
  }

  /** A queue whose service is retired: freed if its context is gone, else back to the list. */
  lemma DispatchOrphan(s: State, i: nat, w: int, q: Id) returns (n: nat)
    requires AllKnown(s) && i < |s.agents| && s.agents[i] == Idle(w, Some(q)) && q < |s.services| && !s.services[q].registered
    ensures var v := s.services[q];
            Leads(s, i, true, n, if v.q.release then Changed(s, i, Idle(w, None), q, AllDropped(v).(freed := v.freed + 1), s.global)
                                 else Changed(s, i, Idle(w, None), q, v, s.global + [q]))
  {
    hide Act, AllKnown, Leads;
    var v, g, a := s.services[q], s.global, Reclaim(q, Idle(w, None));
    Itself(s, i, q);
    OrphanStep(s, i, w, q);
    Acted(s, i, true, s.agents[i], q, v, g, a, v, g);
    if v.q.release {
      var m := ReleaseCall(s, i, true, q, Idle(w, None), v, g);
      n := 1 + m;
      Then(s, i, true, 1, Changed(s, i, a, q, v, g), m, Changed(s, i, Idle(w, None), q, AllDropped(v).(freed := v.freed + 1), g));
    } else {
      ReclaimStep(Changed(s, i, a, q, v, g), i, true, q, Idle(w, None));
      Acted(s, i, true, a, q, v, g, Idle(w, None), v, g + [q]);
      n := 2;
      Then(s, i, true, 1, Changed(s, i, a, q, v, g), 1, Changed(s, i, Idle(w, None), q, v, g + [q]));
    }
  }

  // ------------------------------------------------------------------ sending and killing

  lemma GrabStep(x: State, i: nat, h: Id, m: Message)
    requires AllKnown(x) && i < |x.agents| && x.agents[i] == Grab(h, m) && Registered(x, h)
    ensures var v := x.services[h]; Act(x, i, true) == Changed(x, i, Push(h, m), h, v.(ref := v.ref + 1), x.global)
  {
    assert x.agents[i] in x.agents;
  }

  lemma PushStep(x: State, i: nat, h: Id, m: Message)
    requires AllKnown(x) && i < |x.agents| && x.agents[i] == Push(h, m) && h < |x.services|
    ensures var v := x.services[h];
            Act(x, i, true) == Changed(x, i, Release(h, Done), h, v.(q := v.q.(msgs := v.q.msgs + [m], inGlobal := true), pushed := v.pushed + [m]),
                                 if v.q.inGlobal then x.global else x.global + [h])
  {
    assert x.agents[i] in x.agents;
  }

  /** A send: the message is the last of its queue, which is on the list if it was nobody's. */
  lemma SendCall(s: State, i: nat, h: Id, m: Message)
    requires Reachable(s) && i < |s.agents| && s.agents[i] == Grab(h, m) && Registered(s, h)
    ensures var v := s.services[h];
            Leads(s, i, true, 3, Changed(s, i, Done, h, v.(q := v.q.(msgs := v.q.msgs + [m], inGlobal := true), pushed := v.pushed + [m]),
                                   if v.q.inGlobal then s.global else s.global + [h]))
  {
    hide Act, AllKnown, Leads, Inv, Reachable;
    ReachableInv(s);
    RegisteredRef(s, h);
    var v, g := s.services[h], s.global;
    var up := v.(ref := v.ref + 1);
    var in_ := up.(q := v.q.(msgs := v.q.msgs + [m], inGlobal := true), pushed := v.pushed + [m]);
    var g' := if v.q.inGlobal then g else g + [h];
    Itself(s, i, h);
    GrabStep(s, i, h, m);
    Acted(s, i, true, s.agents[i], h, v, g, Push(h, m), up, g);
    PushStep(Changed(s, i, Push(h, m), h, up, g), i, h, m);
    Acted(s, i, true, Push(h, m), h, up, g, Release(h, Done), in_, g');
    ReleaseStep(Changed(s, i, Release(h, Done), h, in_, g'), i, true, h, Done);
    Acted(s, i, true, Release(h, Done), h, in_, g', Done, in_.(ref := v.ref), g');
    Then(s, i, true, 1, Changed(s, i, Push(h, m), h, up, g), 1, Changed(s, i, Release(h, Done), h, in_, g'));
    Then(s, i, true, 2, Changed(s, i, Release(h, Done), h, in_, g'), 1, Changed(s, i, Done, h, in_.(ref := v.ref), g'));
  }

  lemma RetireStep(x: State, i: nat, ok: bool, h: Id, next: Agent)
    requires AllKnown(x) && i < |x.agents| && x.agents[i] == Retire(h, next) && Registered(x, h)
    ensures Act(x, i, ok) == Changed(x, i, Release(h, next), h, x.services[h].(registered := false), x.global)
  {
    assert x.agents[i] in x.agents;
  }

  lemma DeleteStep(x: State, i: nat, ok: bool, h: Id, next: Agent)
    requires AllKnown(x) && i < |x.agents| && x.agents[i] == Delete(h, next) && h < |x.services|
    ensures var v := x.services[h];
            Act(x, i, ok) == Changed(x, i, next, h, v.(q := v.q.(release := true)), if v.q.inGlobal then x.global else x.global + [h])
  {
    assert x.agents[i] in x.agents;
  }

  /** skynet_handle_retire: the last reference deletes the context, marks its queue and sees to it
      that the queue is somebody's. */
  lemma RetireCall(s: State, i: nat, ok: bool, h: Id, next: Agent, v: Service, g: seq<Id>) returns (n: nat)
    requires i < |s.agents| && h < |s.services| && AllKnown(Changed(s, i, Retire(h, next), h, v, g)) && v.registered
    ensures var out := v.(registered := false, ref := v.ref - 1);
            var y := if v.ref == 1 then Changed(s, i, next, h, out.(q := v.q.(release := true)), if v.q.inGlobal then g else g + [h])
                     else Changed(s, i, next, h, out, g);
            Leads(Changed(s, i, Retire(h, next), h, v, g), i, ok, n, y) && AllKnown(y)
  {
    hide Act, AllKnown, Leads;
    var x, a := Changed(s, i, Retire(h, next), h, v, g), Release(h, next);
    var off := v.(registered := false);
    var out := off.(ref := v.ref - 1);
    RetireStep(x, i, ok, h, next);
    Acted(s, i, ok, Retire(h, next), h, v, g, a, off, g);
    ReleaseStep(Changed(s, i, a, h, off, g), i, ok, h, next);
    if v.ref == 1 {
      var g' := if v.q.inGlobal then g else g + [h];
      Acted(s, i, ok, a, h, off, g, Delete(h, next), out, g);
      DeleteStep(Changed(s, i, Delete(h, next), h, out, g), i, ok, h, next);
      Acted(s, i, ok, Delete(h, next), h, out, g, next, out.(q := v.q.(release := true)), g');
      n := 3;
      Then(x, i, ok, 1, Changed(s, i, a, h, off, g), 1, Changed(s, i, Delete(h, next), h, out, g));
      Then(x, i, ok, 2, Changed(s, i, Delete(h, next), h, out, g), 1, Changed(s, i, next, h, out.(q := v.q.(release := true)), g'));
    } else {
      Acted(s, i, ok, a, h, off, g, next, out, g);
      n := 2;
      Then(x, i, ok, 1, Changed(s, i, a, h, off, g), 1, Changed(s, i, next, h, out, g));
    }
  }

  // ------------------------------------------------------------------ creating

  lemma InitStep(x: State, i: nat, ok: bool, h: Id)
    requires AllKnown(x) && i < |x.agents| && x.agents[i] == Init(h) && h < |x.services|
    ensures Act(x, i, ok) == Changed(x, i, Release(h, if ok then Launch(h) else Retire(h, Reclaim(h, Done))), h, x.services[h], x.global)
  {
    assert x.agents[i] in x.agents;
    assert x.services[h := x.services[h]] == x.services;
  }

  lemma LaunchStep(x: State, i: nat, h: Id)
    requires AllKnown(x) && i < |x.agents| && x.agents[i] == Launch(h) && h < |x.services| && !x.services[h].q.release
    ensures Act(x, i, true) == Changed(x, i, Done, h, x.services[h].(init := true), x.global + [h])
  {
    assert x.agents[i] in x.agents;
  }

  /** A creation whose init function succeeds: the service is ready, and its queue is on the list. */
  lemma CreateCall(s: State)
    requires Reachable(s)
    ensures AllKnown(s)
    ensures var x, i, h := Take(s, SpawnNew), |s.agents|, |s.services|;
            && |x.agents| == i + 1 && |x.services| == h + 1
            && Leads(x, i, true, 3, Changed(x, i, Done, h, Service(true, 1, true, View([], true, false), 0, [], [], []), x.global + [h]))
  {
    hide Act, AllKnown, Leads, Inv, Reachable;
    ReachableInv(s);
    InvAllKnown(s);
    NewKnown(s);
    var x, i, h, v := Take(s, SpawnNew), |s.agents|, |s.services|, Fresh();
    var g, v' := x.global, v.(ref := 1);
    Itself(x, i, h);
    InitStep(x, i, true, h);
    Acted(x, i, true, Init(h), h, v, g, Release(h, Launch(h)), v, g);
    ReleaseStep(Changed(x, i, Release(h, Launch(h)), h, v, g), i, true, h, Launch(h));
    Acted(x, i, true, Release(h, Launch(h)), h, v, g, Launch(h), v', g);
    LaunchStep(Changed(x, i, Launch(h), h, v', g), i, h);
    Acted(x, i, true, Launch(h), h, v', g, Done, v'.(init := true), g + [h]);
    Then(x, i, true, 1, Changed(x, i, Release(h, Launch(h)), h, v, g), 1, Changed(x, i, Launch(h), h, v', g));
    Then(x, i, true, 2, Changed(x, i, Launch(h), h, v', g), 1, Changed(x, i, Done, h, v'.(init := true), g + [h]));
  }

  lemma InvAllKnown(s: State)
    requires Inv(s)
    ensures AllKnown(s)
  {
  }

  /** One whose init function fails: nothing is left of it but the freed queue. */
  lemma CreateFails(s: State) returns (n: nat)
    requires Reachable(s)
    ensures AllKnown(s)
    ensures var x, i, h := Take(s, SpawnNew), |s.agents|, |s.services|;
            && |x.agents| == i + 1 && |x.services| == h + 1
            && Leads(x, i, false, n, Changed(x, i, Done, h, Service(false, 0, false, View([], false, true), 1, [], [], []), x.global))
  {
    hide Act, AllKnown, Leads, Inv, Reachable;
    ReachableInv(s);
    InvAllKnown(s);
    NewKnown(s);
    var x, i, h, v := Take(s, SpawnNew), |s.agents|, |s.services|, Fresh();
    var g, v' := x.global, v.(ref := 1);
    var end := Reclaim(h, Done);
    var a, b := Release(h, Retire(h, end)), Retire(h, end);
    Itself(x, i, h);
    InitStep(x, i, false, h);
    Acted(x, i, false, Init(h), h, v, g, a, v, g);
    ReleaseStep(Changed(x, i, a, h, v, g), i, false, h, b);
    Acted(x, i, false, a, h, v, g, b, v', g);
    Then(x, i, false, 1, Changed(x, i, a, h, v, g), 1, Changed(x, i, b, h, v', g));
    var m := RetireCall(x, i, false, h, end, v', g);
    var marked := v'.(registered := false, ref := 0, q := v'.q.(release := true));
    Then(x, i, false, 2, Changed(x, i, b, h, v', g), m, Changed(x, i, end, h, marked, g));
    var k := ReleaseCall(x, i, false, h, Done, marked, g);
    n := 2 + m + k;
    Then(x, i, false, 2 + m, Changed(x, i, end, h, marked, g), k, Changed(x, i, Done, h, AllDropped(marked).(freed := 1), g));
    assert AllDropped(marked).(freed := 1) == Service(false, 0, false, View([], false, true), 1, [], [], []);
  }
}
