/** The jump peephole, in place on the code array. Labels are redirected to where the jumps they
    point at end up, and a jump is replaced by the instruction it leads to when that one never goes
    on to the next instruction. The code that results halts like the original on every subject, also
    at every moment of the pass. */
module LpegPeephole {
  import opened LpegTree
  import opened LpegVm
  import opened LpegGen
  import opened LpegLayout
  import opened LpegCompiler
  import opened LpegSim

  predicate IsJump(code: seq<Slot>, q: int)
  {
    InstAt(code, q) && code[q].op == IJmp
  }

  /** Bounds the jumps that can follow each other from q: a back jump lands on a test, or on a
      jump that goes forward over it. */
  function Rank(code: seq<Slot>, q: int): nat
  {
    if !IsJump(code, q) then 0
    else if q < Target(code, q) <= |code| then 2 * (|code| - Target(code, q)) + 1
    else 2 * (|code| - q)
  }

  lemma JumpRank(code: seq<Slot>, q: int)
    requires Closed(code) && IsJump(code, q)
    ensures InstAt(code, Target(code, q)) && Rank(code, Target(code, q)) < Rank(code, q)
  {
    hide SizeI;
    assert Ok(code, q);
    var t := Target(code, q);
    assert Ok(code, t);
    if IsJump(code, t) { assert Target(code, t) < |code|; }
  }

  /** Following jumps from a leads to b. */
  ghost predicate Leads(code: seq<Slot>, a: int, b: int)
    requires Closed(code)
    decreases Rank(code, a)
  {
    a == b || (IsJump(code, a) && (JumpRank(code, a); Leads(code, Target(code, a), b)))
  }

  lemma {:induction false} LeadsTrans(code: seq<Slot>, a: int, b: int, c: int)
    requires Closed(code) && Leads(code, a, b) && Leads(code, b, c)
    ensures Leads(code, a, c)
    decreases Rank(code, a)
  {
    hide Closed;
    if a != b {
      JumpRank(code, a);
      LeadsTrans(code, Target(code, a), b, c);
    }
  }

  lemma {:induction false} LeadsRank(code: seq<Slot>, a: int, b: int)
    requires Closed(code) && Leads(code, a, b) && InstAt(code, a)
    ensures InstAt(code, b) && Rank(code, b) <= Rank(code, a)
    decreases Rank(code, a)
  {
    hide Closed;
    if a != b {
      JumpRank(code, a);
      LeadsRank(code, Target(code, a), b);
    }
  }

  /** Only a jump leads anywhere else. */
  lemma LeadsJump(code: seq<Slot>, a: int, b: int)
    requires Closed(code) && Leads(code, a, b) && a != b
    ensures IsJump(code, a)
  {
  }

  /** Instructions that never continue with the next one. */
  predicate Unconditional(op: Opcode)
  {
    op in {IEnd, IFail, IFailTwice, ICommit, IPartialCommit, IBackCommit}
  }

  /** What the instruction at q may have become: itself, or, for a jump, the unconditional
      instruction at 'at' it leads to; its label may have moved along jumps. */
  ghost predicate Became(orig: seq<Slot>, cur: seq<Slot>, q: int, at: int)
    requires Closed(orig)
  {
    && InstAt(orig, at) && InstAt(cur, q) && cur[q] == orig[at]
    && Leads(orig, q, at) && (at == q || Unconditional(cur[q].op))
    && (HasLabel(cur[q].op) ==> Leads(orig, Target(orig, at), Target(cur, q)))
    && (cur[q].op in {ISet, ISpan} ==> cur[q + 1] == orig[q + 1])
    && (cur[q].op == ITestSet ==> cur[q + 2] == orig[q + 2])
  }

  ghost predicate Refines(orig: seq<Slot>, cur: seq<Slot>)
    requires Closed(orig)
  {
    && |cur| == |orig|
    && forall q :: 0 <= q < |orig| && orig[q].Inst? ==> exists at :: Became(orig, cur, q, at)
  }

  ghost predicate StackRel(orig: seq<Slot>, x: seq<Entry>, y: seq<Entry>)
    requires Closed(orig)
  {
    && |x| == |y|
    && forall k :: 0 <= k < |x| ==> x[k].i == y[k].i && Leads(orig, x[k].p, y[k].p)
  }

  /** The original machine is where the other one is, or some jumps behind it. */
  ghost predicate StateRel(orig: seq<Slot>, x: State, y: State)
    requires Closed(orig)
  {
    if x.Run? && y.Run? then x.i == y.i && Leads(orig, x.p, y.p) && StackRel(orig, x.stack, y.stack)
    else x == y
  }

  lemma FailRel(orig: seq<Slot>, x: seq<Entry>, y: seq<Entry>)
    requires Closed(orig) && StackRel(orig, x, y)
    ensures StateRel(orig, Fail(x), Fail(y))
    ensures x != [] ==> StackRel(orig, x[..|x| - 1], y[..|y| - 1])
  {
  }

  lemma PushRel(orig: seq<Slot>, x: seq<Entry>, y: seq<Entry>, e: Entry, f: Entry)
    requires Closed(orig) && StackRel(orig, x, y) && e.i == f.i && Leads(orig, e.p, f.p)
    ensures StackRel(orig, x + [e], y + [f])
  {
  }

  /** One instruction of each machine keeps them related. */
  lemma StepRel(orig: seq<Slot>, cur: seq<Slot>, s: seq<Byte>, q: int, at: int, i: nat, x: seq<Entry>, y: seq<Entry>)
    requires Closed(orig) && Became(orig, cur, q, at) && StackRel(orig, x, y) && q >= 0
    requires !Step(orig, s, Run(at, i, x)).Stuck?
    ensures StateRel(orig, Step(orig, s, Run(at, i, x)), Step(cur, s, Run(q, i, y)))
  {
    hide Closed, Leads, SpanEnd, StackRel;
    var op := cur[q].op;
    assert forall p :: Leads(orig, p, p) by { LeadsSelf(orig); }
    FailRel(orig, x, y);
    SameDepth(orig, x, y);
    if x != [] {
      var n := |x| - 1;
      FailRel(orig, x[..n], y[..n]);
      TopRel(orig, x, y);
      if op == IPartialCommit { PushRel(orig, x[..n], y[..n], Entry(x[n].p, i), Entry(y[n].p, i)); }
    }
    if op == IChoice { PushRel(orig, x, y, Entry(Target(orig, at), i), Entry(Target(cur, q), i)); }
  }

  lemma LeadsSelf(orig: seq<Slot>)
    requires Closed(orig)
    ensures forall p :: Leads(orig, p, p)
  {
  }

  lemma SameDepth(orig: seq<Slot>, x: seq<Entry>, y: seq<Entry>)
    requires Closed(orig) && StackRel(orig, x, y)
    ensures |x| == |y|
  {
  }

  lemma TopRel(orig: seq<Slot>, x: seq<Entry>, y: seq<Entry>)
    requires Closed(orig) && StackRel(orig, x, y) && x != []
    ensures x[|x| - 1].i == y[|x| - 1].i && Leads(orig, x[|x| - 1].p, y[|x| - 1].p)
  {
  }

  /** The original machine catches up along its jumps, within the steps it has left. */
  lemma {:induction false} FollowJumps(code: seq<Slot>, s: seq<Byte>, a: int, b: int, i: nat, stk: seq<Entry>, n: nat, h: State)
      returns (m: nat)
    requires Closed(code) && Leads(code, a, b)
    requires Steps(code, s, Run(a, i, stk), n) == h && Halted(h)
    ensures m <= n && Steps(code, s, Run(b, i, stk), m) == h
    decreases Rank(code, a)
  {
    hide Closed;
    m := n;
    if a != b {
      JumpRank(code, a);
      HaltsOnInst(code, s, Run(a, i, stk), n, h);
      m := FollowJumps(code, s, Target(code, a), b, i, stk, n - 1, h);
    }
  }

  /** Whatever the original code halts with, the refined code halts with. */
  lemma {:induction false} PeepSim(orig: seq<Slot>, cur: seq<Slot>, s: seq<Byte>, x: State, y: State, n: nat, h: State)
    requires Closed(orig) && Refines(orig, cur) && StateRel(orig, x, y)
    requires Steps(orig, s, x, n) == h && Halted(h)
    ensures Reach(cur, s, y, h)
    decreases n
  {
    hide Closed, Leads, Became, Reach, Step, StackRel;
    if !x.Run? {
      HaltedStays(orig, s, x, n);
      ReachRefl(cur, s, y);
    } else {
      assert y.Run? && x.i == y.i && Leads(orig, x.p, y.p) && StackRel(orig, x.stack, y.stack) by {
        RunRel(orig, s, x, y, n, h);
      }
      var m := FollowJumps(orig, s, x.p, y.p, x.i, x.stack, n, h);
      var q := y.p;
      HaltsOnInst(orig, s, Run(q, x.i, x.stack), m, h);
      if q == GIVEUP {
        SameDepth(orig, x.stack, y.stack);
        GiveUpStep(orig, cur, s, x.i, x.stack, y.stack, m, h);
      } else {
        var at :| Became(orig, cur, q, at);
        BecameLeads(orig, cur, q, at);
        m := FollowJumps(orig, s, q, at, x.i, x.stack, m, h);
        HaltsOnInst(orig, s, Run(at, x.i, x.stack), m, h);
        StepRel(orig, cur, s, q, at, x.i, x.stack, y.stack);
        PeepSim(orig, cur, s, Step(orig, s, Run(at, x.i, x.stack)), Step(cur, s, y), m - 1, h);
        ReachStep(cur, s, y, h);
      }
    }
  }

  lemma RunRel(orig: seq<Slot>, s: seq<Byte>, x: State, y: State, n: nat, h: State)
    requires Closed(orig) && StateRel(orig, x, y) && x.Run?
    requires Steps(orig, s, x, n) == h && Halted(h)
    ensures y.Run? && x.i == y.i && Leads(orig, x.p, y.p) && StackRel(orig, x.stack, y.stack)
  {
  }

  lemma BecameLeads(orig: seq<Slot>, cur: seq<Slot>, q: int, at: int)
    requires Closed(orig) && Became(orig, cur, q, at)
    ensures Leads(orig, q, at)
  {
  }

  /** A run that halts executes real instructions only. */
  lemma HaltsOnInst(code: seq<Slot>, s: seq<Byte>, st: State, n: nat, h: State)
    requires st.Run? && Steps(code, s, st, n) == h && Halted(h)
    ensures n > 0 && !Step(code, s, st).Stuck?
    ensures st.p != GIVEUP ==> InstAt(code, st.p) && 0 <= st.p < |code| && code[st.p].Inst?
  {
    if Step(code, s, st).Stuck? { HaltedStays(code, s, Stuck, n - 1); }
  }

  lemma GiveUpStep(orig: seq<Slot>, cur: seq<Slot>, s: seq<Byte>, i: nat, x: seq<Entry>, y: seq<Entry>, n: nat, h: State)
    requires |x| == |y| && Steps(orig, s, Run(GIVEUP, i, x), n) == h && Halted(h) && n > 0
    requires !Step(orig, s, Run(GIVEUP, i, x)).Stuck?
    ensures Reach(cur, s, Run(GIVEUP, i, y), h)
  {
    HaltedStays(orig, s, GaveUp, n - 1);
    Reach1(cur, s, Run(GIVEUP, i, y));
  }

  // ------------------------------------------------------------------ the pass itself

  /** Labels of the instructions before i no longer point at jumps. */
  predicate Optimized(orig: seq<Slot>, cur: seq<Slot>, i: int)
  {
    forall q :: 0 <= q < i && q < |orig| && orig[q].Inst? && InstAt(cur, q) && HasLabel(cur[q].op) ==>
      var t := Target(cur, q); 0 <= t < |cur| && cur[t].Inst? && cur[t].op != IJmp
  }

  lemma RefinesSelf(orig: seq<Slot>)
    requires Closed(orig)
    ensures Refines(orig, orig)
  {
    hide Leads;
    LeadsSelf(orig);
    forall q | 0 <= q < |orig| && orig[q].Inst?
      ensures exists at :: Became(orig, orig, q, at)
    {
      assert Ok(orig, q);
      assert Became(orig, orig, q, q);
    }
  }

  /** A label in the current code is a label of the original, moved along jumps. */
  lemma LabelInside(orig: seq<Slot>, cur: seq<Slot>, q: int)
    requires Closed(orig) && Refines(orig, cur) && 0 <= q < |orig| && orig[q].Inst?
    ensures InstAt(cur, q)
    ensures HasLabel(cur[q].op) ==> InstAt(orig, Target(cur, q))
    ensures cur[q].op == IJmp ==> IsJump(orig, q) && Leads(orig, Target(orig, q), Target(cur, q))
  {
    hide Leads, Closed, InstAt, Target;
    var at :| Became(orig, cur, q, at);
    LabelOf(orig, cur, q, at);
  }

  lemma LabelOf(orig: seq<Slot>, cur: seq<Slot>, q: int, at: int)
    requires Closed(orig) && Became(orig, cur, q, at)
    ensures HasLabel(cur[q].op) ==> InstAt(orig, Target(cur, q))
    ensures cur[q].op == IJmp ==> IsJump(orig, q) && Leads(orig, Target(orig, q), Target(cur, q))
  {
    hide Leads;
    if HasLabel(cur[q].op) {
      LabelIsInst(orig, at);
      LeadsRank(orig, Target(orig, at), Target(cur, q));
    }
  }

  lemma LabelIsInst(code: seq<Slot>, q: int)
    requires Closed(code) && InstAt(code, q) && HasLabel(code[q].op)
    ensures InstAt(code, Target(code, q))
  {
    assert Ok(code, q);
    assert Ok(code, Target(code, q));
  }

  /** Final destination of a sequence of jumps; the pass may have rewritten some of them. */
  method FinalTarget(ghost orig: seq<Slot>, code: seq<Slot>, from: int) returns (i: int)
    requires Closed(orig) && Refines(orig, code) && InstAt(orig, from)
    ensures Leads(orig, from, i) && InstAt(orig, i) && InstAt(code, i) && code[i].op != IJmp
    ensures i != from ==> InstAt(code, from) && code[from].op == IJmp && Leads(orig, Target(code, from), i)
  {
    hide Closed, Leads, Refines, Became, Rank, IsJump;
    i := from;
    LeadsSelf(orig);
    LabelInside(orig, code, i);
    assert code[i].op == IJmp ==> Leads(orig, Target(code, i), Target(code, i));
    while code[i].op == IJmp
      invariant InstAt(orig, i) && InstAt(code, i) && Leads(orig, from, i) && InstAt(code, from)
      invariant i == from || (code[from].op == IJmp && Leads(orig, Target(code, from), i))
      decreases Rank(orig, i)
    {
      LabelInside(orig, code, i);
      JumpOnce(orig, i, Target(code, i));
      LeadsTrans(orig, from, i, Target(code, i));
      StepOn(orig, code, from, i);
      i := i + code[i + 1].offset;
      LabelInside(orig, code, i);
    }
  }

  lemma StepOn(orig: seq<Slot>, code: seq<Slot>, from: int, i: int)
    requires Closed(orig) && InstAt(code, from) && InstAt(code, i) && code[from].op == code[i].op == IJmp
    requires i == from || Leads(orig, Target(code, from), i)
    requires Leads(orig, i, Target(code, i))
    ensures Leads(orig, Target(code, from), Target(code, i))
  {
    hide Closed;
    LeadsSelf(orig);
    if i != from { LeadsTrans(orig, Target(code, from), i, Target(code, i)); }
  }

  lemma JumpOnce(orig: seq<Slot>, i: int, t: int)
    requires Closed(orig) && IsJump(orig, i) && Leads(orig, Target(orig, i), t)
    ensures Leads(orig, i, t) && Rank(orig, t) < Rank(orig, i)
  {
    hide Closed;
    JumpRank(orig, i);
    LeadsRank(orig, Target(orig, i), t);
  }

  /** Slots i and i + 1 changed, everything else kept. */
  predicate OnlyAt(cur: seq<Slot>, new_: seq<Slot>, i: int)
  {
    && |new_| == |cur| && 0 <= i && i + 1 < |cur|
    && forall k :: 0 <= k < |cur| && k != i && k != i + 1 ==> new_[k] == cur[k]
  }

  lemma LengthKept(orig: seq<Slot>, cur: seq<Slot>, new_: seq<Slot>, i: int)
    requires Closed(orig) && Refines(orig, cur) && OnlyAt(cur, new_, i)
    ensures |cur| == |orig| == |new_|
  {
    hide Became, Leads, Closed;
  }

  /** Rewriting one instruction keeps the relation if that instruction keeps it. */
  lemma RewriteRefines(orig: seq<Slot>, cur: seq<Slot>, new_: seq<Slot>, i: int, at: int)
    requires Closed(orig) && Refines(orig, cur) && OnlyAt(cur, new_, i)
    requires orig[i].Inst? && HasLabel(orig[i].op) && Became(orig, new_, i, at)
    ensures Refines(orig, new_)
  {
    hide Leads, Closed, Became, OnlyAt, HasLabel;
    assert |cur| == |orig| == |new_| by { LengthKept(orig, cur, new_, i); }
    forall q | 0 <= q < |orig| && orig[q].Inst?
      ensures exists at' :: Became(orig, new_, q, at')
    {
      if q != i {
        var at' :| Became(orig, cur, q, at');
        Elsewhere(orig, cur, new_, i, q, at');
      }
    }
  }

  lemma Elsewhere(orig: seq<Slot>, cur: seq<Slot>, new_: seq<Slot>, i: int, q: int, at: int)
    requires Closed(orig) && |cur| == |orig| && OnlyAt(cur, new_, i) && q != i
    requires orig[i].Inst? && HasLabel(orig[i].op) && 0 <= q < |orig| && orig[q].Inst? && Became(orig, cur, q, at)
    ensures Became(orig, new_, q, at)
  {
    hide Leads, Closed;
    assert Ok(orig, i) && Ok(orig, q) by { ClosedOk(orig, i); ClosedOk(orig, q); }
    assert q != i + 1;
    assert cur[q].op == orig[q].op || orig[q].op == IJmp by { if at != q { LeadsJump(orig, q, at); } }
    if q + 1 == i || q + 2 == i { assert SizeI(orig[q].op) <= i - q; }
  }

  lemma ClosedOk(code: seq<Slot>, q: int)
    requires Closed(code) && 0 <= q < |code| && code[q].Inst?
    ensures Ok(code, q)
  {
  }

  /** Move the label of instruction i along the jumps it points at. */
  lemma RelabelRefines(orig: seq<Slot>, cur: seq<Slot>, i: int, ft: int)
    requires Closed(orig) && Refines(orig, cur) && 0 <= i < |orig| && orig[i].Inst? && HasLabel(orig[i].op)
    requires InstAt(cur, i) && HasLabel(cur[i].op) && Leads(orig, Target(cur, i), ft)
    ensures Refines(orig, cur[i + 1 := Off(ft - i)])
  {
    hide Closed, Leads;
    var new_ := cur[i + 1 := Off(ft - i)];
    var at :| Became(orig, cur, i, at);
    LeadsTrans(orig, Target(orig, at), Target(cur, i), ft);
    assert Became(orig, new_, i, at);
    RewriteRefines(orig, cur, new_, i, at);
  }

  /** A jump becomes the unconditional instruction it leads to. */
  lemma ReplaceRefines(orig: seq<Slot>, cur: seq<Slot>, new_: seq<Slot>, i: int, ft: int)
    requires Closed(orig) && Refines(orig, cur) && OnlyAt(cur, new_, i)
    requires IsJump(orig, i) && Leads(orig, i, ft) && InstAt(orig, ft) && InstAt(cur, ft)
    requires Unconditional(cur[ft].op) && new_[i] == cur[ft] && InstAt(new_, i)
    requires HasLabel(cur[ft].op) ==> Leads(orig, Target(cur, ft), Target(new_, i))
    ensures Refines(orig, new_)
  {
    hide Closed, Leads;
    var at :| Became(orig, cur, ft, at);
    LeadsTrans(orig, i, ft, at);
    if HasLabel(cur[ft].op) { LeadsTrans(orig, Target(orig, at), Target(cur, ft), Target(new_, i)); }
    assert Became(orig, new_, i, at);
    RewriteRefines(orig, cur, new_, i, at);
  }

  /** Before i the pass is done; from i on, past a possible no-op slot, nothing has changed. */
  predicate Frontier(orig: seq<Slot>, cur: seq<Slot>, i: int)
  {
    && |cur| == |orig| && 0 <= i <= |orig|
    && (|| (Boundary(orig, i) && orig[i..] == cur[i..])
        || (i < |orig| && !orig[i].Inst? && cur[i] == Inst(IAny, 0)
            && Boundary(orig, i + 1) && orig[i + 1..] == cur[i + 1..]))
  }

  /** The pass over the whole code. It leaves code that halts like the original on every
      subject (PeepSim) and in which no label points at a jump. */
  method Peephole(cs: CompileState)
    requires Closed(cs.code)
    modifies cs`code
    ensures Refines(old(cs.code), cs.code)
    ensures Optimized(old(cs.code), cs.code, |cs.code|)
    ensures cs.code[|cs.code| - 1].Inst? && cs.code[|cs.code| - 1].op == IEnd
  {
    hide Closed, Leads, Refines, Rank, IsJump, Optimized, SizeI, InstAt, Frontier;
    ghost var orig := cs.code;
    RefinesSelf(orig);
    var i := 0;
    PassStart(orig);
    while i < |cs.code|
      invariant |cs.code| == |orig| && 0 <= i <= |orig|
      invariant Refines(orig, cs.code) && Frontier(orig, cs.code, i) && Optimized(orig, cs.code, i)
    {
      i := OptimizeAt(cs, orig, i);
    }
    PassEnd(orig, cs.code);
  }

  lemma PassStart(orig: seq<Slot>)
    requires Closed(orig)
    ensures Frontier(orig, orig, 0) && Optimized(orig, orig, 0)
  {
  }

  lemma PassEnd(orig: seq<Slot>, cur: seq<Slot>)
    requires Closed(orig) && Refines(orig, cur)
    ensures |cur| == |orig| > 0 && cur[|cur| - 1].Inst? && cur[|cur| - 1].op == IEnd
  {
    hide Leads;
    var q := |orig| - 1;
    var at :| Became(orig, cur, q, at);
    if at != q { LeadsJump(orig, q, at); }
  }

  /** One instruction of the pass; returns where the next one starts. */
  method OptimizeAt(cs: CompileState, ghost orig: seq<Slot>, i: int) returns (next: int)
    requires Closed(orig) && |cs.code| == |orig| && 0 <= i < |orig|
    requires Refines(orig, cs.code) && Frontier(orig, cs.code, i) && Optimized(orig, cs.code, i)
    modifies cs`code
    ensures |cs.code| == |orig| && i < next <= |orig|
    ensures Refines(orig, cs.code) && Frontier(orig, cs.code, next) && Optimized(orig, cs.code, next)
  {
    hide Closed, Leads, Refines, Rank, Optimized, Frontier, Became, OnlyAt;
    ghost var before := cs.code;
    AtFrontier(orig, before, i);
    if cs.code[i].op == IJmp {
      var ft := FinalTarget(orig, cs.code, i);
      if cs.code[ft].op in {IFail, IFailTwice, IEnd} {
        next := i + 1;
        ToImplicitJump(orig, before, i, ft);
        cs.code := cs.code[i := cs.code[ft]][i + 1 := Inst(IAny, 0)];
      } else if cs.code[ft].op in {ICommit, IPartialCommit, IBackCommit} {
        LabelInside(orig, cs.code, ft);
        var fft := FinalTarget(orig, cs.code, ft + cs.code[ft + 1].offset);
        next := i + 2;
        ToExplicitJump(orig, before, i, ft, fft);
        cs.code := cs.code[i := cs.code[ft]];
        cs.JumpToThere(i, fft);  // optimising the new label once more changes nothing: it is final
      } else {
        next := i + 2;
        Relabel(orig, before, i, ft);
        cs.JumpToThere(i, ft);
      }
    } else {
      next := i + SizeI(cs.code[i].op);
      if HasLabel(cs.code[i].op) {
        LabelInside(orig, cs.code, i);
        var ft := FinalTarget(orig, cs.code, i + cs.code[i + 1].offset);
        Relabel(orig, before, i, ft);
        cs.JumpToThere(i, ft);
      } else {
        Skip(orig, before, i);
      }
    }
  }

  lemma AtFrontier(orig: seq<Slot>, cur: seq<Slot>, i: int)
    requires Closed(orig) && Refines(orig, cur) && Frontier(orig, cur, i) && i < |orig|
    ensures 0 <= i < |cur| && cur[i].Inst?
    ensures HasLabel(cur[i].op) ==>
              && i + 1 < |cur| && orig[i].Inst? && InstAt(orig, i) && orig[i].op == cur[i].op
              && cur[i + 1].Off? && InstAt(cur, i) && !orig[i + 1].Inst?
              && i + SizeI(cur[i].op) <= |orig| && Boundary(orig, i + SizeI(cur[i].op))
              && orig[i..] == cur[i..]
  {
    hide Closed, Refines, SizeI;
    if orig[i].Inst? {
      assert orig[i..][0] == cur[i..][0];
      LabelInside(orig, cur, i);
      ClosedOk(orig, i);
      if HasLabel(cur[i].op) { LabelSize(cur[i].op); assert orig[i..][1] == cur[i..][1]; }
    }
  }

  lemma LabelSize(op: Opcode)
    requires HasLabel(op)
    ensures SizeI(op) >= 2
  {
  }

  /** An instruction without a label, or the no-op left behind by a replaced jump. */
  lemma Skip(orig: seq<Slot>, cur: seq<Slot>, i: int)
    requires Closed(orig) && Refines(orig, cur) && Frontier(orig, cur, i) && Optimized(orig, cur, i)
    requires 0 <= i < |orig| && cur[i].Inst? && !HasLabel(cur[i].op)
    ensures var next := i + SizeI(cur[i].op);
            next <= |orig| && Frontier(orig, cur, next) && Optimized(orig, cur, next)
  {
    hide Closed, Refines, Leads, Became, Frontier, Optimized;
    SkipShape(orig, cur, i);
    var n := SizeI(cur[i].op);
    SkipFrontier(orig, cur, i, n);
    SkipOptimized(orig, cur, i, n);
  }

  /** The instruction is still the original one, or the no-op. */
  lemma SkipShape(orig: seq<Slot>, cur: seq<Slot>, i: int)
    requires Closed(orig) && Frontier(orig, cur, i) && 0 <= i < |orig| && cur[i].Inst?
    ensures var n := SizeI(cur[i].op);
            && n >= 1 && i + n <= |orig| == |cur| && Boundary(orig, i + n) && (forall k :: i < k < i + n ==> !orig[k].Inst?)
            && if orig[i].Inst? then orig[i..] == cur[i..] else n == 1 && orig[i + 1..] == cur[i + 1..]
  {
    if orig[i].Inst? {
      ClosedOk(orig, i);
      assert orig[i..][0] == cur[i..][0];
    }
  }

  lemma SkipFrontier(orig: seq<Slot>, cur: seq<Slot>, i: int, n: nat)
    requires 0 <= i && n >= 1 && i + n <= |orig| == |cur| && Boundary(orig, i + n)
    requires if orig[i].Inst? then orig[i..] == cur[i..] else n == 1 && orig[i + 1..] == cur[i + 1..]
    ensures Frontier(orig, cur, i + n)
  {
    if orig[i].Inst? { assert orig[i..][n..] == orig[i + n..] && cur[i..][n..] == cur[i + n..]; }
  }

  lemma SkipOptimized(orig: seq<Slot>, cur: seq<Slot>, i: int, n: nat)
    requires 0 <= i && n >= 1 && i + n <= |orig| == |cur| && Optimized(orig, cur, i)
    requires cur[i].Inst? && !HasLabel(cur[i].op) && forall k :: i < k < i + n ==> !orig[k].Inst?
    ensures Optimized(orig, cur, i + n)
  {
  }

  /** The label of instruction i moves to its final destination. */
  lemma Relabel(orig: seq<Slot>, cur: seq<Slot>, i: int, ft: int)
    requires Closed(orig) && Refines(orig, cur) && Frontier(orig, cur, i) && Optimized(orig, cur, i)
    requires 0 <= i < |orig| == |cur| && InstAt(cur, i) && HasLabel(cur[i].op)
    requires Leads(orig, Target(cur, i), ft) && InstAt(cur, ft) && cur[ft].op != IJmp
    ensures var new_ := cur[i + 1 := Off(ft - i)];
            var next := i + SizeI(cur[i].op);
            next <= |orig| && Refines(orig, new_) && Frontier(orig, new_, next) && Optimized(orig, new_, next)
  {
    hide Closed, Leads, Refines, Became, Frontier, Optimized;
    AtFrontier(orig, cur, i);
    RelabelRefines(orig, cur, i, ft);
    ClosedOk(orig, i);
    Advance(orig, cur, i, cur[i], ft, SizeI(cur[i].op));
    assert cur[i := cur[i]] == cur;
  }

  lemma ExplicitShape(cur: seq<Slot>, i: int, ft: int, fft: int)
    requires 0 <= i && i + 1 < |cur| && cur[i].Inst? && cur[i + 1].Off? && InstAt(cur, ft)
    requires cur[ft].op in {ICommit, IPartialCommit, IBackCommit}
    ensures var new_ := cur[i := cur[ft]][i + 1 := Off(fft - i)];
            && OnlyAt(cur, new_, i) && Unconditional(cur[ft].op) && HasLabel(cur[ft].op)
            && new_[i] == cur[ft] && InstAt(new_, i) && Target(new_, i) == fft
  {
  }

  lemma JumpShape(orig: seq<Slot>, cur: seq<Slot>, i: int)
    requires Closed(orig) && Refines(orig, cur) && Frontier(orig, cur, i)
    requires 0 <= i < |orig| == |cur| && InstAt(cur, i) && cur[i].op == IJmp
    ensures i + 2 <= |orig| && IsJump(orig, i) && orig[i..] == cur[i..] && orig[i].Inst?
    ensures cur[i + 1].Off? && Boundary(orig, i + 2) && !orig[i + 1].Inst?
  {
    hide Closed, Refines, Frontier;
    AtFrontier(orig, cur, i);
    assert orig[i..][0] == cur[i..][0] && orig[i..][1] == cur[i..][1];
  }

  /** A jump to a commit becomes that commit, with the final destination as its label. */
  lemma ToExplicitJump(orig: seq<Slot>, cur: seq<Slot>, i: int, ft: int, fft: int)
    requires Closed(orig) && Refines(orig, cur) && Frontier(orig, cur, i) && Optimized(orig, cur, i)
    requires 0 <= i < |orig| == |cur| && InstAt(cur, i) && cur[i].op == IJmp
    requires Leads(orig, i, ft) && InstAt(orig, ft) && InstAt(cur, ft)
    requires cur[ft].op in {ICommit, IPartialCommit, IBackCommit}
    requires Leads(orig, Target(cur, ft), fft) && InstAt(cur, fft) && cur[fft].op != IJmp
    ensures var new_ := cur[i := cur[ft]][i + 1 := Off(fft - i)];
            i + 2 <= |orig| && Refines(orig, new_) && Frontier(orig, new_, i + 2) && Optimized(orig, new_, i + 2)
  {
    hide Closed, Leads, Refines, Became, Frontier, Optimized, OnlyAt, Unconditional, Boundary, IsJump, HasLabel;
    JumpShape(orig, cur, i);
    var new_ := cur[i := cur[ft]][i + 1 := Off(fft - i)];
    ExplicitShape(cur, i, ft, fft);
    ReplaceRefines(orig, cur, new_, i, ft);
    Advance(orig, cur, i, cur[ft], fft, 2);
  }

  /** A jump to a fail or to the end becomes that instruction, with a no-op behind it. */
  lemma ToImplicitJump(orig: seq<Slot>, cur: seq<Slot>, i: int, ft: int)
    requires Closed(orig) && Refines(orig, cur) && Frontier(orig, cur, i) && Optimized(orig, cur, i)
    requires 0 <= i < |orig| == |cur| && InstAt(cur, i) && cur[i].op == IJmp
    requires Leads(orig, i, ft) && InstAt(orig, ft) && InstAt(cur, ft)
    requires cur[ft].op in {IFail, IFailTwice, IEnd}
    ensures i + 1 < |cur|
    ensures var new_ := cur[i := cur[ft]][i + 1 := Inst(IAny, 0)];
            Refines(orig, new_) && Frontier(orig, new_, i + 1) && Optimized(orig, new_, i + 1)
  {
    hide Closed, Leads, Refines, Became, Frontier, Optimized;
    AtFrontier(orig, cur, i);
    var new_ := cur[i := cur[ft]][i + 1 := Inst(IAny, 0)];
    ReplaceRefines(orig, cur, new_, i, ft);
    NoOpFrontier(orig, cur, i, cur[ft]);
    NoOpOptimized(orig, cur, i, cur[ft]);
  }

  lemma NoOpFrontier(orig: seq<Slot>, cur: seq<Slot>, i: int, h: Slot)
    requires |cur| == |orig| && 0 <= i && i + 1 < |orig| && orig[i..] == cur[i..] && !orig[i + 1].Inst? && Boundary(orig, i + 2)
    ensures Frontier(orig, cur[i := h][i + 1 := Inst(IAny, 0)], i + 1)
  {
    var new_ := cur[i := h][i + 1 := Inst(IAny, 0)];
    assert orig[i..][2..] == orig[i + 2..] && cur[i..][2..] == cur[i + 2..];
    assert new_[i + 2..] == cur[i + 2..];
  }

  lemma NoOpOptimized(orig: seq<Slot>, cur: seq<Slot>, i: int, h: Slot)
    requires |cur| == |orig| && 0 <= i && i + 1 < |orig| && Optimized(orig, cur, i)
    requires h.Inst? && !HasLabel(h.op) && cur[i].Inst? && cur[i].op == IJmp && !cur[i + 1].Inst?
    ensures Optimized(orig, cur[i := h][i + 1 := Inst(IAny, 0)], i + 1)
  {
    var new_ := cur[i := h][i + 1 := Inst(IAny, 0)];
    forall q | 0 <= q < i + 1 && q < |orig| && orig[q].Inst? && InstAt(new_, q) && HasLabel(new_[q].op)
      ensures var t := Target(new_, q); 0 <= t < |new_| && new_[t].Inst? && new_[t].op != IJmp
    {
      assert q < i && InstAt(cur, q);
    }
  }

  /** Writing a label that is final, over the head h, completes instruction i. */
  lemma Advance(orig: seq<Slot>, cur: seq<Slot>, i: int, h: Slot, ft: int, n: nat)
    requires |cur| == |orig| && Optimized(orig, cur, i)
    requires 0 <= i && i + 1 < |orig| && cur[i].Inst? && orig[i].Inst? && orig[i..] == cur[i..]
    requires cur[i + 1].Off? && n >= 2 && i + n <= |orig| && Boundary(orig, i + n)
    requires forall k :: i < k < i + n ==> !orig[k].Inst?
    requires h.Inst? && (cur[i].op == IJmp || h.op == cur[i].op)
    requires 0 <= ft < |cur| && cur[ft].Inst? && cur[ft].op != IJmp
    ensures var new_ := cur[i := h][i + 1 := Off(ft - i)];
            Frontier(orig, new_, i + n) && Optimized(orig, new_, i + n)
  {
    hide SizeI;
    var new_ := cur[i := h][i + 1 := Off(ft - i)];
    assert new_[ft].Inst? && new_[ft].op != IJmp;
    assert Frontier(orig, new_, i + n) by {
      assert orig[i..][n..] == orig[i + n..] && cur[i..][n..] == cur[i + n..];
      assert new_[i + n..] == cur[i + n..];
    }
    hide Frontier;
    forall q | 0 <= q < i + n && q < |orig| && orig[q].Inst? && InstAt(new_, q) && HasLabel(new_[q].op)
      ensures var t := Target(new_, q); 0 <= t < |new_| && new_[t].Inst? && new_[t].op != IJmp
    {
      if q < i { assert q + 1 != i; assert InstAt(cur, q); }
    }
  }

  // ------------------------------------------------------------------ the compiler as a whole

  /** The rewritten code reaches the same outcome on every subject. */
  lemma PeepholeCorrect(orig: seq<Slot>, cur: seq<Slot>, s: seq<Byte>, i: nat, h: State)
    requires Closed(orig) && Refines(orig, cur) && Halted(h)
    requires Reach(orig, s, Initial(i), h)
    ensures Reach(cur, s, Initial(i), h)
  {
    hide Closed, Refines, Became;
    var n: nat :| Steps(orig, s, Initial(i), n) == h;
    LeadsSelf(orig);
    PeepSim(orig, cur, s, Initial(i), Initial(i), n, h);
  }
}
