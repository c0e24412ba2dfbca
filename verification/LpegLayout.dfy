/** Shape of generated code: instructions follow each other without gaps, every label is the
    start of an instruction, and a jump goes forward, or back to something that is not a jump
    or that jumps forward over it. */
module LpegLayout {
  import opened LpegTree
  import opened LpegVm
  import opened LpegGen

  /** t is the start of an instruction or the end of the fragment */
  predicate Boundary(f: seq<Slot>, t: int)
  {
    0 <= t <= |f| && (t < |f| ==> f[t].Inst?)
  }

  predicate JumpsForward(f: seq<Slot>, q: int)
    requires InstAt(f, q) && f[q].op == IJmp
  {
    var t := Target(f, q);
    || q < t
    || (InstAt(f, t) && (f[t].op == IJmp ==> q < Target(f, t)))
  }

  predicate Ok(f: seq<Slot>, q: int)
    requires 0 <= q < |f| && f[q].Inst?
  {
    && InstAt(f, q)
    && Boundary(f, q + SizeI(f[q].op))
    && (forall k :: q < k < q + SizeI(f[q].op) ==> !f[k].Inst?)
    && (HasLabel(f[q].op) ==> Boundary(f, Target(f, q)))
    && (f[q].op == IJmp ==> JumpsForward(f, q))
  }

  predicate Laid(f: seq<Slot>)
  {
    Boundary(f, 0) && forall q :: 0 <= q < |f| && f[q].Inst? ==> Ok(f, q)
  }

  /** A laid fragment stays so with other code around it. */
  lemma OkInside(u: seq<Slot>, x: seq<Slot>, v: seq<Slot>, q: int)
    requires 0 <= q < |x| && x[q].Inst? && Laid(x) && Boundary(v, 0)
    ensures Ok(u + x + v, |u| + q)
  {
    hide Ok;
    assert Ok(x, q);
    OkMoved(u, x, v, q);
  }

  lemma OkMoved(u: seq<Slot>, x: seq<Slot>, v: seq<Slot>, q: int)
    requires 0 <= q < |x| && x[q].Inst? && Ok(x, q) && Boundary(v, 0)
    ensures Ok(u + x + v, |u| + q)
  {
    var f := u + x + v;
    assert forall k :: 0 <= k < |x| ==> f[|u| + k] == x[k];
    assert v != [] ==> f[|u| + |x|] == v[0];
    assert InstAt(f, |u| + q);
    assert forall k :: |u| + q < k < |u| + q + SizeI(x[q].op) ==> f[k] == x[k - |u|];
    if x[q].op == IJmp {
      var t := Target(x, q);
      if t <= q { assert InstAt(x, t) && InstAt(f, |u| + t); }
    }
  }

  lemma LaidConcat(x: seq<Slot>, y: seq<Slot>)
    requires Laid(x) && Laid(y)
    ensures Laid(x + y) && Boundary(x + y, |x|)
  {
    hide Ok;
    var f := x + y;
    assert [] + x + y == f && x + y + [] == f;
    forall q | 0 <= q < |f| && f[q].Inst?
      ensures Ok(f, q)
    {
      if q < |x| { OkInside([], x, y, q); } else { OkInside(x, y, [], q - |x|); }
    }
  }

  /** A complete instruction: one head, then operand slots only. */
  predicate OneInst(i: seq<Slot>)
  {
    && |i| > 0 && InstAt(i, 0) && |i| == SizeI(i[0].op)
    && forall k :: 0 < k < |i| ==> !i[k].Inst?
  }

  /** An instruction in front of laid code, its label on a boundary of that code. */
  lemma LaidPrefix(i: seq<Slot>, y: seq<Slot>)
    requires OneInst(i) && Laid(y)
    requires HasLabel(i[0].op) ==> |i| <= Target(i, 0) && Boundary(y, Target(i, 0) - |i|)
    ensures Laid(i + y)
  {
    hide Ok;
    var f := i + y;
    assert i + y + [] == f;
    forall q | 0 <= q < |f| && f[q].Inst?
      ensures Ok(f, q)
    {
      if q >= |i| { OkInside(i, y, [], q - |i|); } else { OkFirst(i, y); }
    }
  }

  lemma OkFirst(i: seq<Slot>, y: seq<Slot>)
    requires OneInst(i) && Boundary(y, 0)
    requires HasLabel(i[0].op) ==> |i| <= Target(i, 0) && Boundary(y, Target(i, 0) - |i|)
    ensures Ok(i + y, 0)
  {
    var f := i + y;
    assert forall k :: 0 <= k < |i| ==> f[k] == i[k];
    assert InstAt(f, 0);
    if HasLabel(i[0].op) && Target(i, 0) < |f| { assert f[Target(i, 0)] == y[Target(i, 0) - |i|]; }
    if y != [] { assert f[|i|] == y[0]; }
  }

  /** The two-slot case. */
  lemma LaidPrefix2(op: Opcode, offset: int, y: seq<Slot>)
    requires HasLabel(op) && op != ITestSet && Laid(y) && 2 <= offset && Boundary(y, offset - 2)
    ensures Laid(Inst2(op, 0, offset) + y)
  {
    hide Laid, Boundary;
    LaidPrefix(Inst2(op, 0, offset), y);
  }

  /** An instruction behind laid code that goes back to its start; not a jump. */
  lemma LaidSuffix(x: seq<Slot>, i: seq<Slot>)
    requires OneInst(i) && Laid(x) && i[0].op != IJmp
    requires HasLabel(i[0].op) ==> Target(i, 0) == -|x|
    ensures Laid(x + i)
  {
    hide Ok;
    var f := x + i;
    assert [] + x + i == f;
    forall q | 0 <= q < |f| && f[q].Inst?
      ensures Ok(f, q)
    {
      if q < |x| { OkInside([], x, i, q); } else { OkLast(x, i); }
    }
  }

  lemma OkLast(x: seq<Slot>, i: seq<Slot>)
    requires OneInst(i) && Boundary(x, 0) && i[0].op != IJmp
    requires HasLabel(i[0].op) ==> Target(i, 0) == -|x|
    ensures Ok(x + i, |x|)
  {
    var f := x + i;
    assert forall k :: 0 <= k < |i| ==> f[|x| + k] == i[k];
    assert InstAt(f, |x|);
    if x != [] { assert f[0] == x[0]; }
  }

  /** A test to the end, a body, and a jump back to the test. */
  lemma LaidLoop(i: seq<Slot>, x: seq<Slot>)
    requires OneInst(i) && Laid(x) && HasLabel(i[0].op) && Target(i, 0) == |i| + |x| + 2
    ensures Laid(i + x + Inst2(IJmp, 0, -(|i| + |x|)))
  {
    hide Ok, Laid;
    var j := Inst2(IJmp, 0, -(|i| + |x|));
    var f := i + x + j;
    LoopShape(i, x);
    LaidBegins(x);
    forall q | 0 <= q < |f| && f[q].Inst?
      ensures Ok(f, q)
    {
      if q == 0 { OkTest(i, x); } else if q == |i| + |x| { OkBack(i, x); } else { OkInside(i, x, j, q - |i|); }
    }
    LaidIs(f);
  }

  lemma LaidBegins(f: seq<Slot>)
    requires Laid(f)
    ensures Boundary(f, 0)
  {
  }

  lemma LaidIs(f: seq<Slot>)
    requires Boundary(f, 0) && forall q :: 0 <= q < |f| && f[q].Inst? ==> Ok(f, q)
    ensures Laid(f)
  {
  }

  /** where the instructions of the loop are */
  lemma LoopShape(i: seq<Slot>, x: seq<Slot>)
    requires OneInst(i)
    ensures var j := Inst2(IJmp, 0, -(|i| + |x|));
            var f := i + x + j;
            && Boundary(f, 0) && Boundary(j, 0)
            && (forall k :: 0 <= k < |i| ==> f[k] == i[k])
            && f[|i| + |x|] == j[0] && f[|i| + |x| + 1] == j[1] && |f| == |i| + |x| + 2
            && (forall k :: |i| <= k < |i| + |x| ==> f[k] == x[k - |i|])
            && forall q :: 0 < q < |f| && f[q].Inst? && q != |i| + |x| ==> |i| <= q < |i| + |x|
  {
  }

  lemma OkTest(i: seq<Slot>, x: seq<Slot>)
    requires OneInst(i) && Boundary(x, 0) && HasLabel(i[0].op) && Target(i, 0) == |i| + |x| + 2
    ensures Ok(i + x + Inst2(IJmp, 0, -(|i| + |x|)), 0)
  {
    LoopShape(i, x);
    var f := i + x + Inst2(IJmp, 0, -(|i| + |x|));
    if x != [] { assert f[|i|] == x[0]; }
  }

  lemma OkBack(i: seq<Slot>, x: seq<Slot>)
    requires OneInst(i) && HasLabel(i[0].op) && Target(i, 0) == |i| + |x| + 2
    ensures Ok(i + x + Inst2(IJmp, 0, -(|i| + |x|)), |i| + |x|)
  {
    LoopShape(i, x);
    var f := i + x + Inst2(IJmp, 0, -(|i| + |x|));
    assert Target(f, |i| + |x|) == 0 && InstAt(f, 0) && Target(f, 0) == |f|;
  }

  lemma {:induction false} GenLaid(t: Tree, opt: bool, tt: Test, fl: Charset)
    requires WellFormed(t)
    ensures Laid(Gen(t, opt, tt, fl))
    decreases t, 1
  {
    hide Laid, GetFirst, CheckAux, FixedLen;
    LaidEmpty();
    match t
    case TChar(c) => LaidLeaf(GenChar(c, tt));
    case TSet(cs) => LaidLeaf(GenCharset(cs, tt));
    case TAny => LaidLeaf(Inst1(IAny, 0));
    case TTrue =>
    case TFalse => LaidLeaf(Inst1(IFail, 0));
    case TChoice(p1, p2) => LaidChoice(p1, p2, opt, fl);
    case TRep(p) => LaidRep(p, opt, fl);
    case TBehind(p, n) =>
      GenLaid(p, false, NoTest, FULL_SET);
      if n > 0 { LaidPrefix(Inst1(IBehind, n), Gen(p, false, NoTest, FULL_SET)); }
      else { assert [] + Gen(p, false, NoTest, FULL_SET) == Gen(p, false, NoTest, FULL_SET); }
    case TNot(p) => LaidNot(p);
    case TAnd(p) => LaidAnd(p, tt);
    case TSeq(p1, p2) =>
      var tt2 := if FixedLen(p1) != 0 then NoTest else tt;
      GenLaid(p1, false, tt, SeqFollow(p1, p2, fl));
      GenLaid(p2, opt, tt2, fl);
      LaidConcat(Gen(p1, false, tt, SeqFollow(p1, p2, fl)), Gen(p2, opt, tt2, fl));
  }

  lemma LaidEmpty()
    ensures Laid([])
  {
  }

  lemma LaidLeaf(i: seq<Slot>)
    requires OneInst(i) && !HasLabel(i[0].op)
    ensures Laid(i)
  {
    LaidEmpty();
    LaidPrefix(i, []);
    assert i + [] == i;
  }

  lemma TestIsInst(cs: Charset, offset: int)
    ensures var i := GenTest(cs, false, offset); OneInst(i) && HasLabel(i[0].op) && Target(i, 0) == offset
  {
  }

  /** An optional test in front of laid code. */
  lemma LaidTest(cs: Charset, accepts: bool, offset: int, y: seq<Slot>)
    requires Laid(y) && TestLen(cs, accepts) <= offset && Boundary(y, offset - TestLen(cs, accepts))
    ensures Laid(GenTest(cs, accepts, offset) + y)
  {
    if accepts {
      assert GenTest(cs, accepts, offset) + y == y;
    } else {
      TestIsInst(cs, offset);
      LaidPrefix(GenTest(cs, accepts, offset), y);
    }
  }

  lemma LaidChoice(p1: Tree, p2: Tree, opt: bool, fl: Charset)
    requires WellFormed(p1) && WellFormed(p2)
    ensures Laid(GenChoice(p1, p2, opt, fl))
    decreases TChoice(p1, p2), 0
  {
    hide Laid, GetFirst, CheckAux, FixedLen, Gen, TestLen, TestOf, GenTest, ChoiceByTest, Inst2, Boundary, ChoiceTestCode, ChoiceCode;
    var f1 := GetFirst(p1, FULL_SET);
    GenLaid(p2, opt, NoTest, fl);
    if ChoiceByTest(p1, p2, fl) {
      GenLaid(p1, false, TestOf(f1.set_, false), fl);
      LaidChoiceTest(f1.set_, Gen(p1, false, TestOf(f1.set_, false), fl), Gen(p2, opt, NoTest, fl), p2.TTrue?);
    } else if opt && p2.TTrue? {
      GenLaid(p1, true, NoTest, FULL_SET);
      LaidStart(Gen(p1, true, NoTest, FULL_SET));
      LaidPrefix2(IPartialCommit, 2, Gen(p1, true, NoTest, FULL_SET));
    } else {
      GenLaid(p1, p2.TTrue?, TestOf(f1.set_, f1.accepts), FULL_SET);
      LaidChoiceDefault(f1, Gen(p1, p2.TTrue?, TestOf(f1.set_, f1.accepts), FULL_SET), Gen(p2, opt, NoTest, fl));
    }
  }

  lemma LaidChoiceTest(cs: Charset, c1: seq<Slot>, c2: seq<Slot>, emptyp2: bool)
    requires Laid(c1) && Laid(c2)
    ensures Laid(ChoiceTestCode(cs, c1, c2, emptyp2))
  {
    hide Laid, TestLen, GenTest, Inst2;
    LaidStart(c2);
    var jmp := if emptyp2 then [] else Inst2(IJmp, 0, 2 + |c2|);
    if emptyp2 { assert [] + c2 == c2; } else { LaidPrefix2(IJmp, 2 + |c2|, c2); }
    LaidConcat(c1, jmp + c2);
    BoundaryDeep(c1 + jmp, c2);
    var y := c1 + (jmp + c2);
    assert y == (c1 + jmp) + c2;
    LaidTest(cs, false, TestLen(cs, false) + |c1| + |jmp|, y);
    var t := GenTest(cs, false, TestLen(cs, false) + |c1| + |jmp|);
    assert t + y == t + c1 + jmp + c2;
  }

  lemma BoundaryDeep(x: seq<Slot>, y: seq<Slot>)
    requires Boundary(y, 0)
    ensures Boundary(x + y, |x|)
  {
  }

  lemma LaidChoiceDefault(f: First, c1: seq<Slot>, c2: seq<Slot>)
    requires Laid(c1) && Laid(c2)
    ensures Laid(ChoiceCode(f, c1, c2))
  {
    hide Laid, TestLen, GenTest, Inst2;
    LaidStart(c2);
    var commit := Inst2(ICommit, 0, 2 + |c2|);
    LaidPrefix2(ICommit, 2 + |c2|, c2);
    LaidConcat(c1, commit + c2);
    var y := c1 + (commit + c2);
    assert y == (c1 + commit) + c2;
    BoundaryDeep(c1 + commit, c2);
    var choice := Inst2(IChoice, 0, 2 + |c1| + 2);
    LaidPrefix2(IChoice, 2 + |c1| + 2, y);
    assert choice + y == (choice + c1 + commit) + c2;
    BoundaryDeep(choice + c1 + commit, c2);
    var n := TestLen(f.set_, f.accepts) + 2 + |c1| + 2;
    LaidTest(f.set_, f.accepts, n, choice + y);
    var t := GenTest(f.set_, f.accepts, n);
    assert t + (choice + y) == t + choice + c1 + commit + c2;
  }

  lemma LaidStart(x: seq<Slot>)
    requires Laid(x)
    ensures Boundary(x, 0)
  {
  }

  lemma LaidRep(p: Tree, opt: bool, fl: Charset)
    requires WellFormed(p)
    ensures Laid(GenRep(p, opt, fl))
    decreases TRep(p), 0
  {
    hide Laid, GetFirst, CheckAux, FixedLen, Gen, TestLen, GenTest, RepByTest;
    var f := GetFirst(p, FULL_SET);
    if ToCharset(p).Some? {
      LaidLeaf(SetInst(ISpan, ToCharset(p).value));
    } else if RepByTest(p, fl) {
      var c := Gen(p, false, TestOf(f.set_, false), FULL_SET);
      GenLaid(p, false, TestOf(f.set_, false), FULL_SET);
      var n := TestLen(f.set_, false) + |c|;
      TestIsInst(f.set_, n + 2);
      LaidLoop(GenTest(f.set_, false, n + 2), c);
    } else {
      GenLaid(p, false, NoTest, FULL_SET);
      LaidRepChoice(f, Gen(p, false, NoTest, FULL_SET), opt);
    }
  }

  lemma LaidRepChoice(f: First, c: seq<Slot>, opt: bool)
    requires Laid(c)
    ensures Laid(GenTest(f.set_, f.accepts, TestLen(f.set_, f.accepts) + 2 + |c| + 2)
                 + (if opt then Inst2(IPartialCommit, 0, 2) else Inst2(IChoice, 0, 2 + |c| + 2))
                 + c + Inst2(IPartialCommit, 0, -|c|))
  {
    hide Laid, TestLen, GenTest;
    var loop := Inst2(IPartialCommit, 0, -|c|);
    LaidSuffix(c, loop);
    var y := c + loop;
    LaidStart(y);
    var enter := if opt then Inst2(IPartialCommit, 0, 2) else Inst2(IChoice, 0, 2 + |c| + 2);
    LaidPrefix2(if opt then IPartialCommit else IChoice, if opt then 2 else 2 + |c| + 2, y);
    hide Inst2;
    var n := TestLen(f.set_, f.accepts) + 2 + |c| + 2;
    LaidTest(f.set_, f.accepts, n, enter + y);
    var t := GenTest(f.set_, f.accepts, n);
    assert t + (enter + y) == t + enter + c + loop;
  }

  lemma LaidNot(p: Tree)
    requires WellFormed(p)
    ensures Laid(GenNot(p))
    decreases TNot(p), 0
  {
    hide Laid, GetFirst, CheckAux, FixedLen, Gen, TestLen, GenTest, HeadFail;
    var f := GetFirst(p, FULL_SET);
    if HeadFail(p) {
      LaidLeaf(Inst1(IFail, 0));
      LaidTest(f.set_, f.accepts, TestLen(f.set_, f.accepts) + 1, Inst1(IFail, 0));
    } else {
      var c := Gen(p, false, NoTest, FULL_SET);
      GenLaid(p, false, NoTest, FULL_SET);
      LaidLeaf(Inst1(IFailTwice, 0));
      var y := c + Inst1(IFailTwice, 0);
      LaidConcat(c, Inst1(IFailTwice, 0));
      var choice := Inst2(IChoice, 0, 2 + |c| + 1);
      LaidPrefix(choice, y);
      var n := TestLen(f.set_, f.accepts) + 2 + |c| + 1;
      LaidTest(f.set_, f.accepts, n, choice + y);
      var t := GenTest(f.set_, f.accepts, n);
      assert t + (choice + y) == t + choice + c + Inst1(IFailTwice, 0);
    }
  }

  lemma LaidAnd(p: Tree, tt: Test)
    requires WellFormed(p)
    ensures Laid(GenAnd(p, tt))
    decreases TAnd(p), 0
  {
    hide Laid, GetFirst, CheckAux, FixedLen, Gen;
    var n := FixedLen(p);
    var c := Gen(p, false, tt, FULL_SET);
    GenLaid(p, false, tt, FULL_SET);
    if 0 <= n <= MAXBEHIND {
      LaidEmpty();
      if n > 0 { LaidLeaf(Inst1(IBehind, n)); }
      LaidConcat(c, if n > 0 then Inst1(IBehind, n) else []);
    } else {
      LaidAndDefault(c);
    }
  }

  lemma LaidAndDefault(c: seq<Slot>)
    requires Laid(c)
    ensures Laid(Inst2(IChoice, 0, 2 + |c| + 2) + c + Inst2(IBackCommit, 0, 3) + Inst1(IFail, 0))
  {
    hide Laid;
    var commit, fail := Inst2(IBackCommit, 0, 3), Inst1(IFail, 0);
    LaidLeaf(fail);
    LaidStart(fail);
    LaidPrefix2(IBackCommit, 3, fail);
    LaidConcat(c, commit + fail);
    var y := c + (commit + fail);
    assert y == (c + commit) + fail;
    BoundaryDeep(c + commit, fail);
    var choice := Inst2(IChoice, 0, 2 + |c| + 2);
    LaidPrefix2(IChoice, 2 + |c| + 2, y);
    assert choice + y == choice + c + commit + fail;
  }

  /** A whole program: laid out, ending in IEnd, so that every label is an instruction. */
  predicate Closed(code: seq<Slot>)
  {
    && Laid(code) && |code| > 0 && code[|code| - 1] == Inst(IEnd, 0)
    && forall q :: 0 <= q < |code| && code[q].Inst? && HasLabel(code[q].op) ==> Target(code, q) < |code|
  }

  lemma ProgramClosed(t: Tree)
    requires WellFormed(t)
    ensures Closed(Program(t))
  {
    var c := Gen(t, false, NoTest, FULL_SET);
    GenLaid(t, false, NoTest, FULL_SET);
    LaidLeaf(Inst1(IEnd, 0));
    LaidConcat(c, Inst1(IEnd, 0));
    forall q | 0 <= q < |Program(t)| && Program(t)[q].Inst? && HasLabel(Program(t)[q].op)
      ensures Target(Program(t), q) < |Program(t)|
    {
      assert q < |c| && Ok(c, q);
    }
  }
}
