/** Generated code simulates the PEG semantics. */
module LpegSim {
  // Every optimisation is on. The statement is relative to what the generator assumed: the
  // follow set, the dominating test and, for code that ends an optional pattern, the choice
  // that pattern left on the stack.

  import opened LpegTree
  import opened LpegVm
  import opened LpegGen

  /** The fragment sits at address a of the code. */
  ghost predicate At(code: seq<Slot>, a: int, frag: seq<Slot>)
  {
    0 <= a && a + |frag| <= |code| && code[a..a + |frag|] == frag
  }

  lemma AtSplit(code: seq<Slot>, a: int, x: seq<Slot>, y: seq<Slot>)
    requires At(code, a, x + y)
    ensures At(code, a, x) && At(code, a + |x|, y) && a >= 0
  {
    assert code[a..a + |x|] == code[a..a + |x + y|][..|x|];
    assert code[a + |x|..a + |x| + |y|] == code[a..a + |x + y|][|x|..];
  }

  lemma AtSplit3(code: seq<Slot>, a: int, x: seq<Slot>, y: seq<Slot>, z: seq<Slot>)
    requires At(code, a, x + y + z)
    ensures At(code, a, x) && At(code, a + |x|, y) && At(code, a + |x| + |y|, z) && a >= 0
  {
    hide At;
    AtSplit(code, a, x + y, z);
    AtSplit(code, a, x, y);
  }

  lemma AtSplit4(code: seq<Slot>, a: int, x: seq<Slot>, y: seq<Slot>, z: seq<Slot>, u: seq<Slot>)
    requires At(code, a, x + y + z + u)
    ensures At(code, a, x) && At(code, a + |x|, y) && At(code, a + |x| + |y|, z)
    ensures At(code, a + |x| + |y| + |z|, u) && a >= 0
  {
    hide At;
    AtSplit(code, a, x + y + z, u);
    AtSplit3(code, a, x, y, z);
  }

  lemma AtInst(code: seq<Slot>, a: int, frag: seq<Slot>)
    requires At(code, a, frag) && InstAt(frag, 0)
    ensures InstAt(code, a) && code[a] == frag[0]
    ensures HasLabel(frag[0].op) ==> code[a + 1] == frag[1]
    ensures frag[0].op in {ISet, ISpan} ==> code[a + 1] == frag[1]
    ensures frag[0].op == ITestSet ==> code[a + 2] == frag[2]
  {
    var part := code[a..a + |frag|];
    assert part[0] == code[a];
    assert |frag| > 1 ==> part[1] == code[a + 1];
    assert |frag| > 2 ==> part[2] == code[a + 2];
  }

  predicate Holds(tt: Test, s: seq<Byte>, i: nat)
  {
    match tt
    case NoTest => true
    case TestChar(c) => i < |s| && s[i] == c
    case TestSet(cs) => i < |s| && s[i] in cs
  }

  /** Where a successful match leaves the machine: behind the fragment or, inside an optional
      pattern, past that pattern's commit with its choice removed. */
  function Exit(b: int, j: nat, stk: seq<Entry>, opt: bool): State
    requires opt ==> stk != []
  {
    if opt then Run(stk[|stk| - 1].p, j, stk[..|stk| - 1]) else Run(b, j, stk)
  }

  /** In an optional pattern the fragment is followed by a commit to the very address at
      which the choice on top of the stack would resume. */
  ghost predicate Context(code: seq<Slot>, b: int, stk: seq<Entry>, opt: bool, fl: Charset)
  {
    opt ==> fl == FULL_SET && stk != [] && At(code, b, Inst2(ICommit, 0, stk[|stk| - 1].p - b))
  }

  /** From address a the machine does what the pattern t means at position i: on failure it
      backtracks with the stack it was given; on success at j it exits at j, or it backtracks
      at once, which is allowed only when the character at j rules out what follows. */
  ghost predicate Behaves(code: seq<Slot>, s: seq<Byte>, a: int, i: nat, stk: seq<Entry>,
                          b: int, t: Tree, opt: bool, fl: Charset)
    requires WellFormed(t) && i <= |s| && (opt ==> stk != [])
  {
    match Match(t, s, i)
    case None => Reach(code, s, Run(a, i, stk), Fail(stk))
    case Some(j) =>
      || Reach(code, s, Run(a, i, stk), Exit(b, j, stk, opt))
      || (j < |s| && s[j] !in fl && Reach(code, s, Run(a, i, stk), Fail(stk)))
  }

  lemma ToExit(code: seq<Slot>, s: seq<Byte>, x: State, b: int, j: nat, stk: seq<Entry>, opt: bool, fl: Charset)
    requires Context(code, b, stk, opt, fl) && j <= |s| && b >= 0
    requires Reach(code, s, x, Run(b, j, stk))
    ensures Reach(code, s, x, Exit(b, j, stk, opt))
  {
    if opt {
      AtInst(code, b, Inst2(ICommit, 0, stk[|stk| - 1].p - b));
      Reach1(code, s, Run(b, j, stk));
      ReachTrans(code, s, x, Run(b, j, stk), Exit(b, j, stk, opt));
    }
  }

  /** Extend a run by one instruction. */
  lemma Extend(code: seq<Slot>, s: seq<Byte>, x: State, y: State, z: State)
    requires Reach(code, s, x, y) && Step(code, s, y) == z
    ensures Reach(code, s, x, z)
  {
    Reach1(code, s, y);
    ReachTrans(code, s, x, y, z);
  }

  lemma DoJump(code: seq<Slot>, s: seq<Byte>, x: State, a: int, i: nat, stk: seq<Entry>, offset: int)
    requires At(code, a, Inst2(IJmp, 0, offset)) && i <= |s|
    requires Reach(code, s, x, Run(a, i, stk))
    ensures Reach(code, s, x, Run(a + offset, i, stk))
  {
    hide Reach, At;
    AtInst(code, a, Inst2(IJmp, 0, offset));
    Extend(code, s, x, Run(a, i, stk), Run(a + offset, i, stk));
  }

  lemma DoFail(code: seq<Slot>, s: seq<Byte>, x: State, a: int, i: nat, stk: seq<Entry>)
    requires At(code, a, Inst1(IFail, 0)) && i <= |s|
    requires Reach(code, s, x, Run(a, i, stk))
    ensures Reach(code, s, x, Fail(stk))
  {
    hide Reach, At;
    AtInst(code, a, Inst1(IFail, 0));
    Extend(code, s, x, Run(a, i, stk), Fail(stk));
  }

  lemma DoBehind(code: seq<Slot>, s: seq<Byte>, x: State, a: int, i: nat, stk: seq<Entry>, n: nat)
    requires At(code, a, Inst1(IBehind, n)) && i <= |s|
    requires Reach(code, s, x, Run(a, i, stk))
    ensures Reach(code, s, x, if n > i then Fail(stk) else Run(a + 1, i - n, stk))
  {
    hide Reach, At;
    AtInst(code, a, Inst1(IBehind, n));
    Extend(code, s, x, Run(a, i, stk), if n > i then Fail(stk) else Run(a + 1, i - n, stk));
  }

  lemma DoChoice(code: seq<Slot>, s: seq<Byte>, x: State, a: int, i: nat, stk: seq<Entry>, offset: int)
    requires At(code, a, Inst2(IChoice, 0, offset)) && i <= |s|
    requires Reach(code, s, x, Run(a, i, stk))
    ensures Reach(code, s, x, Run(a + 2, i, stk + [Entry(a + offset, i)]))
  {
    hide Reach, At;
    AtInst(code, a, Inst2(IChoice, 0, offset));
    Extend(code, s, x, Run(a, i, stk), Run(a + 2, i, stk + [Entry(a + offset, i)]));
  }

  lemma DoCommit(code: seq<Slot>, s: seq<Byte>, x: State, a: int, i: nat, stk: seq<Entry>, offset: int, e: Entry)
    requires At(code, a, Inst2(ICommit, 0, offset)) && i <= |s|
    requires Reach(code, s, x, Run(a, i, stk + [e]))
    ensures Reach(code, s, x, Run(a + offset, i, stk))
  {
    hide Reach, At;
    AtInst(code, a, Inst2(ICommit, 0, offset));
    assert (stk + [e])[..|stk|] == stk;
    Extend(code, s, x, Run(a, i, stk + [e]), Run(a + offset, i, stk));
  }

  lemma DoBackCommit(code: seq<Slot>, s: seq<Byte>, x: State, a: int, i: nat, stk: seq<Entry>, offset: int, e: Entry)
    requires At(code, a, Inst2(IBackCommit, 0, offset)) && i <= |s|
    requires Reach(code, s, x, Run(a, i, stk + [e]))
    ensures Reach(code, s, x, Run(a + offset, e.i, stk))
  {
    hide Reach, At;
    AtInst(code, a, Inst2(IBackCommit, 0, offset));
    assert (stk + [e])[..|stk|] == stk;
    Extend(code, s, x, Run(a, i, stk + [e]), Run(a + offset, e.i, stk));
  }

  lemma DoPartialCommit(code: seq<Slot>, s: seq<Byte>, x: State, a: int, i: nat, stk: seq<Entry>, offset: int, e: Entry)
    requires At(code, a, Inst2(IPartialCommit, 0, offset)) && i <= |s|
    requires Reach(code, s, x, Run(a, i, stk + [e]))
    ensures Reach(code, s, x, Run(a + offset, i, stk + [Entry(e.p, i)]))
  {
    hide Reach, At;
    AtInst(code, a, Inst2(IPartialCommit, 0, offset));
    assert (stk + [e])[..|stk|] == stk;
    Extend(code, s, x, Run(a, i, stk + [e]), Run(a + offset, i, stk + [Entry(e.p, i)]));
  }

  lemma DoFailTwice(code: seq<Slot>, s: seq<Byte>, x: State, a: int, i: nat, stk: seq<Entry>, e: Entry)
    requires At(code, a, Inst1(IFailTwice, 0)) && i <= |s|
    requires Reach(code, s, x, Run(a, i, stk + [e]))
    ensures Reach(code, s, x, Fail(stk))
  {
    hide Reach, At;
    AtInst(code, a, Inst1(IFailTwice, 0));
    assert (stk + [e])[..|stk|] == stk;
    Extend(code, s, x, Run(a, i, stk + [e]), Fail(stk));
  }

  /** A test lets the subject through exactly when the next character is in the set; without
      a test (the pattern may match the empty string) it always does. */
  lemma SimTest(code: seq<Slot>, s: seq<Byte>, a: int, i: nat, stk: seq<Entry>, cs: Charset, accepts: bool, offset: int)
    requires At(code, a, GenTest(cs, accepts, offset)) && i <= |s|
    ensures (accepts || (i < |s| && s[i] in cs)) ==>
              && Reach(code, s, Run(a, i, stk), Run(a + TestLen(cs, accepts), i, stk))
              && Holds(TestOf(cs, accepts), s, i)
    ensures (!accepts && !(i < |s| && s[i] in cs)) ==>
              Reach(code, s, Run(a, i, stk), Run(a + offset, i, stk))
  {
    if accepts {
      ReachRefl(code, s, Run(a, i, stk));
    } else {
      TestStep(code, s, a, i, stk, cs, offset);
      Reach1(code, s, Run(a, i, stk));
    }
  }

  lemma TestStep(code: seq<Slot>, s: seq<Byte>, a: int, i: nat, stk: seq<Entry>, cs: Charset, offset: int)
    requires At(code, a, GenTest(cs, false, offset)) && i <= |s|
    ensures Step(code, s, Run(a, i, stk)) ==
            if i < |s| && s[i] in cs then Run(a + TestLen(cs, false), i, stk) else Run(a + offset, i, stk)
    ensures i < |s| && s[i] in cs ==> Holds(TestOf(cs, false), s, i)
  {
    AtInst(code, a, GenTest(cs, false, offset));
  }

  lemma SimCharset(code: seq<Slot>, s: seq<Byte>, a: int, i: nat, stk: seq<Entry>, cs: Charset, tt: Test)
    requires At(code, a, GenCharset(cs, tt)) && i <= |s| && Holds(tt, s, i)
    ensures Reach(code, s, Run(a, i, stk),
                  if i < |s| && s[i] in cs then Run(a + |GenCharset(cs, tt)|, i + 1, stk) else Fail(stk))
  {
    hide Reach, At;
    AtInst(code, a, GenCharset(cs, tt));
    Reach1(code, s, Run(a, i, stk));
  }

  lemma SimChar(code: seq<Slot>, s: seq<Byte>, a: int, i: nat, stk: seq<Entry>, c: Byte, tt: Test)
    requires At(code, a, GenChar(c, tt)) && i <= |s| && Holds(tt, s, i)
    ensures Reach(code, s, Run(a, i, stk),
                  if i < |s| && s[i] == c then Run(a + 1, i + 1, stk) else Fail(stk))
  {
    hide Reach, At;
    AtInst(code, a, GenChar(c, tt));
    Reach1(code, s, Run(a, i, stk));
  }

  lemma SimAny(code: seq<Slot>, s: seq<Byte>, a: int, i: nat, stk: seq<Entry>)
    requires At(code, a, Inst1(IAny, 0)) && i <= |s|
    ensures Reach(code, s, Run(a, i, stk), if i < |s| then Run(a + 1, i + 1, stk) else Fail(stk))
  {
    hide Reach, At;
    AtInst(code, a, Inst1(IAny, 0));
    Reach1(code, s, Run(a, i, stk));
  }

  lemma SimSpan(code: seq<Slot>, s: seq<Byte>, a: int, i: nat, stk: seq<Entry>, cs: Charset)
    requires At(code, a, SetInst(ISpan, cs)) && i <= |s|
    ensures Reach(code, s, Run(a, i, stk), Run(a + |SetInst(ISpan, cs)|, SpanEnd(cs, s, i), stk))
  {
    hide Reach, At;
    AtInst(code, a, SetInst(ISpan, cs));
    Reach1(code, s, Run(a, i, stk));
  }

  /** The patterns without parts. */
  lemma SimLeaf(code: seq<Slot>, s: seq<Byte>, a: int, i: nat, stk: seq<Entry>, t: Tree, opt: bool, tt: Test, fl: Charset)
    requires (t.TChar? || t.TSet? || t.TAny? || t.TTrue? || t.TFalse?) && i <= |s|
    requires At(code, a, Gen(t, opt, tt, fl))
    requires Context(code, a + |Gen(t, opt, tt, fl)|, stk, opt, fl)
    requires Holds(tt, s, i)
    ensures Behaves(code, s, a, i, stk, a + |Gen(t, opt, tt, fl)|, t, opt, fl)
  {
    hide Reach, Step, At, Context, GetFirst, GenChoice, GenRep, GenNot, GenAnd, GenCharset, CheckAux;
    var x := Run(a, i, stk);
    assert a >= 0 by { AtBound(code, a, Gen(t, opt, tt, fl)); }
    match t
    case TChar(c) =>
      SimChar(code, s, a, i, stk, c, tt);
      if i < |s| && s[i] == c { ToExit(code, s, x, a + 1, i + 1, stk, opt, fl); }
    case TSet(cs) =>
      SimCharset(code, s, a, i, stk, cs, tt);
      if i < |s| && s[i] in cs { ToExit(code, s, x, a + |GenCharset(cs, tt)|, i + 1, stk, opt, fl); }
    case TAny =>
      SimAny(code, s, a, i, stk);
      if i < |s| { ToExit(code, s, x, a + 1, i + 1, stk, opt, fl); }
    case TTrue =>
      ReachRefl(code, s, x);
      ToExit(code, s, x, a, i, stk, opt, fl);
    case TFalse =>
      ReachRefl(code, s, x);
      DoFail(code, s, x, a, i, stk);
  }

  /** The simulation theorem for every pattern and every context. */
  lemma {:induction false} Sim(code: seq<Slot>, s: seq<Byte>, a: int, i: nat, stk: seq<Entry>,
                               t: Tree, opt: bool, tt: Test, fl: Charset)
    requires WellFormed(t) && i <= |s|
    requires At(code, a, Gen(t, opt, tt, fl))
    requires Context(code, a + |Gen(t, opt, tt, fl)|, stk, opt, fl)
    requires Holds(tt, s, i)
    ensures Behaves(code, s, a, i, stk, a + |Gen(t, opt, tt, fl)|, t, opt, fl)
    decreases t, |s| - i, 3
  {
    hide Reach, Step, At, Context, GetFirst, GenChoice, GenRep, GenNot, GenAnd, GenCharset, CheckAux, Match;
    match t
    case TChar(_) => SimLeaf(code, s, a, i, stk, t, opt, tt, fl);
    case TSet(_) => SimLeaf(code, s, a, i, stk, t, opt, tt, fl);
    case TAny => SimLeaf(code, s, a, i, stk, t, opt, tt, fl);
    case TTrue => SimLeaf(code, s, a, i, stk, t, opt, tt, fl);
    case TFalse => SimLeaf(code, s, a, i, stk, t, opt, tt, fl);
    case TChoice(p1, p2) =>
      if ChoiceByTest(p1, p2, fl) {
        SimChoiceTest(code, s, a, i, stk, p1, p2, opt, fl);
      } else if opt && p2.TTrue? {
        SimOptional(code, s, a, i, stk, p1, fl);
      } else {
        SimChoice(code, s, a, i, stk, p1, p2, opt, fl);
      }
    case TRep(p) => SimRep(code, s, a, i, stk, p, opt, fl);
    case TBehind(p, n) => SimBehind(code, s, a, i, stk, p, n, opt, tt, fl);
    case TNot(p) => SimNot(code, s, a, i, stk, p, opt, fl);
    case TAnd(p) => SimAnd(code, s, a, i, stk, p, opt, tt, fl);
    case TSeq(p1, p2) => SimSeq(code, s, a, i, stk, p1, p2, opt, tt, fl);
  }

  lemma AtBound(code: seq<Slot>, a: int, frag: seq<Slot>)
    requires At(code, a, frag)
    ensures 0 <= a && a + |frag| <= |code|
  {
  }

  /** Prefix a run to code that already behaves. */
  lemma Compose(code: seq<Slot>, s: seq<Byte>, x: State, a: int, i: nat, stk: seq<Entry>,
                b: int, t: Tree, opt: bool, fl: Charset)
    requires WellFormed(t) && i <= |s| && (opt ==> stk != [])
    requires Reach(code, s, x, Run(a, i, stk)) && Behaves(code, s, a, i, stk, b, t, opt, fl)
    ensures Match(t, s, i).None? ==> Reach(code, s, x, Fail(stk))
    ensures Match(t, s, i).Some? ==>
              var j := Match(t, s, i).value;
              || Reach(code, s, x, Exit(b, j, stk, opt))
              || (j < |s| && s[j] !in fl && Reach(code, s, x, Fail(stk)))
  {
    hide Reach, Match;
    var y := Run(a, i, stk);
    match Match(t, s, i)
    case None => ReachTrans(code, s, x, y, Fail(stk));
    case Some(j) =>
      if Reach(code, s, y, Exit(b, j, stk, opt)) {
        ReachTrans(code, s, x, y, Exit(b, j, stk, opt));
      } else {
        ReachTrans(code, s, x, y, Fail(stk));
      }
  }

  lemma LayoutSeq(code: seq<Slot>, a: int, p1: Tree, p2: Tree, opt: bool, tt: Test, fl: Charset)
    requires At(code, a, Gen(TSeq(p1, p2), opt, tt, fl))
    ensures var c1 := Gen(p1, false, tt, SeqFollow(p1, p2, fl));
            var c2 := Gen(p2, opt, if FixedLen(p1) != 0 then NoTest else tt, fl);
            && |Gen(TSeq(p1, p2), opt, tt, fl)| == |c1| + |c2| && a >= 0
            && At(code, a, c1) && At(code, a + |c1|, c2)
  {
    hide At, SeqFollow, FixedLen, GetFirst;
    AtSplit(code, a, Gen(p1, false, tt, SeqFollow(p1, p2, fl)),
            Gen(p2, opt, if FixedLen(p1) != 0 then NoTest else tt, fl));
  }

  lemma {:induction false} SimSeq(code: seq<Slot>, s: seq<Byte>, a: int, i: nat, stk: seq<Entry>,
                                  p1: Tree, p2: Tree, opt: bool, tt: Test, fl: Charset)
    requires WellFormed(TSeq(p1, p2)) && i <= |s|
    requires At(code, a, Gen(TSeq(p1, p2), opt, tt, fl))
    requires Context(code, a + |Gen(TSeq(p1, p2), opt, tt, fl)|, stk, opt, fl)
    requires Holds(tt, s, i)
    ensures Behaves(code, s, a, i, stk, a + |Gen(TSeq(p1, p2), opt, tt, fl)|, TSeq(p1, p2), opt, fl)
    decreases TSeq(p1, p2), |s| - i, 2
  {
    hide Reach, Step, At, Gen, GetFirst, CheckAux, GenTest, TestLen, TestOf, Inst1, Inst2, SeqFollow, FixedLen;
    var fl1 := SeqFollow(p1, p2, fl);
    var c1 := Gen(p1, false, tt, fl1);
    var tt2 := if FixedLen(p1) != 0 then NoTest else tt;
    var c2 := Gen(p2, opt, tt2, fl);
    LayoutSeq(code, a, p1, p2, opt, tt, fl);
    var x := Run(a, i, stk);
    Sim(code, s, a, i, stk, p1, false, tt, fl1);
    var r := Match(p1, s, i);
    if r.Some? {
      var j := r.value;
      if FixedLen(p1) == 0 { FixedLenSound(p1, s, i); }
      if Reach(code, s, x, Run(a + |c1|, j, stk)) {
        Sim(code, s, a + |c1|, j, stk, p2, opt, tt2, fl);
        Compose(code, s, x, a + |c1|, j, stk, a + |c1| + |c2|, p2, opt, fl);
      } else {
        FollowDecides(p1, p2, fl, s, j);
      }
    }
  }

  /** A character that the follow set of p1 excludes excludes p2, or p2 is empty there and
      the character is excluded by what follows the sequence. */
  lemma FollowDecides(p1: Tree, p2: Tree, fl: Charset, s: seq<Byte>, j: nat)
    requires WellFormed(p2) && j < |s| && s[j] !in SeqFollow(p1, p2, fl)
    ensures Match(p2, s, j).None? || (Match(p2, s, j) == Some(j) && s[j] !in fl)
  {
    GetFirstSound(p2, fl, s, j);
  }

  lemma {:induction false} SimChoiceTest(code: seq<Slot>, s: seq<Byte>, a: int, i: nat, stk: seq<Entry>,
                                         p1: Tree, p2: Tree, opt: bool, fl: Charset)
    requires WellFormed(TChoice(p1, p2)) && i <= |s| && ChoiceByTest(p1, p2, fl)
    requires At(code, a, GenChoice(p1, p2, opt, fl))
    requires Context(code, a + |GenChoice(p1, p2, opt, fl)|, stk, opt, fl)
    ensures Behaves(code, s, a, i, stk, a + |GenChoice(p1, p2, opt, fl)|, TChoice(p1, p2), opt, fl)
    decreases TChoice(p1, p2), |s| - i, 2
  {
    hide Reach, Step, At, Gen, GetFirst, CheckAux, GenTest, TestLen, TestOf, Inst1, Inst2, ChoiceByTest, GenChoice;
    var cs1 := GetFirst(p1, FULL_SET).set_;
    var n := TestLen(cs1, false);
    var c1 := Gen(p1, false, TestOf(cs1, false), fl);
    var c2 := Gen(p2, opt, NoTest, fl);
    var k := if p2.TTrue? then 0 else 2;
    LayoutChoiceTest(code, a, p1, p2, opt, fl);
    var l1 := a + n + |c1| + k;
    var b := l1 + |c2|;
    var x := Run(a, i, stk);
    SimTest(code, s, a, i, stk, cs1, false, n + |c1| + k);
    FirstDecides(p1, p2, fl, s, i);
    if i < |s| && s[i] in cs1 {
      Sim(code, s, a + n, i, stk, p1, false, TestOf(cs1, false), fl);
      Compose(code, s, x, a + n, i, stk, a + n + |c1|, p1, false, fl);
      var r := Match(p1, s, i);
      if r.Some? && Reach(code, s, x, Run(a + n + |c1|, r.value, stk)) {
        if !p2.TTrue? { DoJump(code, s, x, a + n + |c1|, r.value, stk, 2 + |c2|); }
        ToExit(code, s, x, b, r.value, stk, opt, fl);
      }
    } else {
      Sim(code, s, l1, i, stk, p2, opt, NoTest, fl);
      Compose(code, s, x, l1, i, stk, b, p2, opt, fl);
    }
  }

  lemma GenTrue(opt: bool, tt: Test, fl: Charset)
    ensures Gen(TTrue, opt, tt, fl) == []
  {
  }

  lemma LayoutChoiceTest(code: seq<Slot>, a: int, p1: Tree, p2: Tree, opt: bool, fl: Charset)
    requires ChoiceByTest(p1, p2, fl) && At(code, a, GenChoice(p1, p2, opt, fl))
    ensures var cs1 := GetFirst(p1, FULL_SET).set_;
            var n := TestLen(cs1, false);
            var c1 := Gen(p1, false, TestOf(cs1, false), fl);
            var c2 := Gen(p2, opt, NoTest, fl);
            var k := if p2.TTrue? then 0 else 2;
            && |GenChoice(p1, p2, opt, fl)| == n + |c1| + k + |c2| && a >= 0
            && (p2.TTrue? ==> |c2| == 0)
            && At(code, a, GenTest(cs1, false, n + |c1| + k)) && At(code, a + n, c1)
            && (p2.TTrue? || At(code, a + n + |c1|, Inst2(IJmp, 0, 2 + |c2|)))
            && At(code, a + n + |c1| + k, c2)
  {
    hide At, GetFirst, TestLen, TestOf, HeadFail, FixedLen, ChoiceByTest, RepByTest, Gen;
    var cs1 := GetFirst(p1, FULL_SET).set_;
    var c1 := Gen(p1, false, TestOf(cs1, false), fl);
    var c2 := Gen(p2, opt, NoTest, fl);
    var jmp := if p2.TTrue? then [] else Inst2(IJmp, 0, 2 + |c2|);
    GenTrue(opt, NoTest, fl);
    AtSplit4(code, a, GenTest(cs1, false, TestLen(cs1, false) + |c1| + |jmp|), c1, jmp, c2);
  }

  /** Why a test may stand in for a choice: off its first set p1 fails, and on it either p1
      succeeds or p2 matches nothing that what follows could accept. */
  lemma FirstDecides(p1: Tree, p2: Tree, fl: Charset, s: seq<Byte>, i: nat)
    requires WellFormed(p1) && WellFormed(p2) && i <= |s| && ChoiceByTest(p1, p2, fl)
    ensures !(i < |s| && s[i] in GetFirst(p1, FULL_SET).set_) ==> Match(p1, s, i).None?
    ensures i < |s| && s[i] in GetFirst(p1, FULL_SET).set_ && Match(p1, s, i).None? ==>
              Match(p2, s, i).None? || (Match(p2, s, i) == Some(i) && s[i] !in fl)
  {
    if HeadFail(p1) { HeadFailExact(p1, s, i); }
    GetFirstSound(p1, FULL_SET, s, i);
    GetFirstSound(p2, fl, s, i);
  }

  lemma LayoutOptional(code: seq<Slot>, a: int, p1: Tree, fl: Charset)
    requires !ChoiceByTest(p1, TTrue, fl) && At(code, a, GenChoice(p1, TTrue, true, fl))
    ensures var c1 := Gen(p1, true, NoTest, FULL_SET);
            && |GenChoice(p1, TTrue, true, fl)| == 2 + |c1| && a >= 0
            && At(code, a, Inst2(IPartialCommit, 0, 2)) && At(code, a + 2, c1)
  {
    hide At, ChoiceByTest, GetFirst, Gen;
    AtSplit(code, a, Inst2(IPartialCommit, 0, 2), Gen(p1, true, NoTest, FULL_SET));
  }

  lemma {:induction false} SimOptional(code: seq<Slot>, s: seq<Byte>, a: int, i: nat, stk: seq<Entry>,
                                       p1: Tree, fl: Charset)
    requires WellFormed(p1) && i <= |s| && !ChoiceByTest(p1, TTrue, fl)
    requires At(code, a, GenChoice(p1, TTrue, true, fl))
    requires Context(code, a + |GenChoice(p1, TTrue, true, fl)|, stk, true, fl)
    ensures Behaves(code, s, a, i, stk, a + |GenChoice(p1, TTrue, true, fl)|, TChoice(p1, TTrue), true, fl)
    decreases TChoice(p1, TTrue), |s| - i, 2
  {
    hide Reach, Step, At, Gen, GetFirst, CheckAux, GenTest, TestLen, TestOf, Inst1, Inst2, ChoiceByTest, GenChoice;
    var c1 := Gen(p1, true, NoTest, FULL_SET);
    LayoutOptional(code, a, p1, fl);
    var base, e := stk[..|stk| - 1], stk[|stk| - 1];
    assert stk == base + [e];
    var stk1 := base + [Entry(e.p, i)];
    assert stk1[..|base|] == base;
    var x := Run(a, i, stk);
    ReachRefl(code, s, x);
    DoPartialCommit(code, s, x, a, i, base, 2, e);
    Sim(code, s, a + 2, i, stk1, p1, true, NoTest, FULL_SET);
    Compose(code, s, x, a + 2, i, stk1, a + 2 + |c1|, p1, true, FULL_SET);
    assert Match(TTrue, s, i) == Some(i);
    assert Fail(stk1) == Exit(a + 2 + |c1|, i, stk, true);
  }

  lemma {:induction false} SimChoice(code: seq<Slot>, s: seq<Byte>, a: int, i: nat, stk: seq<Entry>,
                                     p1: Tree, p2: Tree, opt: bool, fl: Charset)
    requires WellFormed(TChoice(p1, p2)) && i <= |s|
    requires !ChoiceByTest(p1, p2, fl) && !(opt && p2.TTrue?)
    requires At(code, a, GenChoice(p1, p2, opt, fl))
    requires Context(code, a + |GenChoice(p1, p2, opt, fl)|, stk, opt, fl)
    ensures Behaves(code, s, a, i, stk, a + |GenChoice(p1, p2, opt, fl)|, TChoice(p1, p2), opt, fl)
    decreases TChoice(p1, p2), |s| - i, 2
  {
    hide Reach, Step, At, Gen, GetFirst, CheckAux, GenTest, TestLen, TestOf, Inst1, Inst2, ChoiceByTest, GenChoice;
    var f1 := GetFirst(p1, FULL_SET);
    var opt1 := p2.TTrue?;
    var n := TestLen(f1.set_, f1.accepts);
    var c1 := Gen(p1, opt1, TestOf(f1.set_, f1.accepts), FULL_SET);
    var c2 := Gen(p2, opt, NoTest, fl);
    LayoutChoice(code, a, p1, p2, opt, fl);
    var l1 := a + n + 2 + |c1| + 2;
    var b := l1 + |c2|;
    var x := Run(a, i, stk);
    SimTest(code, s, a, i, stk, f1.set_, f1.accepts, n + 2 + |c1| + 2);
    GetFirstSound(p1, FULL_SET, s, i);
    if f1.accepts || (i < |s| && s[i] in f1.set_) {
      var e := Entry(l1, i);
      var stk1 := stk + [e];
      assert stk1[..|stk|] == stk;
      DoChoice(code, s, x, a + n, i, stk, 2 + |c1| + 2);
      Sim(code, s, a + n + 2, i, stk1, p1, opt1, TestOf(f1.set_, f1.accepts), FULL_SET);
      Compose(code, s, x, a + n + 2, i, stk1, a + n + 2 + |c1|, p1, opt1, FULL_SET);
      var r := Match(p1, s, i);
      if r.Some? {
        if !opt1 { DoCommit(code, s, x, a + n + 2 + |c1|, r.value, stk, 2 + |c2|, e); }
        ToExit(code, s, x, b, r.value, stk, opt, fl);
        return;
      }
    }
    Sim(code, s, l1, i, stk, p2, opt, NoTest, fl);
    Compose(code, s, x, l1, i, stk, b, p2, opt, fl);
  }

  lemma LayoutChoice(code: seq<Slot>, a: int, p1: Tree, p2: Tree, opt: bool, fl: Charset)
    requires !ChoiceByTest(p1, p2, fl) && !(opt && p2.TTrue?) && At(code, a, GenChoice(p1, p2, opt, fl))
    ensures var f1 := GetFirst(p1, FULL_SET);
            var n := TestLen(f1.set_, f1.accepts);
            var c1 := Gen(p1, p2.TTrue?, TestOf(f1.set_, f1.accepts), FULL_SET);
            var c2 := Gen(p2, opt, NoTest, fl);
            && |GenChoice(p1, p2, opt, fl)| == n + 2 + |c1| + 2 + |c2| && a >= 0
            && (p2.TTrue? ==> |c2| == 0)
            && At(code, a, GenTest(f1.set_, f1.accepts, n + 2 + |c1| + 2))
            && At(code, a + n, Inst2(IChoice, 0, 2 + |c1| + 2))
            && At(code, a + n + 2, c1)
            && At(code, a + n + 2 + |c1|, Inst2(ICommit, 0, 2 + |c2|))
            && At(code, a + n + 2 + |c1| + 2, c2)
  {
    hide At, GetFirst, TestLen, TestOf, HeadFail, FixedLen, ChoiceByTest, RepByTest, Gen;
    var f1 := GetFirst(p1, FULL_SET);
    var n := TestLen(f1.set_, f1.accepts);
    var c1 := Gen(p1, p2.TTrue?, TestOf(f1.set_, f1.accepts), FULL_SET);
    var c2 := Gen(p2, opt, NoTest, fl);
    var test := GenTest(f1.set_, f1.accepts, n + 2 + |c1| + 2);
    var choice := Inst2(IChoice, 0, 2 + |c1| + 2);
    var commit := Inst2(ICommit, 0, 2 + |c2|);
    GenTrue(opt, NoTest, fl);
    AtSplit(code, a, test + choice + c1 + commit, c2);
    AtSplit4(code, a, test, choice, c1, commit);
  }

  lemma {:induction false} SimBehind(code: seq<Slot>, s: seq<Byte>, a: int, i: nat, stk: seq<Entry>,
                                     p: Tree, n: nat, opt: bool, tt: Test, fl: Charset)
    requires WellFormed(TBehind(p, n)) && i <= |s|
    requires At(code, a, Gen(TBehind(p, n), opt, tt, fl))
    requires Context(code, a + |Gen(TBehind(p, n), opt, tt, fl)|, stk, opt, fl)
    ensures Behaves(code, s, a, i, stk, a + |Gen(TBehind(p, n), opt, tt, fl)|, TBehind(p, n), opt, fl)
    decreases TBehind(p, n), |s| - i, 2
  {
    hide Reach, Step, At, Gen, GetFirst, CheckAux, GenTest, TestLen, TestOf, Inst1, Inst2, Match, FixedLen, Exit;
    var c := Gen(p, false, NoTest, FULL_SET);
    LayoutBehind(code, a, p, n, opt, tt, fl);
    BehindMatch(p, n, s, i);
    var a1 := a + if n > 0 then 1 else 0;
    var x := Run(a, i, stk);
    ReachRefl(code, s, x);
    if n > 0 { DoBehind(code, s, x, a, i, stk, n); }
    if n <= i {
      NoContext(code, a1 + |c|, stk);
      Sim(code, s, a1, i - n, stk, p, false, NoTest, FULL_SET);
      Compose(code, s, x, a1, i - n, stk, a1 + |c|, p, false, FULL_SET);
      if Match(p, s, i - n).Some? {
        JustExit(a1 + |c|, i, stk);
        ToExit(code, s, x, a1 + |c|, i, stk, opt, fl);
      }
    }
  }

  lemma BehindParts(p: Tree, n: nat)
    requires WellFormed(TBehind(p, n))
    ensures WellFormed(p) && FixedLen(p) == n
  {
    hide CheckAux, FixedLen;
  }

  lemma BehindUnfold(p: Tree, n: nat, s: seq<Byte>, i: nat)
    requires WellFormed(TBehind(p, n)) && WellFormed(p) && i <= |s|
    ensures Match(TBehind(p, n), s, i) == if n <= i && Match(p, s, i - n).Some? then Some(i) else None
  {
    hide CheckAux, FixedLen, WellFormed;
    var t, k := TBehind(p, n), i - n;
    if n <= i {
      var m := Match(p, s, k);
      assert Match(t, s, i) == if m.Some? then Some(i) else None;
    } else {
      assert Match(t, s, i) == None;
    }
  }

  /** what look-behind means, and where its body ends */
  lemma BehindMatch(p: Tree, n: nat, s: seq<Byte>, i: nat)
    requires WellFormed(TBehind(p, n)) && i <= |s|
    ensures Match(TBehind(p, n), s, i) == if n <= i && Match(p, s, i - n).Some? then Some(i) else None
    ensures n <= i && Match(p, s, i - n).Some? ==> Match(p, s, i - n).value == i
  {
    hide CheckAux, FixedLen, Match;
    BehindParts(p, n);
    BehindUnfold(p, n, s, i);
    if n <= i { FixedLenSound(p, s, i - n); }
  }

  lemma NoContext(code: seq<Slot>, b: int, stk: seq<Entry>)
    ensures Context(code, b, stk, false, FULL_SET)
  {
  }

  lemma JustExit(b: int, j: nat, stk: seq<Entry>)
    ensures Exit(b, j, stk, false) == Run(b, j, stk)
  {
  }

  lemma LayoutBehind(code: seq<Slot>, a: int, p: Tree, n: nat, opt: bool, tt: Test, fl: Charset)
    requires At(code, a, Gen(TBehind(p, n), opt, tt, fl))
    ensures var c := Gen(p, false, NoTest, FULL_SET);
            var k := if n > 0 then 1 else 0;
            && |Gen(TBehind(p, n), opt, tt, fl)| == k + |c| && a >= 0
            && (n > 0 ==> At(code, a, Inst1(IBehind, n))) && At(code, a + k, c)
  {
    hide At, GetFirst, TestLen, TestOf, HeadFail, FixedLen, ChoiceByTest, RepByTest;
    AtSplit(code, a, if n > 0 then Inst1(IBehind, n) else [], Gen(p, false, NoTest, FULL_SET));
  }

  lemma {:induction false} SimNot(code: seq<Slot>, s: seq<Byte>, a: int, i: nat, stk: seq<Entry>,
                                  p: Tree, opt: bool, fl: Charset)
    requires WellFormed(p) && i <= |s|
    requires At(code, a, GenNot(p))
    requires Context(code, a + |GenNot(p)|, stk, opt, fl)
    ensures Behaves(code, s, a, i, stk, a + |GenNot(p)|, TNot(p), opt, fl)
    decreases TNot(p), |s| - i, 2
  {
    hide Reach, Step, At, Gen, GetFirst, CheckAux, GenTest, TestLen, TestOf, Inst1, Inst2, GenNot;
    var f := GetFirst(p, FULL_SET);
    var n := TestLen(f.set_, f.accepts);
    var x := Run(a, i, stk);
    GetFirstSound(p, FULL_SET, s, i);
    if HeadFail(p) {
      HeadFailNotEmpty(p, FULL_SET);
      HeadFailExact(p, s, i);
      LayoutNotTest(code, a, p);
      SimTest(code, s, a, i, stk, f.set_, f.accepts, n + 1);
      if Match(p, s, i).Some? {
        DoFail(code, s, x, a + n, i, stk);
      } else {
        ToExit(code, s, x, a + n + 1, i, stk, opt, fl);
      }
    } else {
      SimNotChoice(code, s, a, i, stk, p, opt, fl);
    }
  }

  lemma LayoutNotTest(code: seq<Slot>, a: int, p: Tree)
    requires HeadFail(p) && At(code, a, GenNot(p))
    ensures var f := GetFirst(p, FULL_SET);
            var n := TestLen(f.set_, f.accepts);
            && |GenNot(p)| == n + 1 && a >= 0
            && At(code, a, GenTest(f.set_, f.accepts, n + 1)) && At(code, a + n, Inst1(IFail, 0))
  {
    hide At, GetFirst, TestLen, TestOf, HeadFail, FixedLen, ChoiceByTest, RepByTest, Gen;
    var f := GetFirst(p, FULL_SET);
    AtSplit(code, a, GenTest(f.set_, f.accepts, TestLen(f.set_, f.accepts) + 1), Inst1(IFail, 0));
  }

  lemma LayoutNot(code: seq<Slot>, a: int, p: Tree)
    requires !HeadFail(p) && At(code, a, GenNot(p))
    ensures var f := GetFirst(p, FULL_SET);
            var n := TestLen(f.set_, f.accepts);
            var c := Gen(p, false, NoTest, FULL_SET);
            && |GenNot(p)| == n + 2 + |c| + 1 && a >= 0
            && At(code, a, GenTest(f.set_, f.accepts, n + 2 + |c| + 1))
            && At(code, a + n, Inst2(IChoice, 0, 2 + |c| + 1)) && At(code, a + n + 2, c)
            && At(code, a + n + 2 + |c|, Inst1(IFailTwice, 0))
  {
    hide At, GetFirst, TestLen, TestOf, HeadFail, FixedLen, ChoiceByTest, RepByTest, Gen;
    var f := GetFirst(p, FULL_SET);
    var c := Gen(p, false, NoTest, FULL_SET);
    AtSplit4(code, a, GenTest(f.set_, f.accepts, TestLen(f.set_, f.accepts) + 2 + |c| + 1),
             Inst2(IChoice, 0, 2 + |c| + 1), c, Inst1(IFailTwice, 0));
  }

  lemma {:induction false} SimNotChoice(code: seq<Slot>, s: seq<Byte>, a: int, i: nat, stk: seq<Entry>,
                                        p: Tree, opt: bool, fl: Charset)
    requires WellFormed(p) && i <= |s| && !HeadFail(p)
    requires At(code, a, GenNot(p))
    requires Context(code, a + |GenNot(p)|, stk, opt, fl)
    ensures Behaves(code, s, a, i, stk, a + |GenNot(p)|, TNot(p), opt, fl)
    decreases TNot(p), |s| - i, 1
  {
    hide Reach, Step, At, Gen, GetFirst, CheckAux, GenTest, TestLen, TestOf, Inst1, Inst2, GenNot;
    var f := GetFirst(p, FULL_SET);
    var n := TestLen(f.set_, f.accepts);
    var c := Gen(p, false, NoTest, FULL_SET);
    LayoutNot(code, a, p);
    var x := Run(a, i, stk);
    GetFirstSound(p, FULL_SET, s, i);
    SimTest(code, s, a, i, stk, f.set_, f.accepts, n + 2 + |c| + 1);
    var b := a + n + 2 + |c| + 1;
    if f.accepts || (i < |s| && s[i] in f.set_) {
      var e := Entry(b, i);
      var stk1 := stk + [e];
      assert stk1[..|stk|] == stk;
      DoChoice(code, s, x, a + n, i, stk, 2 + |c| + 1);
      Sim(code, s, a + n + 2, i, stk1, p, false, NoTest, FULL_SET);
      Compose(code, s, x, a + n + 2, i, stk1, b - 1, p, false, FULL_SET);
      var r := Match(p, s, i);
      if r.Some? {
        DoFailTwice(code, s, x, b - 1, r.value, stk, e);
        return;
      }
    }
    ToExit(code, s, x, b, i, stk, opt, fl);
  }

  lemma LayoutAndFixed(code: seq<Slot>, a: int, p: Tree, tt: Test)
    requires 0 <= FixedLen(p) <= MAXBEHIND && At(code, a, GenAnd(p, tt))
    ensures var n := FixedLen(p);
            var c := Gen(p, false, tt, FULL_SET);
            && |GenAnd(p, tt)| == |c| + (if n > 0 then 1 else 0) && a >= 0
            && At(code, a, c) && (n > 0 ==> At(code, a + |c|, Inst1(IBehind, n)))
  {
    hide At, GetFirst, FixedLen, Gen;
    AtSplit(code, a, Gen(p, false, tt, FULL_SET), if FixedLen(p) > 0 then Inst1(IBehind, FixedLen(p)) else []);
  }

  lemma LayoutAnd(code: seq<Slot>, a: int, p: Tree, tt: Test)
    requires !(0 <= FixedLen(p) <= MAXBEHIND) && At(code, a, GenAnd(p, tt))
    ensures var c := Gen(p, false, tt, FULL_SET);
            && |GenAnd(p, tt)| == 2 + |c| + 2 + 1 && a >= 0
            && At(code, a, Inst2(IChoice, 0, 2 + |c| + 2)) && At(code, a + 2, c)
            && At(code, a + 2 + |c|, Inst2(IBackCommit, 0, 3)) && At(code, a + 2 + |c| + 2, Inst1(IFail, 0))
  {
    hide At, GetFirst, FixedLen, Gen;
    var c := Gen(p, false, tt, FULL_SET);
    AtSplit4(code, a, Inst2(IChoice, 0, 2 + |c| + 2), c, Inst2(IBackCommit, 0, 3), Inst1(IFail, 0));
  }

  lemma {:induction false} SimAnd(code: seq<Slot>, s: seq<Byte>, a: int, i: nat, stk: seq<Entry>,
                                  p: Tree, opt: bool, tt: Test, fl: Charset)
    requires WellFormed(p) && i <= |s|
    requires At(code, a, GenAnd(p, tt)) && Holds(tt, s, i)
    requires Context(code, a + |GenAnd(p, tt)|, stk, opt, fl)
    ensures Behaves(code, s, a, i, stk, a + |GenAnd(p, tt)|, TAnd(p), opt, fl)
    decreases TAnd(p), |s| - i, 2
  {
    hide Reach, Step, At, Gen, GetFirst, CheckAux, GenTest, TestLen, TestOf, Inst1, Inst2, GenAnd, FixedLen;
    var c := Gen(p, false, tt, FULL_SET);
    var x := Run(a, i, stk);
    ReachRefl(code, s, x);
    if 0 <= FixedLen(p) <= MAXBEHIND {
      LayoutAndFixed(code, a, p, tt);
      FixedLenSound(p, s, i);
      Sim(code, s, a, i, stk, p, false, tt, FULL_SET);
      if Match(p, s, i).Some? {
        var n: nat := FixedLen(p);
        if n > 0 { DoBehind(code, s, x, a + |c|, i + n, stk, n); }
        ToExit(code, s, x, a + |GenAnd(p, tt)|, i, stk, opt, fl);
      }
    } else {
      SimAndChoice(code, s, a, i, stk, p, opt, tt, fl);
    }
  }

  lemma {:induction false} SimAndChoice(code: seq<Slot>, s: seq<Byte>, a: int, i: nat, stk: seq<Entry>,
                                        p: Tree, opt: bool, tt: Test, fl: Charset)
    requires WellFormed(p) && i <= |s| && !(0 <= FixedLen(p) <= MAXBEHIND)
    requires At(code, a, GenAnd(p, tt)) && Holds(tt, s, i)
    requires Context(code, a + |GenAnd(p, tt)|, stk, opt, fl)
    ensures Behaves(code, s, a, i, stk, a + |GenAnd(p, tt)|, TAnd(p), opt, fl)
    decreases TAnd(p), |s| - i, 1
  {
    hide Reach, Step, At, Gen, GetFirst, CheckAux, GenTest, TestLen, TestOf, Inst1, Inst2, GenAnd, FixedLen;
    var c := Gen(p, false, tt, FULL_SET);
    var x := Run(a, i, stk);
    ReachRefl(code, s, x);
    LayoutAnd(code, a, p, tt);
    var l1 := a + 2 + |c| + 2;
    var e := Entry(l1, i);
    var stk1 := stk + [e];
    assert stk1[..|stk|] == stk;
    DoChoice(code, s, x, a, i, stk, 2 + |c| + 2);
    Sim(code, s, a + 2, i, stk1, p, false, tt, FULL_SET);
    Compose(code, s, x, a + 2, i, stk1, a + 2 + |c|, p, false, FULL_SET);
    var r := Match(p, s, i);
    if r.Some? {
      DoBackCommit(code, s, x, a + 2 + |c|, r.value, stk, 3, e);
      ToExit(code, s, x, l1 + 1, i, stk, opt, fl);
    } else {
      DoFail(code, s, x, l1, i, stk);
    }
  }

  lemma {:induction false} SimRep(code: seq<Slot>, s: seq<Byte>, a: int, i: nat, stk: seq<Entry>,
                                  p: Tree, opt: bool, fl: Charset)
    requires WellFormed(TRep(p)) && i <= |s|
    requires At(code, a, GenRep(p, opt, fl))
    requires Context(code, a + |GenRep(p, opt, fl)|, stk, opt, fl)
    ensures Behaves(code, s, a, i, stk, a + |GenRep(p, opt, fl)|, TRep(p), opt, fl)
    decreases TRep(p), |s| - i, 2
  {
    hide Reach, Step, At, GetFirst, CheckAux, RepByTest, SpanEnd;
    var x := Run(a, i, stk);
    if ToCharset(p).Some? {
      var cs := ToCharset(p).value;
      AtBound(code, a, GenRep(p, opt, fl));
      SimSpan(code, s, a, i, stk, cs);
      RepSpan(p, s, i);
      ToExit(code, s, x, a + |SetInst(ISpan, cs)|, SpanEnd(cs, s, i), stk, opt, fl);
    } else if RepByTest(p, fl) {
      SimRepTest(code, s, a, i, stk, p, opt, fl);
    } else {
      SimRepChoice(code, s, a, i, stk, p, opt, fl);
    }
  }

  /** Repetition of a charset is a span. */
  lemma {:induction false} RepSpan(p: Tree, s: seq<Byte>, i: nat)
    requires WellFormed(TRep(p)) && ToCharset(p).Some? && i <= |s|
    ensures Match(TRep(p), s, i) == Some(SpanEnd(ToCharset(p).value, s, i))
    decreases |s| - i
  {
    if i < |s| && s[i] in ToCharset(p).value { RepSpan(p, s, i + 1); }
  }

  /** The loop with a choice on the stack, its own or the one of the enclosing optional. */
  lemma {:induction false} SimRepChoice(code: seq<Slot>, s: seq<Byte>, a: int, i: nat, stk: seq<Entry>,
                                        p: Tree, opt: bool, fl: Charset)
    requires WellFormed(TRep(p)) && i <= |s| && ToCharset(p).None? && !RepByTest(p, fl)
    requires At(code, a, GenRep(p, opt, fl))
    requires Context(code, a + |GenRep(p, opt, fl)|, stk, opt, fl)
    ensures Behaves(code, s, a, i, stk, a + |GenRep(p, opt, fl)|, TRep(p), opt, fl)
    decreases TRep(p), |s| - i, 1
  {
    hide Reach, Step, At, Gen, GetFirst, CheckAux, GenTest, TestLen, TestOf, Inst1, Inst2, RepByTest, GenRep, ToCharset;
    var f := GetFirst(p, FULL_SET);
    var c := Gen(p, false, NoTest, FULL_SET);
    var n := TestLen(f.set_, f.accepts);
    LayoutRepChoice(code, a, p, opt, fl);
    var b := a + n + 2 + |c| + 2;
    var x := Run(a, i, stk);
    SimTest(code, s, a, i, stk, f.set_, f.accepts, n + 2 + |c| + 2);
    GetFirstSound(p, FULL_SET, s, i);
    if f.accepts || (i < |s| && s[i] in f.set_) {
      var base := if opt then stk[..|stk| - 1] else stk;
      var l := if opt then stk[|stk| - 1].p else b;
      if opt {
        assert stk == base + [stk[|stk| - 1]];
        DoPartialCommit(code, s, x, a + n, i, base, 2, stk[|stk| - 1]);
      } else {
        DoChoice(code, s, x, a + n, i, stk, 2 + |c| + 2);
      }
      SimRepLoop(code, s, a + n + 2, i, base, l, p);
      ReachTrans(code, s, x, Run(a + n + 2, i, base + [Entry(l, i)]),
                 Run(l, Match(TRep(p), s, i).value, base));
    } else {
      ToExit(code, s, x, b, i, stk, opt, fl);
    }
  }

  lemma LayoutRepChoice(code: seq<Slot>, a: int, p: Tree, opt: bool, fl: Charset)
    requires ToCharset(p).None? && !RepByTest(p, fl) && At(code, a, GenRep(p, opt, fl))
    ensures var f := GetFirst(p, FULL_SET);
            var c := Gen(p, false, NoTest, FULL_SET);
            var n := TestLen(f.set_, f.accepts);
            && |GenRep(p, opt, fl)| == n + 2 + |c| + 2 && a >= 0
            && At(code, a, GenTest(f.set_, f.accepts, n + 2 + |c| + 2))
            && At(code, a + n, if opt then Inst2(IPartialCommit, 0, 2) else Inst2(IChoice, 0, 2 + |c| + 2))
            && At(code, a + n + 2, c) && At(code, a + n + 2 + |c|, Inst2(IPartialCommit, 0, -|c|))
  {
    hide At, GetFirst, TestLen, TestOf, HeadFail, FixedLen, ChoiceByTest, RepByTest, Gen;
    var f := GetFirst(p, FULL_SET);
    var c := Gen(p, false, NoTest, FULL_SET);
    var enter := if opt then Inst2(IPartialCommit, 0, 2) else Inst2(IChoice, 0, 2 + |c| + 2);
    assert |enter| == 2;
    AtSplit4(code, a, GenTest(f.set_, f.accepts, TestLen(f.set_, f.accepts) + 2 + |c| + 2),
             enter, c, Inst2(IPartialCommit, 0, -|c|));
  }

  /** Each iteration moves the choice forward, and the iteration that fails resumes where the
      choice says, at the last position reached. */
  lemma {:induction false} SimRepLoop(code: seq<Slot>, s: seq<Byte>, a: int, i: nat, base: seq<Entry>, l: int, p: Tree)
    requires WellFormed(TRep(p)) && i <= |s|
    requires At(code, a, Gen(p, false, NoTest, FULL_SET))
    requires At(code, a + |Gen(p, false, NoTest, FULL_SET)|,
                Inst2(IPartialCommit, 0, -|Gen(p, false, NoTest, FULL_SET)|))
    ensures Match(TRep(p), s, i).Some?
    ensures Reach(code, s, Run(a, i, base + [Entry(l, i)]), Run(l, Match(TRep(p), s, i).value, base))
    decreases TRep(p), |s| - i, 0
  {
    hide Reach, Step, At, Gen;
    var c := Gen(p, false, NoTest, FULL_SET);
    var e := Entry(l, i);
    var x := Run(a, i, base + [e]);
    Sim(code, s, a, i, base + [e], p, false, NoTest, FULL_SET);
    assert (base + [e])[..|base|] == base;
    var r := Match(p, s, i);
    if r.Some? {
      var j := r.value;
      DoPartialCommit(code, s, x, a + |c|, j, base, -|c|, e);
      SimRepLoop(code, s, a, j, base, l, p);
      ReachTrans(code, s, x, Run(a, j, base + [Entry(l, j)]), Run(l, Match(TRep(p), s, i).value, base));
    }
  }

  lemma LayoutRepTest(code: seq<Slot>, a: int, p: Tree, opt: bool, fl: Charset)
    requires ToCharset(p).None? && RepByTest(p, fl) && At(code, a, GenRep(p, opt, fl))
    ensures var cs := GetFirst(p, FULL_SET).set_;
            var c := Gen(p, false, TestOf(cs, false), FULL_SET);
            var n := TestLen(cs, false) + |c|;
            && |GenRep(p, opt, fl)| == n + 2 && a >= 0
            && At(code, a, GenTest(cs, false, n + 2)) && At(code, a + TestLen(cs, false), c)
            && At(code, a + n, Inst2(IJmp, 0, -n))
  {
    hide At, GetFirst, TestLen, TestOf, HeadFail, FixedLen, ChoiceByTest, RepByTest, Gen;
    var cs := GetFirst(p, FULL_SET).set_;
    var c := Gen(p, false, TestOf(cs, false), FULL_SET);
    var n := TestLen(cs, false) + |c|;
    AtSplit3(code, a, GenTest(cs, false, n + 2), c, Inst2(IJmp, 0, -n));
  }

  lemma RepDecides(p: Tree, fl: Charset, s: seq<Byte>, i: nat)
    requires WellFormed(p) && i <= |s| && RepByTest(p, fl)
    ensures !(i < |s| && s[i] in GetFirst(p, FULL_SET).set_) ==> Match(p, s, i).None?
    ensures i < |s| && s[i] in GetFirst(p, FULL_SET).set_ && Match(p, s, i).None? ==> s[i] !in fl
  {
    if HeadFail(p) { HeadFailExact(p, s, i); }
    GetFirstSound(p, FULL_SET, s, i);
  }

  /** The loop guarded by a test alone: no choice is kept, so a failure in the middle of an
      iteration fails the whole repetition; that is right only because the character there
      cannot start what follows. */
  lemma {:induction false} SimRepTest(code: seq<Slot>, s: seq<Byte>, a: int, i: nat, stk: seq<Entry>,
                                      p: Tree, opt: bool, fl: Charset)
    requires WellFormed(TRep(p)) && i <= |s| && ToCharset(p).None? && RepByTest(p, fl)
    requires At(code, a, GenRep(p, opt, fl))
    requires Context(code, a + |GenRep(p, opt, fl)|, stk, opt, fl)
    ensures Behaves(code, s, a, i, stk, a + |GenRep(p, opt, fl)|, TRep(p), opt, fl)
    decreases TRep(p), |s| - i, 1
  {
    hide Reach, Step, At, Gen, GetFirst, CheckAux, GenTest, TestLen, TestOf, Inst1, Inst2, RepByTest, GenRep, ToCharset;
    var cs := GetFirst(p, FULL_SET).set_;
    var c := Gen(p, false, TestOf(cs, false), FULL_SET);
    var m := TestLen(cs, false);
    var n := m + |c|;
    LayoutRepTest(code, a, p, opt, fl);
    RepDecides(p, fl, s, i);
    var x := Run(a, i, stk);
    SimTest(code, s, a, i, stk, cs, false, n + 2);
    if i < |s| && s[i] in cs {
      Sim(code, s, a + m, i, stk, p, false, TestOf(cs, false), FULL_SET);
      Compose(code, s, x, a + m, i, stk, a + n, p, false, FULL_SET);
      var r := Match(p, s, i);
      if r.Some? {
        DoJump(code, s, x, a + n, r.value, stk, -n);
        SimRepTest(code, s, a, r.value, stk, p, opt, fl);
        Compose(code, s, x, a, r.value, stk, a + n + 2, TRep(p), opt, fl);
      }
    } else {
      ToExit(code, s, x, a + n + 2, i, stk, opt, fl);
    }
  }

  /** Compiler correctness: on every subject, from every position, the program reaches the end
      exactly at the position the PEG gives, and gives up exactly when the PEG fails. */
  lemma ProgramCorrect(t: Tree, s: seq<Byte>, i: nat)
    requires WellFormed(t) && i <= |s|
    ensures Reach(Program(t), s, Initial(i), Outcome(Match(t, s, i)))
  {
    hide Reach, Gen, Match;
    var code := Program(t);
    var c := Gen(t, false, NoTest, FULL_SET);
    assert code[0..|code|] == code;
    AtSplit(code, 0, c, Inst1(IEnd, 0));
    var stk := [Entry(GIVEUP, i)];
    Sim(code, s, 0, i, stk, t, false, NoTest, FULL_SET);
    match Match(t, s, i)
    case Some(j) =>
      AtInst(code, |c|, Inst1(IEnd, 0));
      Extend(code, s, Initial(i), Run(|c|, j, stk), Matched(j));
    case None =>
      assert Fail(stk) == Run(GIVEUP, i, []);
      Extend(code, s, Initial(i), Run(GIVEUP, i, []), GaveUp);
  }
}
