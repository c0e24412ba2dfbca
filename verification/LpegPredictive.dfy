/** Patterns that are matched without backtracking. */
module LpegPredictive {
  // Where the next character decides every choice and every repetition, the code never saves a
  // position to come back to.

  import opened LpegTree
  import opened LpegVm
  import opened LpegGen

  /** The next character tells whether p is worth trying instead of what starts with a character of
      'other': p can only fail at once, or the two cannot start alike. */
  predicate Decides(p: Tree, other: Charset)
  {
    HeadFail(p) || (!GetFirst(p, FULL_SET).accepts && forall c :: c in GetFirst(p, FULL_SET).set_ ==> c !in other)
  }

  /** fl: what may follow t */
  predicate Predictive(t: Tree, fl: Charset)
  {
    match t
    case TChoice(p1, p2) => Decides(p1, GetFirst(p2, fl).set_) && Predictive(p1, fl) && Predictive(p2, fl)
    case TRep(p) => ToCharset(p).Some? || (Decides(p, fl) && Predictive(p, FULL_SET))
    case TNot(p) => HeadFail(p)
    case TAnd(p) => 0 <= FixedLen(p) <= MAXBEHIND && Predictive(p, FULL_SET)
    case TBehind(p, _) => Predictive(p, FULL_SET)
    case TSeq(p1, p2) => Predictive(p1, SeqFollow(p1, p2, fl)) && Predictive(p2, fl)
    case _ => true
  }

  /** no instruction saves or moves a position to come back to */
  predicate Straight(code: seq<Slot>)
  {
    forall k :: 0 <= k < |code| && code[k].Inst? ==> code[k].op !in {IChoice, IPartialCommit, ICommit, IBackCommit, IFailTwice}
  }

  lemma TestStraight(cs: Charset, accepts: bool, offset: int)
    ensures Straight(GenTest(cs, accepts, offset))
  {
  }

  lemma SetStraight(cs: Charset, tt: Test)
    ensures Straight(GenCharset(cs, tt)) && Straight(SetInst(ISpan, cs))
  {
  }

  lemma JoinStraight(a: seq<Slot>, b: seq<Slot>)
    requires Straight(a) && Straight(b)
    ensures Straight(a + b)
  {
  }

  /** A predictive pattern needs no backtrack entry at all. */
  lemma {:induction false} PredictiveCode(t: Tree, tt: Test, opt: bool, fl: Charset)
    requires Predictive(t, fl)
    ensures Straight(Gen(t, opt, tt, fl))
  {
    hide GetFirst, CheckAux, HeadFail, GenTest, GenCharset, SetInst, FixedLen, TestLen, TestOf;
    match t
    case TChar(_) =>
    case TSet(cs) => SetStraight(cs, tt);
    case TAny =>
    case TTrue =>
    case TFalse =>
    case TChoice(p1, p2) =>
      var f1 := GetFirst(p1, FULL_SET);
      var c1, c2 := Gen(p1, false, TestOf(f1.set_, false), fl), Gen(p2, opt, NoTest, fl);
      PredictiveCode(p1, TestOf(f1.set_, false), false, fl);
      PredictiveCode(p2, NoTest, opt, fl);
      assert ChoiceByTest(p1, p2, fl);
      var jmp := if p2.TTrue? then [] else Inst2(IJmp, 0, 2 + |c2|);
      var test := GenTest(f1.set_, false, TestLen(f1.set_, false) + |c1| + |jmp|);
      TestStraight(f1.set_, false, TestLen(f1.set_, false) + |c1| + |jmp|);
      assert Straight(jmp);
      JoinStraight(test, c1);
      JoinStraight(test + c1, jmp);
      JoinStraight(test + c1 + jmp, c2);
    case TRep(p) =>
      if ToCharset(p).Some? {
        SetStraight(ToCharset(p).value, NoTest);
      } else {
        var f := GetFirst(p, FULL_SET);
        var c := Gen(p, false, TestOf(f.set_, false), FULL_SET);
        PredictiveCode(p, TestOf(f.set_, false), false, FULL_SET);
        assert RepByTest(p, fl);
        var n := TestLen(f.set_, false) + |c|;
        TestStraight(f.set_, false, n + 2);
        JoinStraight(GenTest(f.set_, false, n + 2), c);
        JoinStraight(GenTest(f.set_, false, n + 2) + c, Inst2(IJmp, 0, -n));
      }
    case TNot(p) =>
      var f := GetFirst(p, FULL_SET);
      TestStraight(f.set_, f.accepts, TestLen(f.set_, f.accepts) + 1);
      JoinStraight(GenTest(f.set_, f.accepts, TestLen(f.set_, f.accepts) + 1), Inst1(IFail, 0));
    case TAnd(p) =>
      PredictiveCode(p, tt, false, FULL_SET);
      JoinStraight(Gen(p, false, tt, FULL_SET), if FixedLen(p) > 0 then Inst1(IBehind, FixedLen(p)) else []);
    case TBehind(p, n) =>
      PredictiveCode(p, NoTest, false, FULL_SET);
      JoinStraight(if n > 0 then Inst1(IBehind, n) else [], Gen(p, false, NoTest, FULL_SET));
    case TSeq(p1, p2) =>
      PredictiveCode(p1, tt, false, SeqFollow(p1, p2, fl));
      PredictiveCode(p2, if FixedLen(p1) != 0 then NoTest else tt, opt, fl);
      JoinStraight(Gen(p1, false, tt, SeqFollow(p1, p2, fl)), Gen(p2, opt, if FixedLen(p1) != 0 then NoTest else tt, fl));
  }
}
