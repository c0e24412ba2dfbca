/** The code generator as it works: it appends instructions to the code array, leaves offsets
    open and patches them when the target address is known. Every method is proved to append
    exactly the fragment that LpegGen specifies. */
module LpegCompiler {
  import opened LpegTree
  import opened LpegVm
  import opened LpegGen

  /** signals 'no instruction' */
  const NOINST := -1

  /** The test instruction at index tt, as far as the generator looks at it. */
  function TestAt(code: seq<Slot>, tt: int): Test
  {
    if !(0 <= tt && InstAt(code, tt)) then NoTest
    else if code[tt].op == ITestChar && 0 <= code[tt].aux < 256 then TestChar(code[tt].aux as Byte)
    else if code[tt].op == ITestSet then TestSet(code[tt + 2].cs)
    else NoTest
  }

  /** Set the offset of the instruction at index i so that it jumps to 'target'. */
  function Patch(code: seq<Slot>, i: int, target: int): (r: seq<Slot>)
    requires i < 0 || i + 1 < |code|
    ensures |r| == |code|
  {
    if i < 0 then code else code[i + 1 := Off(target - i)]
  }

  lemma PatchInst2(a: seq<Slot>, op: Opcode, aux: int, b: seq<Slot>, target: int)
    ensures |a + Inst2(op, aux, 0) + b| > |a| + 1
    ensures Patch(a + Inst2(op, aux, 0) + b, |a|, target) == a + Inst2(op, aux, target - |a|) + b
  {
  }

  lemma PatchNone(code: seq<Slot>, target: int)
    ensures Patch(code, NOINST, target) == code
  {
  }

  lemma PatchTest(a: seq<Slot>, cs: Charset, accepts: bool, b: seq<Slot>, target: int)
    ensures |a + GenTest(cs, accepts, 0) + b| > if accepts then -1 else |a| + 1
    ensures Patch(a + GenTest(cs, accepts, 0) + b, if accepts then NOINST else |a|, target)
            == a + GenTest(cs, accepts, target - |a|) + b
  {
  }

  /** Patching at the positions recorded during a choice that needs only a test. */
  lemma PatchesChoiceTest(a: seq<Slot>, p1: Tree, p2: Tree, opt: bool, fl: Charset)
    requires ChoiceByTest(p1, p2, fl)
    ensures var cs1 := GetFirst(p1, FULL_SET).set_;
            var s0 := a + GenTest(cs1, false, 0) + Gen(p1, false, TestOf(cs1, false), fl);
            var s1 := if p2.TTrue? then s0 else s0 + Inst2(IJmp, 0, 0);
            var s3 := Patch(s1, |a|, |s1|) + Gen(p2, opt, NoTest, fl);
            Patch(s3, if p2.TTrue? then NOINST else |s1| - 2, |s3|) == a + GenChoice(p1, p2, opt, fl)
  {
    hide GetFirst, CheckAux, HeadFail, Gen, GenTest, TestLen, TestOf, Patch, Inst2, ChoiceByTest;
    var cs1 := GetFirst(p1, FULL_SET).set_;
    var c1 := Gen(p1, false, TestOf(cs1, false), fl);
    if p2.TTrue? {
      PatchesTestOnly(a, cs1, c1, Gen(p2, opt, NoTest, fl));
    } else {
      PatchesTestAndJump(a, cs1, c1, Gen(p2, opt, NoTest, fl));
    }
  }

  lemma PatchesTestOnly(a: seq<Slot>, cs1: Charset, c1: seq<Slot>, c2: seq<Slot>)
    ensures var s1 := a + GenTest(cs1, false, 0) + c1;
            var s3 := Patch(s1, |a|, |s1|) + c2;
            Patch(s3, NOINST, |s3|) == a + (GenTest(cs1, false, TestLen(cs1, false) + |c1|) + c1 + [] + c2)
  {
    hide TestLen, GenTest, Inst1, Inst2, Patch;
    var s1 := a + GenTest(cs1, false, 0) + c1;
    PatchTest(a, cs1, false, c1, |s1|);
    var s3 := Patch(s1, |a|, |s1|) + c2;
    PatchNone(s3, |s3|);
  }

  lemma PatchesTestAndJump(a: seq<Slot>, cs1: Charset, c1: seq<Slot>, c2: seq<Slot>)
    ensures var s1 := a + GenTest(cs1, false, 0) + c1 + Inst2(IJmp, 0, 0);
            var s3 := Patch(s1, |a|, |s1|) + c2;
            Patch(s3, |s1| - 2, |s3|)
            == a + (GenTest(cs1, false, TestLen(cs1, false) + |c1| + 2) + c1 + Inst2(IJmp, 0, 2 + |c2|) + c2)
  {
    hide TestLen, GenTest, Inst1, Inst2, Patch;
    var j0 := Inst2(IJmp, 0, 0);
    var s1 := a + GenTest(cs1, false, 0) + c1 + j0;
    assert s1 == a + GenTest(cs1, false, 0) + (c1 + j0);
    PatchTest(a, cs1, false, c1 + j0, |s1|);
    var t := GenTest(cs1, false, |s1| - |a|);
    var s3 := Patch(s1, |a|, |s1|) + c2;
    assert s3 == (a + t + c1) + j0 + c2;
    PatchInst2(a + t + c1, IJmp, 0, c2, |s3|);
  }

  /** Patching at the positions recorded during the general choice. */
  lemma PatchesChoice(a: seq<Slot>, cs1: Charset, accepts: bool, c1: seq<Slot>, c2: seq<Slot>)
    ensures var t0 := GenTest(cs1, accepts, 0);
            var s1 := a + t0 + Inst2(IChoice, 0, 0) + c1 + Inst2(ICommit, 0, 0);
            var s2 := Patch(s1, |a| + |t0|, |s1|);
            var s3 := Patch(s2, if accepts then NOINST else |a|, |s2|) + c2;
            Patch(s3, |s1| - 2, |s3|)
            == a + (GenTest(cs1, accepts, TestLen(cs1, accepts) + 2 + |c1| + 2)
                    + Inst2(IChoice, 0, 2 + |c1| + 2) + c1 + Inst2(ICommit, 0, 2 + |c2|) + c2)
  {
    hide TestLen, GenTest, Inst1, Inst2, Patch;
    var t0 := GenTest(cs1, accepts, 0);
    var k0 := Inst2(ICommit, 0, 0);
    var s1 := a + t0 + Inst2(IChoice, 0, 0) + c1 + k0;
    assert s1 == (a + t0) + Inst2(IChoice, 0, 0) + (c1 + k0);
    PatchInst2(a + t0, IChoice, 0, c1 + k0, |s1|);
    var ch := Inst2(IChoice, 0, 2 + |c1| + 2);
    var s2 := Patch(s1, |a| + |t0|, |s1|);
    assert s2 == a + t0 + (ch + c1 + k0);
    PatchTest(a, cs1, accepts, ch + c1 + k0, |s2|);
    var t := GenTest(cs1, accepts, |s1| - |a|);
    var s3 := Patch(s2, if accepts then NOINST else |a|, |s2|) + c2;
    assert s3 == (a + t + ch + c1) + k0 + c2;
    PatchInst2(a + t + ch + c1, ICommit, 0, c2, |s3|);
  }

  lemma PatchesChoiceDefault(a: seq<Slot>, p1: Tree, p2: Tree, opt: bool, fl: Charset)
    requires !ChoiceByTest(p1, p2, fl) && !(opt && p2.TTrue?)
    ensures var f1 := GetFirst(p1, FULL_SET);
            var t0 := GenTest(f1.set_, f1.accepts, 0);
            var c1 := Gen(p1, p2.TTrue?, TestOf(f1.set_, f1.accepts), FULL_SET);
            var s1 := a + t0 + Inst2(IChoice, 0, 0) + c1 + Inst2(ICommit, 0, 0);
            var s2 := Patch(s1, |a| + |t0|, |s1|);
            var s3 := Patch(s2, if f1.accepts then NOINST else |a|, |s2|) + Gen(p2, opt, NoTest, fl);
            Patch(s3, |s1| - 2, |s3|) == a + GenChoice(p1, p2, opt, fl)
  {
    hide Patch, GenTest, TestLen, Inst1, Inst2, GetFirst, ChoiceByTest;
    var f1 := GetFirst(p1, FULL_SET);
    PatchesChoice(a, f1.set_, f1.accepts, Gen(p1, p2.TTrue?, TestOf(f1.set_, f1.accepts), FULL_SET),
                  Gen(p2, opt, NoTest, fl));
  }

  lemma PatchesRepChoice(a: seq<Slot>, p: Tree, opt: bool, fl: Charset)
    requires ToCharset(p).None? && !RepByTest(p, fl)
    ensures var f := GetFirst(p, FULL_SET);
            var t0 := GenTest(f.set_, f.accepts, 0);
            var s0 := a + t0 + (if opt then Inst2(IPartialCommit, 0, 2) else Inst2(IChoice, 0, 0));
            var s1 := s0 + Gen(p, false, NoTest, FULL_SET) + Inst2(IPartialCommit, 0, 0);
            var s2 := Patch(s1, |s1| - 2, |s0|);
            var s3 := Patch(s2, if opt then NOINST else |s0| - 2, |s2|);
            Patch(s3, if f.accepts then NOINST else |a|, |s3|) == a + GenRep(p, opt, fl)
  {
    hide Patch, GenTest, TestLen, Inst1, Inst2, GetFirst, RepByTest;
    var f := GetFirst(p, FULL_SET);
    PatchesRep(a, f.set_, f.accepts, Gen(p, false, NoTest, FULL_SET), opt);
  }

  lemma PatchesRepTest(a: seq<Slot>, cs: Charset, c: seq<Slot>)
    ensures var n := TestLen(cs, false) + |c|;
            var s1 := a + GenTest(cs, false, 0) + c + Inst2(IJmp, 0, 0);
            Patch(Patch(s1, |a|, |s1|), |s1| - 2, |a|)
            == a + (GenTest(cs, false, n + 2) + c + Inst2(IJmp, 0, -n))
  {
    hide TestLen, GenTest, Inst1, Inst2, Patch;
    var s1 := a + GenTest(cs, false, 0) + c + Inst2(IJmp, 0, 0);
    assert s1 == a + GenTest(cs, false, 0) + (c + Inst2(IJmp, 0, 0));
    PatchTest(a, cs, false, c + Inst2(IJmp, 0, 0), |s1|);
    var t := GenTest(cs, false, |s1| - |a|);
    assert Patch(s1, |a|, |s1|) == (a + t + c) + Inst2(IJmp, 0, 0) + [];
    PatchInst2(a + t + c, IJmp, 0, [], |a|);
  }

  lemma PatchesRep(a: seq<Slot>, cs: Charset, accepts: bool, c: seq<Slot>, opt: bool)
    ensures var t0 := GenTest(cs, accepts, 0);
            var s0 := a + t0 + (if opt then Inst2(IPartialCommit, 0, 2) else Inst2(IChoice, 0, 0));
            var s1 := s0 + c + Inst2(IPartialCommit, 0, 0);
            var s2 := Patch(s1, |s1| - 2, |s0|);
            var s3 := Patch(s2, if opt then NOINST else |s0| - 2, |s2|);
            Patch(s3, if accepts then NOINST else |a|, |s3|)
            == a + (GenTest(cs, accepts, TestLen(cs, accepts) + 2 + |c| + 2)
                    + (if opt then Inst2(IPartialCommit, 0, 2) else Inst2(IChoice, 0, 2 + |c| + 2))
                    + c + Inst2(IPartialCommit, 0, -|c|))
  {
    hide TestLen, GenTest, Inst1, Inst2, Patch;
    var t0 := GenTest(cs, accepts, 0);
    var e0 := if opt then Inst2(IPartialCommit, 0, 2) else Inst2(IChoice, 0, 0);
    var s0 := a + t0 + e0;
    var s1 := s0 + c + Inst2(IPartialCommit, 0, 0);
    assert s1 == (a + t0 + e0 + c) + Inst2(IPartialCommit, 0, 0) + [];
    PatchInst2(a + t0 + e0 + c, IPartialCommit, 0, [], |s0|);
    var k := Inst2(IPartialCommit, 0, -|c|);
    var s2 := Patch(s1, |s1| - 2, |s0|);
    assert s2 == (a + t0) + e0 + (c + k);
    if opt { PatchNone(s2, |s2|); } else { PatchInst2(a + t0, IChoice, 0, c + k, |s2|); }
    var s3 := Patch(s2, if opt then NOINST else |s0| - 2, |s2|);
    var e := if opt then Inst2(IPartialCommit, 0, 2) else Inst2(IChoice, 0, 2 + |c| + 2);
    assert s3 == a + t0 + (e + c + k);
    PatchTest(a, cs, accepts, e + c + k, |s3|);
  }

  lemma PatchesNot(a: seq<Slot>, cs: Charset, accepts: bool, c: seq<Slot>)
    ensures var t0 := GenTest(cs, accepts, 0);
            var s1 := a + t0 + Inst2(IChoice, 0, 0) + c + Inst1(IFailTwice, 0);
            var s2 := Patch(s1, |a| + |t0|, |s1|);
            Patch(s2, if accepts then NOINST else |a|, |s2|)
            == a + (GenTest(cs, accepts, TestLen(cs, accepts) + 2 + |c| + 1)
                    + Inst2(IChoice, 0, 2 + |c| + 1) + c + Inst1(IFailTwice, 0))
  {
    hide TestLen, GenTest, Inst1, Inst2, Patch;
    var t0 := GenTest(cs, accepts, 0);
    var f := Inst1(IFailTwice, 0);
    var s1 := a + t0 + Inst2(IChoice, 0, 0) + c + f;
    assert s1 == (a + t0) + Inst2(IChoice, 0, 0) + (c + f);
    PatchInst2(a + t0, IChoice, 0, c + f, |s1|);
    var ch := Inst2(IChoice, 0, 2 + |c| + 1);
    var s2 := Patch(s1, |a| + |t0|, |s1|);
    assert s2 == a + t0 + (ch + c + f);
    PatchTest(a, cs, accepts, ch + c + f, |s2|);
  }

  lemma PatchesNotTest(a: seq<Slot>, cs: Charset, accepts: bool)
    ensures var s1 := a + GenTest(cs, accepts, 0) + Inst1(IFail, 0);
            Patch(s1, if accepts then NOINST else |a|, |s1|)
            == a + (GenTest(cs, accepts, TestLen(cs, accepts) + 1) + Inst1(IFail, 0))
  {
    hide TestLen, GenTest, Inst1, Inst2, Patch;
    var s1 := a + GenTest(cs, accepts, 0) + Inst1(IFail, 0);
    PatchTest(a, cs, accepts, Inst1(IFail, 0), |s1|);
  }

  lemma PatchesAnd(a: seq<Slot>, c: seq<Slot>)
    ensures var s1 := a + Inst2(IChoice, 0, 0) + c + Inst2(IBackCommit, 0, 0);
            var s2 := Patch(s1, |a|, |s1|) + Inst1(IFail, 0);
            Patch(s2, |s1| - 2, |s2|)
            == a + (Inst2(IChoice, 0, 2 + |c| + 2) + c + Inst2(IBackCommit, 0, 3) + Inst1(IFail, 0))
  {
    hide Inst1, Inst2, Patch;
    var k0 := Inst2(IBackCommit, 0, 0);
    var s1 := a + Inst2(IChoice, 0, 0) + c + k0;
    assert s1 == a + Inst2(IChoice, 0, 0) + (c + k0);
    PatchInst2(a, IChoice, 0, c + k0, |s1|);
    var ch := Inst2(IChoice, 0, 2 + |c| + 2);
    var s2 := Patch(s1, |a|, |s1|) + Inst1(IFail, 0);
    assert s2 == (a + ch + c) + k0 + Inst1(IFail, 0);
    PatchInst2(a + ch + c, IBackCommit, 0, Inst1(IFail, 0), |s2|);
  }

  /** tt is NOINST or the address of a complete instruction. */
  predicate ValidTest(code: seq<Slot>, tt: int)
  {
    tt == NOINST || InstAt(code, tt)
  }

  lemma TestAtEnd(a: seq<Slot>, cs: Charset, accepts: bool)
    ensures var tt := if accepts then NOINST else |a|;
            var code := a + GenTest(cs, accepts, 0);
            ValidTest(code, tt) && TestAt(code, tt) == TestOf(cs, accepts)
  {
    if !accepts {
      var code := a + GenTest(cs, accepts, 0);
      var t := GenTest(cs, accepts, 0);
      assert code[|a|] == t[0] && code[|a| + 1] == t[1];
      if CharsetType(cs).GenericSet? { assert code[|a| + 2] == t[2]; }
    }
  }

  lemma TestAtNone()
    ensures forall code: seq<Slot> :: TestAt(code, NOINST) == NoTest
  {
  }

  /** Appending code does not change what a test that is already there says. */
  lemma TestAtKept(code: seq<Slot>, more: seq<Slot>, tt: int)
    requires ValidTest(code, tt)
    ensures ValidTest(code + more, tt) && TestAt(code + more, tt) == TestAt(code, tt)
  {
  }

  class CompileState {
    /** the code array up to its first free slot */
    var code: seq<Slot>

    constructor ()
      ensures code == []
    {
      code := [];
    }

    method AddInstruction(op: Opcode, aux: int) returns (i: int)
      modifies this`code
      ensures i == |old(code)| && code == old(code) + Inst1(op, aux)
    {
      i := |code|;
      code := code + [Inst(op, aux)];
    }

    /** Add an instruction followed by an offset to be set later. */
    method AddOffsetInst(op: Opcode, aux: int) returns (i: int)
      modifies this`code
      ensures i == |old(code)| && code == old(code) + Inst2(op, aux, 0)
    {
      i := AddInstruction(op, aux);
      code := code + [Off(0)];
    }

    method JumpToThere(i: int, target: int)
      requires i < 0 || i + 1 < |code|
      modifies this`code
      ensures code == Patch(old(code), i, target)
    {
      if i >= 0 {
        code := code[i + 1 := Off(target - i)];
      }
    }

    method JumpToHere(i: int)
      requires i < 0 || i + 1 < |code|
      modifies this`code
      ensures code == Patch(old(code), i, |old(code)|)
    {
      JumpToThere(i, |code|);
    }

    method AddCharset(cs: Charset)
      modifies this`code
      ensures code == old(code) + [Buf(cs)] + Padding()
    {
      code := code + [Buf(cs)];
      for k := 0 to CHARSETSLOTS - 1
        invariant code == old(code) + [Buf(cs)] + Padding()[..k]
      {
        code := code + [Pad];
      }
    }

    method CodeChar(c: Byte, tt: int)
      modifies this`code
      ensures code == old(code) + GenChar(c, TestAt(old(code), tt))
    {
      if TestAt(code, tt) == TestChar(c) {
        var _ := AddInstruction(IAny, 0);
      } else {
        var _ := AddInstruction(IChar, c as int);
      }
    }

    method CodeCharset(cs: Charset, tt: int)
      modifies this`code
      ensures code == old(code) + GenCharset(cs, TestAt(old(code), tt))
    {
      match CharsetType(cs) {
        case SingleSet(c) => CodeChar(c, tt);
        case GenericSet =>
          if TestAt(code, tt) == TestSet(cs) {
            var _ := AddInstruction(IAny, 0);
          } else {
            var _ := AddInstruction(ISet, 0);
            AddCharset(cs);
          }
        case EmptySet => var _ := AddInstruction(IFail, 0);
        case FullSet => var _ := AddInstruction(IAny, 0);
      }
    }

    /** A test with its target still open; NOINST when the pattern accepts the empty string. */
    method CodeTestset(cs: Charset, accepts: bool) returns (i: int)
      modifies this`code
      ensures i == if accepts then NOINST else |old(code)|
      ensures i < 0 || i + 1 < |code|
      ensures code == old(code) + GenTest(cs, accepts, 0)
    {
      if accepts {
        return NOINST;
      }
      match CharsetType(cs) {
        case EmptySet => i := AddOffsetInst(IJmp, 0);
        case FullSet => i := AddOffsetInst(ITestAny, 0);
        case SingleSet(c) => i := AddOffsetInst(ITestChar, c as int);
        case GenericSet =>
          i := AddOffsetInst(ITestSet, 0);
          AddCharset(cs);
      }
    }

    /** p1? inside an optional pattern reuses the choice that is already on the stack. */
    method CodeChoice(p1: Tree, p2: Tree, opt: bool, fl: Charset)
      modifies this`code
      ensures code == old(code) + GenChoice(p1, p2, opt, fl)
      decreases TChoice(p1, p2), 1
    {
      hide GetFirst, CheckAux, HeadFail, Gen, GenTest, TestLen, TestOf, ChoiceByTest;
      if ChoiceByTest(p1, p2, fl) {
        CodeChoiceTest(p1, p2, opt, fl);
      } else if opt && p2.TTrue? {
        var here := AddOffsetInst(IPartialCommit, 0);
        PatchInst2(old(code), IPartialCommit, 0, [], |code|);
        assert code == old(code) + Inst2(IPartialCommit, 0, 0) + [];
        JumpToHere(here);
        CodeGen(p1, true, NOINST, FULL_SET);
      } else {
        CodeChoiceDefault(p1, p2, opt, fl);
      }
    }

    method CodeChoiceTest(p1: Tree, p2: Tree, opt: bool, fl: Charset)
      requires ChoiceByTest(p1, p2, fl)
      modifies this`code
      ensures code == old(code) + GenChoice(p1, p2, opt, fl)
      decreases TChoice(p1, p2), 0
    {
      hide GenChoice, GetFirst, Gen, GenTest, TestLen, TestOf, ChoiceByTest, Patch, Inst1, Inst2, HeadFail, CheckAux, TestAt;
      var cs1 := GetFirst(p1, FULL_SET).set_;
      var test := CodeTestset(cs1, false);
      TestAtEnd(old(code), cs1, false);
      CodeGen(p1, false, test, fl);
      var jmp := NOINST;
      if !p2.TTrue? {
        jmp := AddOffsetInst(IJmp, 0);
      }
      JumpToHere(test);
      TestAtNone();
      CodeGen(p2, opt, NOINST, fl);
      JumpToHere(jmp);
      PatchesChoiceTest(old(code), p1, p2, opt, fl);
    }

    method CodeChoiceDefault(p1: Tree, p2: Tree, opt: bool, fl: Charset)
      requires !ChoiceByTest(p1, p2, fl) && !(opt && p2.TTrue?)
      modifies this`code
      ensures code == old(code) + GenChoice(p1, p2, opt, fl)
      decreases TChoice(p1, p2), 0
    {
      hide GenChoice, GetFirst, Gen, GenTest, TestLen, TestOf, ChoiceByTest, Patch, Inst1, Inst2, HeadFail, CheckAux, TestAt;
      var f1 := GetFirst(p1, FULL_SET);
      var test := CodeTestset(f1.set_, f1.accepts);
      var pchoice := AddOffsetInst(IChoice, 0);
      TestAtEnd(old(code), f1.set_, f1.accepts);
      TestAtKept(old(code) + GenTest(f1.set_, f1.accepts, 0), Inst2(IChoice, 0, 0), test);
      CodeGen(p1, p2.TTrue?, test, FULL_SET);
      var pcommit := AddOffsetInst(ICommit, 0);
      JumpToHere(pchoice);
      JumpToHere(test);
      CodeGen(p2, opt, NOINST, fl);
      JumpToHere(pcommit);
      TestAtNone();
      PatchesChoiceDefault(old(code), p1, p2, opt, fl);
    }

    method CodeRep(p: Tree, opt: bool, fl: Charset)
      modifies this`code
      ensures code == old(code) + GenRep(p, opt, fl)
      decreases TRep(p), 1
    {
      if ToCharset(p).Some? {
        var _ := AddInstruction(ISpan, 0);
        AddCharset(ToCharset(p).value);
      } else if RepByTest(p, fl) {
        CodeRepTest(p, opt, fl);
      } else {
        CodeRepChoice(p, opt, fl);
      }
    }

    method CodeRepTest(p: Tree, opt: bool, fl: Charset)
      requires ToCharset(p).None? && RepByTest(p, fl)
      modifies this`code
      ensures code == old(code) + GenRep(p, opt, fl)
      decreases TRep(p), 0
    {
      hide GetFirst, Gen, GenTest, TestLen, TestOf, RepByTest, Patch, Inst1, Inst2, HeadFail, CheckAux, TestAt;
      var cs := GetFirst(p, FULL_SET).set_;
      var test := CodeTestset(cs, false);
      TestAtEnd(old(code), cs, false);
      CodeGen(p, false, test, FULL_SET);
      var jmp := AddOffsetInst(IJmp, 0);
      JumpToHere(test);
      JumpToThere(jmp, test);
      PatchesRepTest(old(code), cs, Gen(p, false, TestOf(cs, false), FULL_SET));
    }

    /** Reuse the choice of the enclosing optional pattern or push one for the loop. */
    method EnterRep(opt: bool) returns (pchoice: int)
      modifies this`code
      ensures pchoice == if opt then NOINST else |old(code)|
      ensures code == old(code) + (if opt then Inst2(IPartialCommit, 0, 2) else Inst2(IChoice, 0, 0))
    {
      pchoice := NOINST;
      if opt {
        var here := AddOffsetInst(IPartialCommit, 0);
        assert code == old(code) + Inst2(IPartialCommit, 0, 0) + [];
        PatchInst2(old(code), IPartialCommit, 0, [], |code|);
        JumpToHere(here);
      } else {
        pchoice := AddOffsetInst(IChoice, 0);
      }
    }

    method CodeRepChoice(p: Tree, opt: bool, fl: Charset)
      requires ToCharset(p).None? && !RepByTest(p, fl)
      modifies this`code
      ensures code == old(code) + GenRep(p, opt, fl)
      decreases TRep(p), 0
    {
      hide GenRep, GetFirst, Gen, GenTest, TestLen, TestOf, RepByTest, Patch, Inst1, Inst2, HeadFail, CheckAux, TestAt;
      var f := GetFirst(p, FULL_SET);
      var test := CodeTestset(f.set_, f.accepts);
      var pchoice := EnterRep(opt);
      var l2 := |code|;
      TestAtNone();
      CodeGen(p, false, NOINST, FULL_SET);
      var commit := AddOffsetInst(IPartialCommit, 0);
      JumpToThere(commit, l2);
      JumpToHere(pchoice);
      JumpToHere(test);
      PatchesRepChoice(old(code), p, opt, fl);
    }

    method CodeNot(p: Tree)
      modifies this`code
      ensures code == old(code) + GenNot(p)
      decreases TNot(p), 0
    {
      hide GetFirst, Gen, GenTest, TestLen, Patch, TestAt, HeadFail;
      var f := GetFirst(p, FULL_SET);
      var test := CodeTestset(f.set_, f.accepts);
      if HeadFail(p) {
        var _ := AddInstruction(IFail, 0);
        JumpToHere(test);
        PatchesNotTest(old(code), f.set_, f.accepts);
      } else {
        var pchoice := AddOffsetInst(IChoice, 0);
        CodeGen(p, false, NOINST, FULL_SET);
        var _ := AddInstruction(IFailTwice, 0);
        JumpToHere(pchoice);
        JumpToHere(test);
        TestAtNone();
        PatchesNot(old(code), f.set_, f.accepts, Gen(p, false, NoTest, FULL_SET));
      }
    }

    method CodeAnd(p: Tree, tt: int)
      requires ValidTest(code, tt)
      modifies this`code
      ensures code == old(code) + GenAnd(p, TestAt(old(code), tt))
      decreases TAnd(p), 0
    {
      hide GetFirst, Gen, Patch, TestAt, FixedLen;
      var n := FixedLen(p);
      if 0 <= n <= MAXBEHIND {
        CodeGen(p, false, tt, FULL_SET);
        if n > 0 {
          var _ := AddInstruction(IBehind, n);
        }
      } else {
        var pchoice := AddOffsetInst(IChoice, 0);
        TestAtKept(old(code), Inst2(IChoice, 0, 0), tt);
        CodeGen(p, false, tt, FULL_SET);
        var pcommit := AddOffsetInst(IBackCommit, 0);
        JumpToHere(pchoice);
        var _ := AddInstruction(IFail, 0);
        JumpToHere(pcommit);
        PatchesAnd(old(code), Gen(p, false, TestAt(old(code), tt), FULL_SET));
      }
    }

    /** First part of a sequence; returns the test that still dominates the second part. */
    method CodeSeq1(p1: Tree, p2: Tree, tt: int, fl: Charset) returns (tt2: int)
      requires ValidTest(code, tt)
      modifies this`code
      ensures code == old(code) + Gen(p1, false, TestAt(old(code), tt), SeqFollow(p1, p2, fl))
      ensures tt2 == if FixedLen(p1) != 0 then NOINST else tt
      decreases TSeq(p1, p2), 0
    {
      if NeedFollow(p1) {
        CodeGen(p1, false, tt, GetFirst(p2, fl).set_);
      } else {
        CodeGen(p1, false, tt, FULL_SET);
      }
      tt2 := if FixedLen(p1) != 0 then NOINST else tt;
    }

    method CodeGen(t: Tree, opt: bool, tt: int, fl: Charset)
      requires ValidTest(code, tt)
      modifies this`code
      ensures code == old(code) + Gen(t, opt, TestAt(old(code), tt), fl)
      decreases t, 2
    {
      hide GenChoice, GenRep, GenNot, GenAnd, GenChar, GenCharset, FixedLen, GetFirst, TestAt;
      TestAtNone();
      match t {
        case TChar(c) => CodeChar(c, tt);
        case TAny => var _ := AddInstruction(IAny, 0);
        case TSet(cs) => CodeCharset(cs, tt);
        case TTrue =>
        case TFalse => var _ := AddInstruction(IFail, 0);
        case TChoice(p1, p2) => CodeChoice(p1, p2, opt, fl);
        case TRep(p) => CodeRep(p, opt, fl);
        case TBehind(p, n) =>
          if n > 0 {
            var _ := AddInstruction(IBehind, n);
          }
          CodeGen(p, false, NOINST, FULL_SET);
        case TNot(p) => CodeNot(p);
        case TAnd(p) => CodeAnd(p, tt);
        case TSeq(p1, p2) =>
          var tt2 := CodeSeq1(p1, p2, tt, fl);
          TestAtKept(old(code), Gen(p1, false, TestAt(old(code), tt), SeqFollow(p1, p2, fl)), tt);
          CodeGen(p2, opt, tt2, fl);
      }
    }
  }
}
