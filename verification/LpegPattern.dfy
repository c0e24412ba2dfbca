/** The compiler as a whole: from a pattern to a match. */
module LpegPattern {
  import opened LpegTree
  import opened LpegVm
  import opened LpegGen
  import opened LpegLayout
  import opened LpegCompiler
  import opened LpegSim
  import opened LpegPeephole

  /** Compile a pattern. The code that results, every optimisation included, decides every
      subject from every position exactly as the PEG does. */
  method Compile(t: Tree) returns (code: seq<Slot>)
    requires WellFormed(t)
    ensures forall s: seq<Byte>, i: nat :: i <= |s| ==> Reach(code, s, Initial(i), Outcome(Match(t, s, i)))
    ensures Optimized(Program(t), code, |code|)
  {
    hide Reach, Closed, Refines, Optimized, Match, Gen, TestAt;
    var cs := new CompileState();
    TestAtNone();
    cs.CodeGen(t, false, NOINST, FULL_SET);
    var _ := cs.AddInstruction(IEnd, 0);
    assert cs.code == Program(t);
    ProgramClosed(t);
    Peephole(cs);
    code := cs.code;
    forall s: seq<Byte>, i: nat | i <= |s|
      ensures Reach(code, s, Initial(i), Outcome(Match(t, s, i)))
    {
      ProgramCorrect(t, s, i);
      PeepholeCorrect(Program(t), code, s, i, Outcome(Match(t, s, i)));
    }
  }

  /** Compile and run: the interpreter terminates and returns what the PEG semantics says. */
  method MatchPattern(t: Tree, s: seq<Byte>, start: nat) returns (r: Option<nat>)
    requires WellFormed(t) && start <= |s|
    ensures r == Match(t, s, start)
  {
    hide Reach, Match;
    var code := Compile(t);
    ghost var h := Outcome(Match(t, s, start));
    assert Halted(h) && Reach(code, s, Initial(start), h);
    r := Interpret(code, s, start);
    HaltUnique(code, s, Initial(start), Outcome(r), h);
  }
}
