/** What the code generator emits. */
module LpegGen {
  // Offsets are relative, so a fragment means the same wherever it is placed. 'opt' says that
  // the fragment ends an optional pattern whose choice is on the stack, 'tt' is the test
  // instruction that dominates the fragment, and 'fl' is the first set of what follows it.

  import opened LpegTree
  import opened LpegVm

  datatype Test = NoTest | TestChar(c: Byte) | TestSet(cs: Charset)

  datatype SetKind = EmptySet | SingleSet(c: Byte) | FullSet | GenericSet

  function CharsetType(cs: Charset): (k: SetKind)
    ensures k.EmptySet? <==> cs == {}
    ensures k.SingleSet? ==> cs == {k.c}
    ensures k.FullSet? ==> cs == FULL_SET
    ensures k.GenericSet? ==> cs != FULL_SET && forall c :: cs != {c}
  {
    if cs == {} then EmptySet
    else if exists c :: cs == {c} then (var c :| cs == {c}; assert c in cs; SingleSet(c))
    else if cs == FULL_SET then FullSet
    else GenericSet
  }

  function Inst1(op: Opcode, aux: int): (frag: seq<Slot>)
    ensures |frag| == 1
  {
    [Inst(op, aux)]
  }

  function Inst2(op: Opcode, aux: int, offset: int): (frag: seq<Slot>)
    ensures |frag| == 2
  {
    [Inst(op, aux), Off(offset)]
  }

  function Padding(): (p: seq<Slot>)
    ensures |p| == CHARSETSLOTS - 1
    ensures forall k :: 0 <= k < |p| ==> p[k] == Pad
  {
    [Pad, Pad, Pad, Pad, Pad, Pad, Pad]
  }

  function SetInst(op: Opcode, cs: Charset): seq<Slot> { [Inst(op, 0), Buf(cs)] + Padding() }

  function GenChar(c: Byte, tt: Test): seq<Slot>
  {
    if tt == TestChar(c) then Inst1(IAny, 0) else Inst1(IChar, c as int)
  }

  function GenCharset(cs: Charset, tt: Test): seq<Slot>
  {
    match CharsetType(cs)
    case EmptySet => Inst1(IFail, 0)
    case FullSet => Inst1(IAny, 0)
    case SingleSet(c) => GenChar(c, tt)
    case GenericSet => if tt == TestSet(cs) then Inst1(IAny, 0) else SetInst(ISet, cs)
  }

  /** The test in front of a pattern with first set cs; none when the pattern may match
      the empty string. */
  function GenTest(cs: Charset, accepts: bool, offset: int): (code: seq<Slot>)
    ensures |code| == TestLen(cs, accepts)
  {
    if accepts then []
    else match CharsetType(cs)
      case EmptySet => Inst2(IJmp, 0, offset)
      case FullSet => Inst2(ITestAny, 0, offset)
      case SingleSet(c) => Inst2(ITestChar, c as int, offset)
      case GenericSet => [Inst(ITestSet, 0), Off(offset), Buf(cs)] + Padding()
  }

  function TestLen(cs: Charset, accepts: bool): nat
  {
    if accepts then 0 else if CharsetType(cs).GenericSet? then CHARSETSLOTS + 2 else 2
  }

  /** What later code can know from that test having let the subject through. */
  function TestOf(cs: Charset, accepts: bool): Test
  {
    if accepts then NoTest
    else match CharsetType(cs)
      case SingleSet(c) => TestChar(c)
      case GenericSet => TestSet(cs)
      case _ => NoTest
  }

  /** A choice needs only a test: p1 fails at its first character or not at all, or no
      character that starts p1 can start p2 and what follows. */
  predicate ChoiceByTest(p1: Tree, p2: Tree, fl: Charset)
  {
    var f1 := GetFirst(p1, FULL_SET);
    HeadFail(p1) || (!f1.accepts && f1.set_ !! GetFirst(p2, fl).set_)
  }

  predicate RepByTest(p: Tree, fl: Charset)
  {
    var f := GetFirst(p, FULL_SET);
    HeadFail(p) || (!f.accepts && f.set_ !! fl)
  }

  /** test -> L1; c1; jmp L2; L1: c2; L2: */
  function ChoiceTestCode(cs: Charset, c1: seq<Slot>, c2: seq<Slot>, emptyp2: bool): seq<Slot>
  {
    var jmp := if emptyp2 then [] else Inst2(IJmp, 0, 2 + |c2|);
    GenTest(cs, false, TestLen(cs, false) + |c1| + |jmp|) + c1 + jmp + c2
  }

  /** test -> L1; choice L1; c1; commit L2; L1: c2; L2: */
  function ChoiceCode(f: First, c1: seq<Slot>, c2: seq<Slot>): seq<Slot>
  {
    GenTest(f.set_, f.accepts, TestLen(f.set_, f.accepts) + 2 + |c1| + 2)
    + Inst2(IChoice, 0, 2 + |c1| + 2) + c1 + Inst2(ICommit, 0, 2 + |c2|) + c2
  }

  function GenChoice(p1: Tree, p2: Tree, opt: bool, fl: Charset): seq<Slot>
    decreases TChoice(p1, p2), 0
  {
    var f1 := GetFirst(p1, FULL_SET);
    var c2 := Gen(p2, opt, NoTest, fl);
    if ChoiceByTest(p1, p2, fl) then
      ChoiceTestCode(f1.set_, Gen(p1, false, TestOf(f1.set_, false), fl), c2, p2.TTrue?)
    else if opt && p2.TTrue? then
      Inst2(IPartialCommit, 0, 2) + Gen(p1, true, NoTest, FULL_SET)
    else
      ChoiceCode(f1, Gen(p1, p2.TTrue?, TestOf(f1.set_, f1.accepts), FULL_SET), c2)
  }

  function GenRep(p: Tree, opt: bool, fl: Charset): seq<Slot>
    decreases TRep(p), 0
  {
    var f := GetFirst(p, FULL_SET);
    if ToCharset(p).Some? then SetInst(ISpan, ToCharset(p).value)
    else if RepByTest(p, fl) then
      var c := Gen(p, false, TestOf(f.set_, false), FULL_SET);
      var n := TestLen(f.set_, false) + |c|;
      GenTest(f.set_, false, n + 2) + c + Inst2(IJmp, 0, -n)
    else
      var c := Gen(p, false, NoTest, FULL_SET);
      GenTest(f.set_, f.accepts, TestLen(f.set_, f.accepts) + 2 + |c| + 2)
      + (if opt then Inst2(IPartialCommit, 0, 2) else Inst2(IChoice, 0, 2 + |c| + 2))
      + c + Inst2(IPartialCommit, 0, -|c|)
  }

  function GenNot(p: Tree): seq<Slot>
    decreases TNot(p), 0
  {
    var f := GetFirst(p, FULL_SET);
    if HeadFail(p) then
      GenTest(f.set_, f.accepts, TestLen(f.set_, f.accepts) + 1) + Inst1(IFail, 0)
    else
      var c := Gen(p, false, NoTest, FULL_SET);
      GenTest(f.set_, f.accepts, TestLen(f.set_, f.accepts) + 2 + |c| + 1)
      + Inst2(IChoice, 0, 2 + |c| + 1) + c + Inst1(IFailTwice, 0)
  }

  function GenAnd(p: Tree, tt: Test): seq<Slot>
    decreases TAnd(p), 0
  {
    var n := FixedLen(p);
    var c := Gen(p, false, tt, FULL_SET);
    if 0 <= n <= MAXBEHIND then
      c + if n > 0 then Inst1(IBehind, n) else []
    else
      Inst2(IChoice, 0, 2 + |c| + 2) + c + Inst2(IBackCommit, 0, 3) + Inst1(IFail, 0)
  }

  /** Follow set handed to the first part of a sequence. */
  function SeqFollow(p1: Tree, p2: Tree, fl: Charset): Charset
  {
    if NeedFollow(p1) then GetFirst(p2, fl).set_ else FULL_SET
  }

  function Gen(t: Tree, opt: bool, tt: Test, fl: Charset): seq<Slot>
    decreases t, 1
  {
    match t
    case TChar(c) => GenChar(c, tt)
    case TAny => Inst1(IAny, 0)
    case TSet(cs) => GenCharset(cs, tt)
    case TTrue => []
    case TFalse => Inst1(IFail, 0)
    case TChoice(p1, p2) => GenChoice(p1, p2, opt, fl)
    case TRep(p) => GenRep(p, opt, fl)
    case TBehind(p, n) => (if n > 0 then Inst1(IBehind, n) else []) + Gen(p, false, NoTest, FULL_SET)
    case TNot(p) => GenNot(p)
    case TAnd(p) => GenAnd(p, tt)
    case TSeq(p1, p2) =>
      Gen(p1, false, tt, SeqFollow(p1, p2, fl))
      + Gen(p2, opt, if FixedLen(p1) != 0 then NoTest else tt, fl)
  }

  /** The whole program, before the jump peephole. */
  function Program(t: Tree): seq<Slot>
  {
    Gen(t, false, NoTest, FULL_SET) + Inst1(IEnd, 0)
  }
}
