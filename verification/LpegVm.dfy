/** The LPeg backtracking machine. */
module LpegVm {
  // Code slots, one transition per opcode, and the interpreter loop proved against the transition
  // function.

  import opened LpegTree

  datatype Opcode =
    | IAny | IChar | ISet | ITestAny | ITestChar | ITestSet | ISpan | IBehind
    | IEnd | IChoice | IJmp | ICommit | IPartialCommit | IBackCommit | IFailTwice | IFail

  /** One element of the code array: an instruction head, a relative offset, or a part of a
      charset buffer (the set sits in the first of its slots, the others are padding). */
  datatype Slot = Inst(op: Opcode, aux: int) | Off(offset: int) | Buf(cs: Charset) | Pad

  /** slots a 32-byte charset occupies */
  const CHARSETSLOTS := 8
  /** address that stands for the separate 'giveup' instruction */
  const GIVEUP := -1

  predicate HasLabel(op: Opcode)
  {
    op in {ITestAny, ITestChar, ITestSet, IChoice, IJmp, ICommit, IPartialCommit, IBackCommit}
  }

  function SizeI(op: Opcode): (n: nat)
    ensures n >= 1
  {
    match op
    case ISet => CHARSETSLOTS + 1
    case ISpan => CHARSETSLOTS + 1
    case ITestSet => CHARSETSLOTS + 2
    case _ => if HasLabel(op) then 2 else 1
  }

  /** A complete instruction starts at address p: its head and every operand slot it reads. */
  predicate InstAt(code: seq<Slot>, p: int)
  {
    && 0 <= p < |code|
    && code[p].Inst?
    && (HasLabel(code[p].op) ==> p + 1 < |code| && code[p + 1].Off?)
    && (code[p].op in {ISet, ISpan} ==> p + 1 < |code| && code[p + 1].Buf?)
    && (code[p].op == ITestSet ==> p + 2 < |code| && code[p + 2].Buf?)
    && (code[p].op == IBehind ==> code[p].aux >= 0)
  }

  function Target(code: seq<Slot>, p: int): int
    requires InstAt(code, p) && HasLabel(code[p].op)
  {
    p + code[p + 1].offset
  }

  /** A backtrack entry: where to resume and at which subject position. */
  datatype Entry = Entry(p: int, i: nat)

  datatype State =
    | Run(p: int, i: nat, stack: seq<Entry>)
    | Matched(end: nat)
    | GaveUp
    | Stuck

  function Fail(stack: seq<Entry>): State
  {
    if stack == [] then Stuck
    else Run(stack[|stack| - 1].p, stack[|stack| - 1].i, stack[..|stack| - 1])
  }

  /** First position at or after i whose character is not in cs. */
  function SpanEnd(cs: Charset, s: seq<Byte>, i: nat): (j: nat)
    requires i <= |s|
    ensures i <= j <= |s|
    ensures forall k :: i <= k < j ==> s[k] in cs
    ensures j < |s| ==> s[j] !in cs
    decreases |s| - i
  {
    if i < |s| && s[i] in cs then SpanEnd(cs, s, i + 1) else i
  }

  /** One instruction. Undefined behaviour of the machine (running into an operand slot,
      popping an empty stack, a failed assertion) is the state Stuck. */
  function Step(code: seq<Slot>, s: seq<Byte>, st: State): State
  {
    if !st.Run? then st
    else if st.p == GIVEUP then (if st.stack == [] then GaveUp else Stuck)
    else if !InstAt(code, st.p) || st.i > |s| then Stuck
    else
      var p, i, stk := st.p, st.i, st.stack;
      var n := |stk|;
      match code[p].op
      case IEnd => if n == 1 then Matched(i) else Stuck
      case IAny => if i < |s| then Run(p + 1, i + 1, stk) else Fail(stk)
      case ITestAny => if i < |s| then Run(p + 2, i, stk) else Run(Target(code, p), i, stk)
      case IChar => if i < |s| && s[i] as int == code[p].aux then Run(p + 1, i + 1, stk) else Fail(stk)
      case ITestChar =>
        if i < |s| && s[i] as int == code[p].aux then Run(p + 2, i, stk) else Run(Target(code, p), i, stk)
      case ISet =>
        if i < |s| && s[i] in code[p + 1].cs then Run(p + 1 + CHARSETSLOTS, i + 1, stk) else Fail(stk)
      case ITestSet =>
        if i < |s| && s[i] in code[p + 2].cs then Run(p + 2 + CHARSETSLOTS, i, stk)
        else Run(Target(code, p), i, stk)
      case IBehind => if code[p].aux > i then Fail(stk) else Run(p + 1, i - code[p].aux, stk)
      case ISpan => Run(p + 1 + CHARSETSLOTS, SpanEnd(code[p + 1].cs, s, i), stk)
      case IJmp => Run(Target(code, p), i, stk)
      case IChoice => Run(p + 2, i, stk + [Entry(Target(code, p), i)])
      case ICommit => if n == 0 then Stuck else Run(Target(code, p), i, stk[..n - 1])
      case IPartialCommit =>
        if n == 0 then Stuck else Run(Target(code, p), i, stk[..n - 1] + [Entry(stk[n - 1].p, i)])
      case IBackCommit => if n == 0 then Stuck else Run(Target(code, p), stk[n - 1].i, stk[..n - 1])
      case IFailTwice => if n == 0 then Stuck else Fail(stk[..n - 1])
      case IFail => Fail(stk)
  }

  /** n instructions */
  ghost function Steps(code: seq<Slot>, s: seq<Byte>, st: State, n: nat): State
    decreases n
  {
    if n == 0 then st else Steps(code, s, Step(code, s, st), n - 1)
  }

  ghost predicate Reach(code: seq<Slot>, s: seq<Byte>, x: State, y: State)
  {
    exists n: nat :: Steps(code, s, x, n) == y
  }

  lemma {:induction false} StepsAdd(code: seq<Slot>, s: seq<Byte>, x: State, m: nat, n: nat)
    ensures Steps(code, s, x, m + n) == Steps(code, s, Steps(code, s, x, m), n)
    decreases m
  {
    if m > 0 { StepsAdd(code, s, Step(code, s, x), m - 1, n); }
  }

  lemma ReachTrans(code: seq<Slot>, s: seq<Byte>, x: State, y: State, z: State)
    requires Reach(code, s, x, y) && Reach(code, s, y, z)
    ensures Reach(code, s, x, z)
  {
    var m: nat :| Steps(code, s, x, m) == y;
    var n: nat :| Steps(code, s, y, n) == z;
    StepsAdd(code, s, x, m, n);
  }

  lemma ReachRefl(code: seq<Slot>, s: seq<Byte>, x: State)
    ensures Reach(code, s, x, x)
  {
    assert Steps(code, s, x, 0) == x;
  }

  /** Take one instruction, then whatever was already known. */
  lemma ReachStep(code: seq<Slot>, s: seq<Byte>, x: State, y: State)
    requires Reach(code, s, Step(code, s, x), y)
    ensures Reach(code, s, x, y)
  {
    var n: nat :| Steps(code, s, Step(code, s, x), n) == y;
    assert Steps(code, s, x, n + 1) == y;
  }

  lemma Reach1(code: seq<Slot>, s: seq<Byte>, x: State)
    ensures Reach(code, s, x, Step(code, s, x))
  {
    ReachRefl(code, s, Step(code, s, x));
    ReachStep(code, s, x, Step(code, s, x));
  }

  /** The machine halts, by reaching 'end of pattern' or by giving up. */
  predicate Halted(st: State) { st.Matched? || st.GaveUp? }

  function Initial(i: nat): State { Run(0, i, [Entry(GIVEUP, i)]) }

  function Outcome(r: Option<nat>): State
  {
    match r
    case None => GaveUp
    case Some(j) => Matched(j)
  }

  lemma {:induction false} HaltedStays(code: seq<Slot>, s: seq<Byte>, st: State, n: nat)
    requires !st.Run?
    ensures Steps(code, s, st, n) == st
  {
    if n > 0 { HaltedStays(code, s, st, n - 1); }
  }

  /** A halted state is reached by at most one outcome. */
  lemma HaltUnique(code: seq<Slot>, s: seq<Byte>, x: State, y: State, z: State)
    requires Reach(code, s, x, y) && Reach(code, s, x, z)
    requires !y.Run? && !z.Run?
    ensures y == z
  {
    var m: nat :| Steps(code, s, x, m) == y;
    var n: nat :| Steps(code, s, x, n) == z;
    StepsAdd(code, s, x, m, n);
    StepsAdd(code, s, x, n, m);
    HaltedStays(code, s, y, n);
    HaltedStays(code, s, z, m);
  }

  /** The body of the interpreter loop: execute the instruction at p. */
  method Execute(code: seq<Slot>, s: seq<Byte>, p: int, i: nat, stack: seq<Entry>)
    returns (ended: bool, p': int, i': nat, stack': seq<Entry>)
    requires p != GIVEUP && !Step(code, s, Run(p, i, stack)).Stuck?
    ensures Step(code, s, Run(p, i, stack)) == if ended then Matched(i') else Run(p', i', stack')
  {
    ended, p', i', stack' := false, p, i, stack;
    var failed := false;
    match code[p].op {
      case IEnd => ended := true;
      case IAny => if i < |s| { p', i' := p + 1, i + 1; } else { failed := true; }
      case ITestAny => p' := if i < |s| then p + 2 else p + code[p + 1].offset;
      case IChar =>
        if i < |s| && s[i] as int == code[p].aux { p', i' := p + 1, i + 1; } else { failed := true; }
      case ITestChar =>
        p' := if i < |s| && s[i] as int == code[p].aux then p + 2 else p + code[p + 1].offset;
      case ISet =>
        if i < |s| && s[i] in code[p + 1].cs { p', i' := p + 1 + CHARSETSLOTS, i + 1; } else { failed := true; }
      case ITestSet =>
        p' := if i < |s| && s[i] in code[p + 2].cs then p + 2 + CHARSETSLOTS else p + code[p + 1].offset;
      case IBehind =>
        if code[p].aux > i { failed := true; } else { p', i' := p + 1, i - code[p].aux; }
      case ISpan =>
        i' := Span(code[p + 1].cs, s, i);
        p' := p + 1 + CHARSETSLOTS;
      case IJmp => p' := p + code[p + 1].offset;
      case IChoice =>
        stack' := stack + [Entry(p + code[p + 1].offset, i)];
        p' := p + 2;
      case ICommit =>
        stack' := stack[..|stack| - 1];
        p' := p + code[p + 1].offset;
      case IPartialCommit =>
        stack' := stack[..|stack| - 1] + [Entry(stack[|stack| - 1].p, i)];
        p' := p + code[p + 1].offset;
      case IBackCommit =>
        i' := stack[|stack| - 1].i;
        stack' := stack[..|stack| - 1];
        p' := p + code[p + 1].offset;
      case IFailTwice =>
        stack' := stack[..|stack| - 1];
        failed := true;
      case IFail => failed := true;
    }
    if failed {
      p', i' := stack'[|stack'| - 1].p, stack'[|stack'| - 1].i;
      stack' := stack'[..|stack'| - 1];
    }
  }

  method Span(cs: Charset, s: seq<Byte>, start: nat) returns (i: nat)
    requires start <= |s|
    ensures i == SpanEnd(cs, s, start)
  {
    i := start;
    while i < |s| && s[i] in cs
      invariant start <= i <= |s|
      invariant SpanEnd(cs, s, i) == SpanEnd(cs, s, start)
    {
      i := i + 1;
    }
  }

  /** The interpreter loop: program counter, subject position and backtrack stack are
      updated instruction by instruction. It returns what the transition function reaches,
      for any code that halts on this subject. */
  method Interpret(code: seq<Slot>, s: seq<Byte>, start: nat) returns (r: Option<nat>)
    requires start <= |s|
    requires exists y :: Halted(y) && Reach(code, s, Initial(start), y)
    ensures Reach(code, s, Initial(start), Outcome(r))
  {
    var p: int, i: nat, stack := 0, start, [Entry(GIVEUP, start)];
    ghost var y :| Halted(y) && Reach(code, s, Initial(start), y);
    ghost var left: nat :| Steps(code, s, Initial(start), left) == y;
    ReachRefl(code, s, Initial(start));
    while p != GIVEUP
      invariant Steps(code, s, Run(p, i, stack), left) == y
      invariant Reach(code, s, Initial(start), Run(p, i, stack))
      decreases left
    {
      StepTowards(code, s, Initial(start), Run(p, i, stack), y, left);
      var ended;
      ended, p, i, stack := Execute(code, s, p, i, stack);
      if ended {
        return Some(i);
      }
      left := left - 1;
    }
    StepTowards(code, s, Initial(start), Run(p, i, stack), y, left);
    return None;
  }

  lemma StepTowards(code: seq<Slot>, s: seq<Byte>, first: State, here: State, y: State, left: nat)
    requires Halted(y) && here.Run? && Steps(code, s, here, left) == y
    requires Reach(code, s, first, here)
    ensures left > 0 && !Step(code, s, here).Stuck?
    ensures Reach(code, s, first, Step(code, s, here))
  {
    Reach1(code, s, here);
    ReachTrans(code, s, first, here, Step(code, s, here));
    if Step(code, s, here).Stuck? { HaltedStays(code, s, Stuck, left - 1); }
  }
}
