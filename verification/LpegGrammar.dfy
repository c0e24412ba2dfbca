/** Grammars and termination. */
module LpegGrammar {
  // Rules that call each other, the two checks made when a grammar is built, and why they guarantee
  // that matching terminates.

  import opened LpegTree

  const MAXRULES := 250

  datatype Expr =
    | Class(cs: Charset)                 // a character, a set, any character
    | Empty
    | Never
    | Rep(e: Expr)
    | Seq(e1: Expr, e2: Expr)
    | Choice(e1: Expr, e2: Expr)
    | Not(e: Expr)
    | And(e: Expr)
    | Behind(body: Tree, n: nat)         // look-behind cannot have calls
    | Call(rule: nat)

  /** used[r]: some call refers to rule r, or r is the initial rule. */
  datatype Grammar = Grammar(rules: seq<Expr>, used: seq<bool>)

  /** Every call was resolved to an existing rule, which that marks as used. */
  predicate Resolved(g: Grammar, e: Expr)
  {
    match e
    case Call(r) => r < |g.rules| && r < |g.used| && g.used[r]
    case Rep(e1) => Resolved(g, e1)
    case Not(e1) => Resolved(g, e1)
    case And(e1) => Resolved(g, e1)
    case Seq(e1, e2) => Resolved(g, e1) && Resolved(g, e2)
    case Choice(e1, e2) => Resolved(g, e1) && Resolved(g, e2)
    case Behind(body, n) => WellFormed(TBehind(body, n))
    case _ => true
  }

  predicate ValidGrammar(g: Grammar)
  {
    |g.used| == |g.rules| && forall r :: 0 <= r < |g.rules| ==> Resolved(g, g.rules[r])
  }

  // ------------------------------------------------------------------ matching

  datatype Result = OutOfFuel | NoMatch | At(j: nat)

  /** PEG matching with a bound on the depth of the recursion. A match that does not terminate
      runs out of every amount of fuel. */
  function Eval(g: Grammar, e: Expr, s: seq<Byte>, i: nat, fuel: nat): (r: Result)
    requires ValidGrammar(g) && Resolved(g, e) && i <= |s|
    ensures r.At? ==> i <= r.j <= |s|
    decreases fuel
  {
    if fuel == 0 then OutOfFuel
    else match e
      case Class(cs) => if i < |s| && s[i] in cs then At(i + 1) else NoMatch
      case Empty => At(i)
      case Never => NoMatch
      case Behind(body, n) => if Match(TBehind(body, n), s, i).Some? then At(i) else NoMatch
      case Call(r) => Eval(g, g.rules[r], s, i, fuel - 1)
      case Seq(e1, e2) =>
        (match Eval(g, e1, s, i, fuel - 1)
         case At(j) => Eval(g, e2, s, j, fuel - 1)
         case r => r)
      case Choice(e1, e2) =>
        (match Eval(g, e1, s, i, fuel - 1)
         case NoMatch => Eval(g, e2, s, i, fuel - 1)
         case r => r)
      case Not(e1) =>
        (match Eval(g, e1, s, i, fuel - 1)
         case NoMatch => At(i)
         case At(_) => NoMatch
         case OutOfFuel => OutOfFuel)
      case And(e1) =>
        (match Eval(g, e1, s, i, fuel - 1)
         case At(_) => At(i)
         case r => r)
      case Rep(e1) =>
        (match Eval(g, e1, s, i, fuel - 1)
         case NoMatch => At(i)
         case At(j) => Eval(g, e, s, j, fuel - 1)
         case OutOfFuel => OutOfFuel)
  }

  lemma {:induction false} MoreFuel(g: Grammar, e: Expr, s: seq<Byte>, i: nat, fuel: nat, more: nat)
    requires ValidGrammar(g) && Resolved(g, e) && i <= |s| && fuel <= more
    requires !Eval(g, e, s, i, fuel).OutOfFuel?
    ensures Eval(g, e, s, i, more) == Eval(g, e, s, i, fuel)
    decreases fuel
  {
    match e
    case Call(r) => MoreFuel(g, g.rules[r], s, i, fuel - 1, more - 1);
    case Seq(e1, e2) =>
      MoreFuel(g, e1, s, i, fuel - 1, more - 1);
      var r := Eval(g, e1, s, i, fuel - 1);
      if r.At? { MoreFuel(g, e2, s, r.j, fuel - 1, more - 1); }
    case Choice(e1, e2) =>
      MoreFuel(g, e1, s, i, fuel - 1, more - 1);
      if Eval(g, e1, s, i, fuel - 1).NoMatch? { MoreFuel(g, e2, s, i, fuel - 1, more - 1); }
    case Not(e1) => MoreFuel(g, e1, s, i, fuel - 1, more - 1);
    case And(e1) => MoreFuel(g, e1, s, i, fuel - 1, more - 1);
    case Rep(e1) =>
      MoreFuel(g, e1, s, i, fuel - 1, more - 1);
      var r := Eval(g, e1, s, i, fuel - 1);
      if r.At? { MoreFuel(g, e, s, r.j, fuel - 1, more - 1); }
    case _ =>
  }

  /** An expression without calls as a tree, if it has no call. */
  function AsTree(e: Expr): Option<Tree>
  {
    match e
    case Class(cs) => Some(TSet(cs))
    case Empty => Some(TTrue)
    case Never => Some(TFalse)
    case Behind(body, n) => Some(TBehind(body, n))
    case Call(_) => None
    case Rep(e1) => var t := AsTree(e1); if t.None? then None else Some(TRep(t.value))
    case Not(e1) => var t := AsTree(e1); if t.None? then None else Some(TNot(t.value))
    case And(e1) => var t := AsTree(e1); if t.None? then None else Some(TAnd(t.value))
    case Seq(e1, e2) =>
      var t, u := AsTree(e1), AsTree(e2);
      if t.None? || u.None? then None else Some(TSeq(t.value, u.value))
    case Choice(e1, e2) =>
      var t, u := AsTree(e1), AsTree(e2);
      if t.None? || u.None? then None else Some(TChoice(t.value, u.value))
  }

  function Answer(o: Option<nat>): Result
  {
    match o
    case None => NoMatch
    case Some(j) => At(j)
  }

  /** Without calls this is the matching of trees. */
  lemma {:induction false} EvalIsMatch(g: Grammar, e: Expr, s: seq<Byte>, i: nat) returns (fuel: nat)
    requires ValidGrammar(g) && Resolved(g, e) && i <= |s| && AsTree(e).Some? && WellFormed(AsTree(e).value)
    ensures Eval(g, e, s, i, fuel) == Answer(Match(AsTree(e).value, s, i))
    decreases e, |s| - i
  {
    hide CheckAux, FixedLen, Eval, Match;
    fuel := 1;
    match e
    case Seq(e1, e2) =>
      fuel := EvalIsMatch(g, e1, s, i);
      var r := Eval(g, e1, s, i, fuel);
      var more := fuel;
      if r.At? { more := EvalIsMatch(g, e2, s, r.j); }
      fuel := Together(g, e1, s, i, fuel, e2, if r.At? then r.j else i, more, r.At?);
      SeqAnswer(g, e1, e2, s, i, fuel);
    case Choice(e1, e2) =>
      fuel := EvalIsMatch(g, e1, s, i);
      var r := Eval(g, e1, s, i, fuel);
      var more := fuel;
      if r.NoMatch? { more := EvalIsMatch(g, e2, s, i); }
      fuel := Together(g, e1, s, i, fuel, e2, i, more, r.NoMatch?);
      ChoiceAnswer(g, e1, e2, s, i, fuel);
    case Rep(e1) =>
      fuel := EvalIsMatch(g, e1, s, i);
      var r := Eval(g, e1, s, i, fuel);
      var more := fuel;
      Advances(AsTree(e1).value, s, i);
      if r.At? { more := EvalIsMatch(g, e, s, r.j); }
      fuel := Together(g, e1, s, i, fuel, e, if r.At? then r.j else i, more, r.At?);
      RepAnswer(g, e1, s, i, fuel);
    case Not(e1) =>
      fuel := EvalIsMatch(g, e1, s, i);
      fuel := fuel + 1;
      NotAnswer(g, e1, s, i, fuel);
    case And(e1) =>
      fuel := EvalIsMatch(g, e1, s, i);
      fuel := fuel + 1;
      AndAnswer(g, e1, s, i, fuel);
    case _ => LeafAnswer(g, e, s, i);
  }

  lemma LeafAnswer(g: Grammar, e: Expr, s: seq<Byte>, i: nat)
    requires ValidGrammar(g) && Resolved(g, e) && i <= |s| && (e.Class? || e.Empty? || e.Never? || e.Behind?)
    ensures WellFormed(AsTree(e).value) && Eval(g, e, s, i, 1) == Answer(Match(AsTree(e).value, s, i))
  {
    hide CheckAux, FixedLen;
    if e.Behind? { assert WellFormed(TBehind(e.body, e.n)); }
  }

  /** e, evaluated with one unit less, answers like its tree */
  predicate Agrees(g: Grammar, e: Expr, s: seq<Byte>, i: nat, fuel: nat)
    requires ValidGrammar(g) && Resolved(g, e) && i <= |s| && AsTree(e).Some? && WellFormed(AsTree(e).value)
  {
    fuel > 0 && Eval(g, e, s, i, fuel - 1) == Answer(Match(AsTree(e).value, s, i))
  }

  lemma SeqAnswer(g: Grammar, e1: Expr, e2: Expr, s: seq<Byte>, i: nat, fuel: nat)
    requires ValidGrammar(g) && Resolved(g, Seq(e1, e2)) && i <= |s| && AsTree(Seq(e1, e2)).Some? && WellFormed(AsTree(Seq(e1, e2)).value)
    requires Agrees(g, e1, s, i, fuel)
    requires Eval(g, e1, s, i, fuel - 1).At? ==> Agrees(g, e2, s, Eval(g, e1, s, i, fuel - 1).j, fuel)
    ensures Eval(g, Seq(e1, e2), s, i, fuel) == Answer(Match(AsTree(Seq(e1, e2)).value, s, i))
  {
    hide CheckAux, FixedLen;
  }

  lemma ChoiceAnswer(g: Grammar, e1: Expr, e2: Expr, s: seq<Byte>, i: nat, fuel: nat)
    requires ValidGrammar(g) && Resolved(g, Choice(e1, e2)) && i <= |s| && AsTree(Choice(e1, e2)).Some? && WellFormed(AsTree(Choice(e1, e2)).value)
    requires Agrees(g, e1, s, i, fuel)
    requires Eval(g, e1, s, i, fuel - 1).NoMatch? ==> Agrees(g, e2, s, i, fuel)
    ensures Eval(g, Choice(e1, e2), s, i, fuel) == Answer(Match(AsTree(Choice(e1, e2)).value, s, i))
  {
    hide CheckAux, FixedLen;
  }

  lemma RepAnswer(g: Grammar, e1: Expr, s: seq<Byte>, i: nat, fuel: nat)
    requires ValidGrammar(g) && Resolved(g, Rep(e1)) && i <= |s| && AsTree(Rep(e1)).Some? && WellFormed(AsTree(Rep(e1)).value)
    requires Agrees(g, e1, s, i, fuel)
    requires Eval(g, e1, s, i, fuel - 1).At? ==> Agrees(g, Rep(e1), s, Eval(g, e1, s, i, fuel - 1).j, fuel)
    ensures Eval(g, Rep(e1), s, i, fuel) == Answer(Match(AsTree(Rep(e1)).value, s, i))
  {
    hide CheckAux, FixedLen;
  }

  lemma NotAnswer(g: Grammar, e1: Expr, s: seq<Byte>, i: nat, fuel: nat)
    requires ValidGrammar(g) && Resolved(g, e1) && i <= |s| && AsTree(e1).Some? && WellFormed(AsTree(e1).value) && Agrees(g, e1, s, i, fuel)
    ensures Eval(g, Not(e1), s, i, fuel) == Answer(Match(TNot(AsTree(e1).value), s, i))
  {
    hide CheckAux, FixedLen;
  }

  lemma AndAnswer(g: Grammar, e1: Expr, s: seq<Byte>, i: nat, fuel: nat)
    requires ValidGrammar(g) && Resolved(g, e1) && i <= |s| && AsTree(e1).Some? && WellFormed(AsTree(e1).value) && Agrees(g, e1, s, i, fuel)
    ensures Eval(g, And(e1), s, i, fuel) == Answer(Match(TAnd(AsTree(e1).value), s, i))
  {
    hide CheckAux, FixedLen;
  }

  lemma Advances(t: Tree, s: seq<Byte>, i: nat)
    requires WellFormed(TRep(t)) && i <= |s|
    ensures Match(t, s, i) != Some(i)
  {
  }

  /** Enough for one part is enough for both. */
  lemma Together(g: Grammar, e1: Expr, s: seq<Byte>, i: nat, f1: nat, e2: Expr, j: nat, f2: nat, both: bool) returns (fuel: nat)
    requires ValidGrammar(g) && Resolved(g, e1) && Resolved(g, e2) && i <= |s| && j <= |s|
    requires !Eval(g, e1, s, i, f1).OutOfFuel? && (both ==> !Eval(g, e2, s, j, f2).OutOfFuel?)
    ensures fuel > 0 && Eval(g, e1, s, i, fuel - 1) == Eval(g, e1, s, i, f1)
    ensures both ==> Eval(g, e2, s, j, fuel - 1) == Eval(g, e2, s, j, f2)
  {
    hide Eval;
    fuel := f1 + f2 + 1;
    MoreFuel(g, e1, s, i, f1, fuel - 1);
    if both { MoreFuel(g, e2, s, j, f2, fuel - 1); }
  }

  ghost predicate Terminates(g: Grammar, e: Expr, s: seq<Byte>, i: nat)
    requires ValidGrammar(g) && Resolved(g, e) && i <= |s|
  {
    exists fuel: nat :: !Eval(g, e, s, i, fuel).OutOfFuel?
  }

  // ------------------------------------------------------------------ the checks

  datatype Verdict = Rejected(passed: seq<nat>) | Fine(nullable: bool)

  /** First pass: can a rule call itself without having consumed anything? 'passed' lists the
      rules entered so far, 'left' is how many more fit in that list, 'nb' is true when the
      answer to 'nullable' is already known to be yes. */
  function VerifyRule(g: Grammar, e: Expr, passed: seq<nat>, left: nat, nb: bool): Verdict
    requires ValidGrammar(g) && Resolved(g, e)
    decreases left, e
  {
    match e
    case Class(_) => Fine(nb)
    case Never => Fine(nb)
    case Empty => Fine(true)
    case Behind(_, _) => Fine(true)
    case Not(e1) => VerifyRule(g, e1, passed, left, true)
    case And(e1) => VerifyRule(g, e1, passed, left, true)
    case Rep(e1) => VerifyRule(g, e1, passed, left, true)
    case Seq(e1, e2) =>
      (match VerifyRule(g, e1, passed, left, false)
       case Rejected(p) => Rejected(p)
       case Fine(n1) => if !n1 then Fine(nb) else VerifyRule(g, e2, passed, left, nb))
    case Choice(e1, e2) =>
      (match VerifyRule(g, e1, passed, left, nb)
       case Rejected(p) => Rejected(p)
       case Fine(n1) => VerifyRule(g, e2, passed, left, n1))
    case Call(r) =>
      if left == 0 then Rejected(passed)
      else VerifyRule(g, g.rules[r], passed + [r], left - 1, nb)
  }

  /** The verdict does not depend on the record of rules, and 'nb' only adds to the answer. */
  lemma {:induction false} VerifyUniform(g: Grammar, e: Expr, p: seq<nat>, q: seq<nat>, left: nat, nb: bool, nc: bool)
    requires ValidGrammar(g) && Resolved(g, e)
    requires VerifyRule(g, e, p, left, nb).Fine?
    ensures VerifyRule(g, e, q, left, nc).Fine?
    ensures nb ==> VerifyRule(g, e, p, left, nb).nullable
    ensures nc ==> VerifyRule(g, e, q, left, nc).nullable
    ensures !nb ==> VerifyRule(g, e, q, left, nc).nullable == (nc || VerifyRule(g, e, p, left, nb).nullable)
    decreases left, e
  {
    match e
    case Not(e1) => VerifyUniform(g, e1, p, q, left, true, true);
    case And(e1) => VerifyUniform(g, e1, p, q, left, true, true);
    case Rep(e1) => VerifyUniform(g, e1, p, q, left, true, true);
    case Seq(e1, e2) =>
      VerifyUniform(g, e1, p, q, left, false, false);
      if VerifyRule(g, e1, p, left, false).nullable { VerifyUniform(g, e2, p, q, left, nb, nc); }
    case Choice(e1, e2) =>
      VerifyUniform(g, e1, p, q, left, nb, nc);
      VerifyUniform(g, e2, p, q, left, VerifyRule(g, e1, p, left, nb).nullable, VerifyRule(g, e1, q, left, nc).nullable);
    case Call(r) => VerifyUniform(g, g.rules[r], p + [r], q + [r], left - 1, nb, nc);
    case _ =>
  }

  ghost predicate LeftBounded(g: Grammar, e: Expr, left: nat)
    requires ValidGrammar(g) && Resolved(g, e)
  {
    VerifyRule(g, e, [], left, false).Fine?
  }

  /** What a bound on e says about its parts. */
  lemma BoundedParts(g: Grammar, e: Expr, left: nat)
    requires ValidGrammar(g) && Resolved(g, e) && LeftBounded(g, e, left)
    ensures e.Not? || e.And? || e.Rep? ==> LeftBounded(g, e.e, left)
    ensures e.Seq? || e.Choice? ==> LeftBounded(g, e.e1, left)
    ensures e.Seq? && VerifyRule(g, e.e1, [], left, false).nullable ==> LeftBounded(g, e.e2, left)
    ensures e.Choice? ==> LeftBounded(g, e.e2, left)
    ensures e.Call? ==> left > 0 && LeftBounded(g, g.rules[e.rule], left - 1)
    ensures var n := VerifyRule(g, e, [], left, false).nullable;
            match e
            case Choice(e1, e2) =>
              n == (VerifyRule(g, e1, [], left, false).nullable || VerifyRule(g, e2, [], left, false).nullable)
            case Call(r) => n == VerifyRule(g, g.rules[r], [], left - 1, false).nullable
            case Not(_) => n
            case And(_) => n
            case Rep(_) => n
            case _ => true
  {
    match e
    case Not(e1) => VerifyUniform(g, e1, [], [], left, true, false);
    case And(e1) => VerifyUniform(g, e1, [], [], left, true, false);
    case Rep(e1) => VerifyUniform(g, e1, [], [], left, true, false);
    case Choice(e1, e2) =>
      VerifyUniform(g, e2, [], [], left, VerifyRule(g, e1, [], left, false).nullable, false);
    case Call(r) =>
      assert [] + [r] == [r];
      VerifyUniform(g, g.rules[r], [r], [], left - 1, false, false);
    case _ =>
  }

  /** Can e match the empty string? Calls are followed, so this is defined, and terminates,
      only where the first pass has bounded the chains of left calls; its answer is the one
      that pass computed on the way. */
  ghost predicate NullableIn(g: Grammar, e: Expr, left: nat)
    requires ValidGrammar(g) && Resolved(g, e) && LeftBounded(g, e, left)
    ensures NullableIn(g, e, left) == VerifyRule(g, e, [], left, false).nullable
    decreases left, e
  {
    BoundedParts(g, e, left);
    match e
    case Class(_) => false
    case Never => false
    case Empty => true
    case Behind(_, _) => true
    case Not(_) => true
    case And(_) => true
    case Rep(_) => true
    case Seq(e1, e2) => NullableIn(g, e1, left) && NullableIn(g, e2, left)
    case Choice(e1, e2) => NullableIn(g, e1, left) || NullableIn(g, e2, left)
    case Call(r) => NullableIn(g, g.rules[r], left - 1)
  }

  /** The first pass accepted every rule that is used. */
  ghost predicate NoLeftRecursion(g: Grammar)
    requires ValidGrammar(g)
  {
    forall r :: 0 <= r < |g.rules| && g.used[r] ==> LeftBounded(g, g.rules[r], MAXRULES)
  }

  /** A chain of left calls from anywhere is then at most one call longer. */
  lemma {:induction false} BoundedAnywhere(g: Grammar, e: Expr)
    requires ValidGrammar(g) && Resolved(g, e) && NoLeftRecursion(g)
    ensures LeftBounded(g, e, MAXRULES + 1)
    decreases e
  {
    match e
    case Not(e1) =>
      BoundedAnywhere(g, e1);
      VerifyUniform(g, e1, [], [], MAXRULES + 1, false, true);
    case And(e1) =>
      BoundedAnywhere(g, e1);
      VerifyUniform(g, e1, [], [], MAXRULES + 1, false, true);
    case Rep(e1) =>
      BoundedAnywhere(g, e1);
      VerifyUniform(g, e1, [], [], MAXRULES + 1, false, true);
    case Seq(e1, e2) =>
      BoundedAnywhere(g, e1);
      BoundedAnywhere(g, e2);
    case Choice(e1, e2) =>
      BoundedAnywhere(g, e1);
      BoundedAnywhere(g, e2);
      VerifyUniform(g, e2, [], [], MAXRULES + 1, false, VerifyRule(g, e1, [], MAXRULES + 1, false).nullable);
    case Call(r) =>
      assert [] + [r] == [r];
      VerifyUniform(g, g.rules[r], [], [r], MAXRULES, false, false);
    case _ =>
  }

  /** Second pass: is there a repetition whose body may match the empty string? */
  ghost predicate CheckLoops(g: Grammar, e: Expr)
    requires ValidGrammar(g) && Resolved(g, e) && NoLeftRecursion(g)
  {
    match e
    case Rep(e1) =>
      BoundedAnywhere(g, e1);
      NullableIn(g, e1, MAXRULES + 1) || CheckLoops(g, e1)
    case Not(e1) => CheckLoops(g, e1)
    case And(e1) => CheckLoops(g, e1)
    case Seq(e1, e2) => CheckLoops(g, e1) || CheckLoops(g, e2)
    case Choice(e1, e2) => CheckLoops(g, e1) || CheckLoops(g, e2)
    case _ => false
  }

  /** Both passes accept the grammar. */
  ghost predicate VerifyGrammar(g: Grammar)
    requires ValidGrammar(g)
  {
    NoLeftRecursion(g) && forall r :: 0 <= r < |g.rules| && g.used[r] ==> !CheckLoops(g, g.rules[r])
  }

  // ------------------------------------------------------------------ termination

  /** A match that consumes nothing is possible only for a nullable expression. */
  lemma {:induction false} EmptyMatchIsNullable(g: Grammar, e: Expr, s: seq<Byte>, i: nat, fuel: nat, left: nat)
    requires ValidGrammar(g) && Resolved(g, e) && i <= |s| && LeftBounded(g, e, left)
    requires Eval(g, e, s, i, fuel) == At(i)
    ensures NullableIn(g, e, left)
    decreases fuel
  {
    BoundedParts(g, e, left);
    match e
    case Seq(e1, e2) =>
      EmptyMatchIsNullable(g, e1, s, i, fuel - 1, left);
      EmptyMatchIsNullable(g, e2, s, i, fuel - 1, left);
    case Choice(e1, e2) =>
      if Eval(g, e1, s, i, fuel - 1).NoMatch? { EmptyMatchIsNullable(g, e2, s, i, fuel - 1, left); }
      else { EmptyMatchIsNullable(g, e1, s, i, fuel - 1, left); }
    case Call(r) => EmptyMatchIsNullable(g, g.rules[r], s, i, fuel - 1, left - 1);
    case _ =>
  }

  /** Matching terminates: each call of the evaluator has less input left, or a shorter chain
      of left calls before it, or a smaller expression. */
  lemma {:induction false} Termination(g: Grammar, e: Expr, s: seq<Byte>, i: nat, left: nat) returns (fuel: nat)
    requires ValidGrammar(g) && VerifyGrammar(g) && Resolved(g, e) && i <= |s|
    requires LeftBounded(g, e, left) && !CheckLoops(g, e)
    ensures !Eval(g, e, s, i, fuel).OutOfFuel?
    decreases |s| - i, left, e
  {
    BoundedParts(g, e, left);
    fuel := 1;
    match e
    case Call(r) =>
      var f := Termination(g, g.rules[r], s, i, left - 1);
      fuel := f + 1;
    case Not(e1) =>
      var f := Termination(g, e1, s, i, left);
      fuel := f + 1;
    case And(e1) =>
      var f := Termination(g, e1, s, i, left);
      fuel := f + 1;
    case Seq(e1, e2) =>
      var f := Termination(g, e1, s, i, left);
      fuel := f + 1;
      var r := Eval(g, e1, s, i, f);
      if r.At? {
        var f2;
        if r.j == i {
          EmptyMatchIsNullable(g, e1, s, i, f, left);
          f2 := Termination(g, e2, s, i, left);
        } else {
          BoundedAnywhere(g, e2);
          f2 := Termination(g, e2, s, r.j, MAXRULES + 1);
        }
        MoreFuel(g, e1, s, i, f, f + f2);
        MoreFuel(g, e2, s, r.j, f2, f + f2);
        fuel := f + f2 + 1;
      }
    case Choice(e1, e2) =>
      var f := Termination(g, e1, s, i, left);
      var f2 := Termination(g, e2, s, i, left);
      MoreFuel(g, e1, s, i, f, f + f2);
      MoreFuel(g, e2, s, i, f2, f + f2);
      fuel := f + f2 + 1;
    case Rep(e1) =>
      var f := Termination(g, e1, s, i, left);
      fuel := f + 1;
      var r := Eval(g, e1, s, i, f);
      if r.At? {
        BoundedAnywhere(g, e1);
        if r.j == i { EmptyMatchIsNullable(g, e1, s, i, f, MAXRULES + 1); }
        BoundedAnywhere(g, e);
        var f2 := Termination(g, e, s, r.j, MAXRULES + 1);
        MoreFuel(g, e1, s, i, f, f + f2);
        MoreFuel(g, e, s, r.j, f2, f + f2);
        fuel := f + f2 + 1;
      }
    case _ =>
  }

  /** A grammar that both passes accept terminates: every used rule, on every subject, from
      every position. */
  lemma AcceptedTerminates(g: Grammar, rule: nat, s: seq<Byte>, i: nat)
    requires ValidGrammar(g) && VerifyGrammar(g)
    requires rule < |g.rules| && g.used[rule] && i <= |s|
    ensures Terminates(g, g.rules[rule], s, i)
  {
    var fuel := Termination(g, g.rules[rule], s, i, MAXRULES);
  }

  // ------------------------------------------------------------------ the first pass is exact

  /** e can match the empty string, shown by calls nested at most d deep. */
  predicate EmptyWithin(g: Grammar, e: Expr, d: nat)
    requires ValidGrammar(g) && Resolved(g, e)
    decreases d, e
  {
    match e
    case Class(_) => false
    case Never => false
    case Seq(e1, e2) => EmptyWithin(g, e1, d) && EmptyWithin(g, e2, d)
    case Choice(e1, e2) => EmptyWithin(g, e1, d) || EmptyWithin(g, e2, d)
    case Call(r) => d > 0 && EmptyWithin(g, g.rules[r], d - 1)
    case _ => true
  }

  /** The least solution of the equations of nullability. */
  ghost predicate MayBeEmpty(g: Grammar, e: Expr)
    requires ValidGrammar(g) && Resolved(g, e)
  {
    exists d: nat :: EmptyWithin(g, e, d)
  }

  /** Where left calls are bounded, the pass finds out just that. */
  lemma NullableExactly(g: Grammar, e: Expr, left: nat)
    requires ValidGrammar(g) && Resolved(g, e) && LeftBounded(g, e, left)
    ensures VerifyRule(g, e, [], left, false).nullable <==> MayBeEmpty(g, e)
  {
    if VerifyRule(g, e, [], left, false).nullable {
      NullableDerived(g, e, left);
    }
    forall d: nat | EmptyWithin(g, e, d) ensures VerifyRule(g, e, [], left, false).nullable {
      DerivedNullable(g, e, left, d);
    }
  }

  lemma {:induction false} NullableDerived(g: Grammar, e: Expr, left: nat)
    requires ValidGrammar(g) && Resolved(g, e) && VerifyRule(g, e, [], left, false) == Fine(true)
    ensures EmptyWithin(g, e, left)
    decreases left, e
  {
    BoundedParts(g, e, left);
    match e
    case Seq(e1, e2) =>
      NullableDerived(g, e1, left);
      NullableDerived(g, e2, left);
    case Choice(e1, e2) =>
      if VerifyRule(g, e1, [], left, false).nullable { NullableDerived(g, e1, left); } else { NullableDerived(g, e2, left); }
    case Call(r) => NullableDerived(g, g.rules[r], left - 1);
    case _ =>
  }

  lemma {:induction false} DerivedNullable(g: Grammar, e: Expr, left: nat, d: nat)
    requires ValidGrammar(g) && Resolved(g, e) && LeftBounded(g, e, left) && EmptyWithin(g, e, d)
    ensures VerifyRule(g, e, [], left, false).nullable
    decreases left, e
  {
    BoundedParts(g, e, left);
    match e
    case Seq(e1, e2) =>
      DerivedNullable(g, e1, left, d);
      DerivedNullable(g, e2, left, d);
    case Choice(e1, e2) =>
      if EmptyWithin(g, e1, d) { DerivedNullable(g, e1, left, d); } else { DerivedNullable(g, e2, left, d); }
    case Call(r) => DerivedNullable(g, g.rules[r], left - 1, d - 1);
    case _ =>
  }

  /** Matching e can call rule r before anything is consumed. */
  ghost predicate LeftCalls(g: Grammar, e: Expr, r: nat)
    requires ValidGrammar(g) && Resolved(g, e)
  {
    match e
    case Call(q) => q == r
    case Not(e1) => LeftCalls(g, e1, r)
    case And(e1) => LeftCalls(g, e1, r)
    case Rep(e1) => LeftCalls(g, e1, r)
    case Seq(e1, e2) => LeftCalls(g, e1, r) || (MayBeEmpty(g, e1) && LeftCalls(g, e2, r))
    case Choice(e1, e2) => LeftCalls(g, e1, r) || LeftCalls(g, e2, r)
    case _ => false
  }

  /** Rules entered one from the other, none of them having consumed anything. */
  ghost predicate Chain(g: Grammar, e: Expr, path: seq<nat>)
    requires ValidGrammar(g) && Resolved(g, e)
    decreases |path|
  {
    path == [] ||
    (path[0] < |g.rules| && g.used[path[0]] && LeftCalls(g, e, path[0]) && Chain(g, g.rules[path[0]], path[1..]))
  }

  ghost predicate LeftRecursive(g: Grammar, r: nat)
    requires ValidGrammar(g) && r < |g.rules|
  {
    exists path :: path != [] && path[|path| - 1] == r && Chain(g, g.rules[r], path)
  }

  lemma {:induction false} LeftCallsUsed(g: Grammar, e: Expr, r: nat)
    requires ValidGrammar(g) && Resolved(g, e) && LeftCalls(g, e, r)
    ensures r < |g.rules| && g.used[r]
  {
    match e
    case Not(e1) => LeftCallsUsed(g, e1, r);
    case And(e1) => LeftCallsUsed(g, e1, r);
    case Rep(e1) => LeftCallsUsed(g, e1, r);
    case Seq(e1, e2) => if LeftCalls(g, e1, r) { LeftCallsUsed(g, e1, r); } else { LeftCallsUsed(g, e2, r); }
    case Choice(e1, e2) => if LeftCalls(g, e1, r) { LeftCallsUsed(g, e1, r); } else { LeftCallsUsed(g, e2, r); }
    case _ =>
  }

  /** A rejection exhibits a chain of left calls that is longer than the room there was. */
  lemma {:induction false} RejectedChain(g: Grammar, e: Expr, p: seq<nat>, left: nat, nb: bool) returns (path: seq<nat>)
    requires ValidGrammar(g) && Resolved(g, e)
    requires VerifyRule(g, e, p, left, nb).Rejected?
    ensures |path| == left + 1 && Chain(g, e, path)
    ensures VerifyRule(g, e, p, left, nb).passed == p + path[..left]
    decreases left, e
  {
    match e
    case Not(e1) => path := RejectedChain(g, e1, p, left, true);
    case And(e1) => path := RejectedChain(g, e1, p, left, true);
    case Rep(e1) => path := RejectedChain(g, e1, p, left, true);
    case Seq(e1, e2) =>
      if VerifyRule(g, e1, p, left, false).Rejected? {
        path := RejectedChain(g, e1, p, left, false);
      } else {
        VerifyUniform(g, e1, p, [], left, false, false);
        NullableExactly(g, e1, left);
        path := RejectedChain(g, e2, p, left, nb);
      }
    case Choice(e1, e2) =>
      if VerifyRule(g, e1, p, left, nb).Rejected? {
        path := RejectedChain(g, e1, p, left, nb);
      } else {
        path := RejectedChain(g, e2, p, left, VerifyRule(g, e1, p, left, nb).nullable);
      }
    case Call(r) =>
      path := [r];
      if left > 0 {
        var rest := RejectedChain(g, g.rules[r], p + [r], left - 1, nb);
        path := [r] + rest;
        assert path[1..] == rest && path[..left] == [r] + rest[..left - 1];
      }
    case _ =>
  }

  /** Where left calls are bounded, each left call uses up one. */
  lemma {:induction false} LeftCallShortens(g: Grammar, e: Expr, left: nat, r: nat)
    requires ValidGrammar(g) && Resolved(g, e) && LeftBounded(g, e, left) && LeftCalls(g, e, r)
    ensures r < |g.rules| && left > 0 && LeftBounded(g, g.rules[r], left - 1)
  {
    BoundedParts(g, e, left);
    LeftCallsUsed(g, e, r);
    match e
    case Not(e1) => LeftCallShortens(g, e1, left, r);
    case And(e1) => LeftCallShortens(g, e1, left, r);
    case Rep(e1) => LeftCallShortens(g, e1, left, r);
    case Choice(e1, e2) =>
      if LeftCalls(g, e1, r) { LeftCallShortens(g, e1, left, r); } else { LeftCallShortens(g, e2, left, r); }
    case Seq(e1, e2) =>
      if LeftCalls(g, e1, r) {
        LeftCallShortens(g, e1, left, r);
      } else {
        NullableExactly(g, e1, left);
        LeftCallShortens(g, e2, left, r);
      }
    case _ =>
  }

  lemma {:induction false} BoundedChain(g: Grammar, e: Expr, left: nat, path: seq<nat>)
    requires ValidGrammar(g) && Resolved(g, e) && LeftBounded(g, e, left) && Chain(g, e, path)
    ensures |path| <= left
    decreases |path|
  {
    if path != [] {
      LeftCallShortens(g, e, left, path[0]);
      BoundedChain(g, g.rules[path[0]], left - 1, path[1..]);
    }
  }

  lemma {:induction false} ChainJoin(g: Grammar, e: Expr, x: seq<nat>, y: seq<nat>)
    requires ValidGrammar(g) && Resolved(g, e) && x != [] && Chain(g, e, x)
    requires x[|x| - 1] < |g.rules| && Chain(g, g.rules[x[|x| - 1]], y)
    ensures Chain(g, e, x + y)
    decreases |x|
  {
    assert (x + y)[1..] == x[1..] + y;
    if |x| == 1 {
      assert (x + y)[1..] == y;
    } else {
      ChainJoin(g, g.rules[x[0]], x[1..], y);
    }
  }

  /** A part of a chain is a chain from the rule in front of it. */
  lemma {:induction false} ChainPart(g: Grammar, e: Expr, path: seq<nat>, i: nat, j: nat)
    requires ValidGrammar(g) && Resolved(g, e) && Chain(g, e, path) && i < j < |path|
    ensures path[i] < |g.rules| && g.used[path[i]] && Chain(g, g.rules[path[i]], path[i + 1..j + 1])
    decreases |path|
  {
    if i > 0 {
      ChainPart(g, g.rules[path[0]], path[1..], i - 1, j - 1);
      assert path[1..][i..j] == path[i + 1..j + 1];
    } else {
      ChainPrefix(g, g.rules[path[0]], path[1..], j);
      assert path[1..][..j] == path[1..j + 1];
    }
  }

  lemma {:induction false} ChainPrefix(g: Grammar, e: Expr, path: seq<nat>, n: nat)
    requires ValidGrammar(g) && Resolved(g, e) && Chain(g, e, path) && n <= |path|
    ensures Chain(g, e, path[..n])
    decreases |path|
  {
    if n > 0 {
      ChainPrefix(g, g.rules[path[0]], path[1..], n - 1);
      assert path[..n][1..] == path[1..][..n - 1];
    }
  }

  /** A rule that can come back to itself has chains of every length. */
  lemma {:induction false} LongChain(g: Grammar, r: nat, path: seq<nat>, n: nat) returns (long: seq<nat>)
    requires ValidGrammar(g) && r < |g.rules|
    requires path != [] && path[|path| - 1] == r && Chain(g, g.rules[r], path)
    ensures |long| > n && Chain(g, g.rules[r], long)
    decreases n
  {
    long := path;
    if n > 0 {
      var rest := LongChain(g, r, path, n - 1);
      ChainJoin(g, g.rules[r], path, rest);
      long := path + rest;
    }
  }

  lemma {:induction false} Pigeonhole(a: seq<nat>, n: nat) returns (i: nat, j: nat)
    requires |a| > n && forall k :: 0 <= k < |a| ==> a[k] < n
    ensures i < j < |a| && a[i] == a[j]
    decreases n
  {
    var m := |a| - 1;
    if k :| 0 <= k < m && a[k] == a[m] {
      i, j := k, m;
    } else {
      var b := seq(m, k requires 0 <= k < m => if a[k] == n - 1 then a[m] else a[k]);
      i, j := Pigeonhole(b, n - 1);
      assert b[i] == b[j];
    }
  }

  lemma {:induction false} ChainInRange(g: Grammar, e: Expr, path: seq<nat>)
    requires ValidGrammar(g) && Resolved(g, e) && Chain(g, e, path)
    ensures forall k :: 0 <= k < |path| ==> path[k] < |g.rules|
    decreases |path|
  {
    if path != [] {
      ChainInRange(g, g.rules[path[0]], path[1..]);
      forall k | 0 <= k < |path| ensures path[k] < |g.rules| {
        if k > 0 { assert path[k] == path[1..][k - 1]; }
      }
    }
  }

  /** Within the limit on the number of rules, the first pass rejects a grammar exactly when
      one of its used rules is left recursive. */
  lemma FirstPassExact(g: Grammar)
    requires ValidGrammar(g) && |g.rules| <= MAXRULES
    ensures NoLeftRecursion(g) <==> forall r :: 0 <= r < |g.rules| && g.used[r] ==> !LeftRecursive(g, r)
  {
    forall r | 0 <= r < |g.rules| && g.used[r] && LeftRecursive(g, r)
      ensures !LeftBounded(g, g.rules[r], MAXRULES)
    {
      var path :| path != [] && path[|path| - 1] == r && Chain(g, g.rules[r], path);
      var long := LongChain(g, r, path, MAXRULES);
      if LeftBounded(g, g.rules[r], MAXRULES) { BoundedChain(g, g.rules[r], MAXRULES, long); }
    }
    forall r | 0 <= r < |g.rules| && g.used[r] && !LeftBounded(g, g.rules[r], MAXRULES)
      ensures exists q :: 0 <= q < |g.rules| && g.used[q] && LeftRecursive(g, q)
    {
      var path := RejectedChain(g, g.rules[r], [], MAXRULES, false);
      ChainInRange(g, g.rules[r], path);
      var i, j := Pigeonhole(path, |g.rules|);
      ChainPart(g, g.rules[r], path, i, j);
      var loop := path[i + 1..j + 1];
      assert loop[|loop| - 1] == path[i];
      assert LeftRecursive(g, path[i]);
    }
  }

  // ------------------------------------------------------------------ so is the second one

  /** p is e, or a part of it. */
  predicate PartOf(p: Expr, e: Expr)
  {
    p == e ||
    match e
    case Rep(e1) => PartOf(p, e1)
    case Not(e1) => PartOf(p, e1)
    case And(e1) => PartOf(p, e1)
    case Seq(e1, e2) => PartOf(p, e1) || PartOf(p, e2)
    case Choice(e1, e2) => PartOf(p, e1) || PartOf(p, e2)
    case _ => false
  }

  /** Somewhere in e, whose calls are all resolved, a body that may be empty is repeated. */
  ghost predicate HasEmptyLoop(g: Grammar, e: Expr)
    requires ValidGrammar(g) && Resolved(g, e)
  {
    exists body :: PartOf(Rep(body), e) && Resolved(g, body) && MayBeEmpty(g, body)
  }

  lemma {:induction false} LoopFound(g: Grammar, e: Expr) returns (body: Expr)
    requires ValidGrammar(g) && Resolved(g, e) && NoLeftRecursion(g) && CheckLoops(g, e)
    ensures PartOf(Rep(body), e) && Resolved(g, body) && MayBeEmpty(g, body)
  {
    hide MayBeEmpty, NoLeftRecursion, NullableIn;
    match e
    case Rep(e1) =>
      BoundedAnywhere(g, e1);
      NullableExactly(g, e1, MAXRULES + 1);
      if MayBeEmpty(g, e1) { body := e1; } else { body := LoopFound(g, e1); }
    case Not(e1) => body := LoopFound(g, e1);
    case And(e1) => body := LoopFound(g, e1);
    case Seq(e1, e2) => if CheckLoops(g, e1) { body := LoopFound(g, e1); } else { body := LoopFound(g, e2); }
    case Choice(e1, e2) => if CheckLoops(g, e1) { body := LoopFound(g, e1); } else { body := LoopFound(g, e2); }
  }

  lemma {:induction false} LoopReported(g: Grammar, e: Expr, body: Expr)
    requires ValidGrammar(g) && Resolved(g, e) && NoLeftRecursion(g)
    requires PartOf(Rep(body), e) && Resolved(g, body) && MayBeEmpty(g, body)
    ensures CheckLoops(g, e)
  {
    hide MayBeEmpty, NoLeftRecursion, NullableIn;
    match e
    case Rep(e1) =>
      BoundedAnywhere(g, e1);
      NullableExactly(g, e1, MAXRULES + 1);
      if e1 != body { LoopReported(g, e1, body); }
    case Not(e1) => LoopReported(g, e1, body);
    case And(e1) => LoopReported(g, e1, body);
    case Seq(e1, e2) => if PartOf(Rep(body), e1) { LoopReported(g, e1, body); } else { LoopReported(g, e2, body); }
    case Choice(e1, e2) => if PartOf(Rep(body), e1) { LoopReported(g, e1, body); } else { LoopReported(g, e2, body); }
    case _ =>
  }

  /** Where left calls are bounded, the second pass finds exactly the empty loops. */
  lemma SecondPassExact(g: Grammar, e: Expr)
    requires ValidGrammar(g) && Resolved(g, e) && NoLeftRecursion(g)
    ensures CheckLoops(g, e) <==> HasEmptyLoop(g, e)
  {
    hide MayBeEmpty, NoLeftRecursion, CheckLoops;
    if CheckLoops(g, e) { var body := LoopFound(g, e); }
    if HasEmptyLoop(g, e) {
      var body :| PartOf(Rep(body), e) && Resolved(g, body) && MayBeEmpty(g, body);
      LoopReported(g, e, body);
    }
  }

  /** Within the limit on the number of rules, a grammar is accepted exactly when no used rule is
      left recursive and no used rule repeats what may be empty. */
  lemma AcceptedExactly(g: Grammar)
    requires ValidGrammar(g) && |g.rules| <= MAXRULES
    ensures VerifyGrammar(g) <==>
            forall r :: 0 <= r < |g.rules| && g.used[r] ==> !LeftRecursive(g, r) && !HasEmptyLoop(g, g.rules[r])
  {
    hide LeftRecursive, HasEmptyLoop, CheckLoops, NoLeftRecursion;
    FirstPassExact(g);
    if NoLeftRecursion(g) {
      forall r | 0 <= r < |g.rules| && g.used[r] ensures CheckLoops(g, g.rules[r]) <==> HasEmptyLoop(g, g.rules[r]) {
        SecondPassExact(g, g.rules[r]);
      }
    }
  }
}
