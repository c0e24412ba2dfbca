/** Patterns and their analyses. */
module LpegTree {
  // Capture-free, call-free LPeg patterns: the tree, its PEG meaning, and the static analyses the
  // code generator relies on, each proved sound for that meaning.

  newtype Byte = x: int | 0 <= x < 256

  type Charset = set<Byte>

  const FULL_SET: Charset := set b: Byte | true

  datatype Option<+T> = None | Some(value: T)

  datatype Tree =
    | TChar(c: Byte)
    | TSet(cs: Charset)
    | TAny
    | TTrue
    | TFalse
    | TRep(sib1: Tree)
    | TSeq(sib1: Tree, sib2: Tree)
    | TChoice(sib1: Tree, sib2: Tree)
    | TNot(sib1: Tree)
    | TAnd(sib1: Tree)
    | TBehind(sib1: Tree, n: nat)

  const MAXBEHIND := 255

  datatype Question = Nullable | NoFail

  /** Can the pattern match the empty string / can it never fail? */
  predicate CheckAux(t: Tree, pred: Question)
  {
    match t
    case TChar(_) => false
    case TSet(_) => false
    case TAny => false
    case TFalse => false
    case TRep(_) => true
    case TTrue => true
    case TNot(_) => pred == Nullable
    case TBehind(_, _) => pred == Nullable
    case TAnd(p) => pred == Nullable || CheckAux(p, pred)
    case TSeq(p1, p2) => CheckAux(p1, pred) && CheckAux(p2, pred)
    case TChoice(p1, p2) => CheckAux(p2, pred) || CheckAux(p1, pred)
  }

  /** Number of characters every match consumes, or -1 when it varies. */
  function FixedLen(t: Tree): (n: int)
    ensures -1 <= n
  {
    match t
    case TChar(_) => 1
    case TSet(_) => 1
    case TAny => 1
    case TFalse => 0
    case TTrue => 0
    case TNot(_) => 0
    case TAnd(_) => 0
    case TBehind(_, _) => 0
    case TRep(_) => -1
    case TSeq(p1, p2) =>
      var n1 := FixedLen(p1);
      var n2 := FixedLen(p2);
      if n1 < 0 || n2 < 0 then -1 else n1 + n2
    case TChoice(p1, p2) =>
      var n1 := FixedLen(p1);
      var n2 := FixedLen(p2);
      if n1 != n2 || n1 < 0 then -1 else n1
  }

  /** The checks made when a pattern is built: no loop over a nullable body, and
      look-behind only over a fixed, small length that is recorded in the node. */
  predicate WellFormed(t: Tree)
  {
    match t
    case TRep(p) => WellFormed(p) && !CheckAux(p, Nullable)
    case TBehind(p, n) => WellFormed(p) && FixedLen(p) == n && n <= MAXBEHIND
    case TNot(p) => WellFormed(p)
    case TAnd(p) => WellFormed(p)
    case TSeq(p1, p2) => WellFormed(p1) && WellFormed(p2)
    case TChoice(p1, p2) => WellFormed(p1) && WellFormed(p2)
    case _ => true
  }

  /** PEG semantics: the position after matching t at position i of subject s, or None.
      Written without any of the analyses except where a match must make progress. */
  function Match(t: Tree, s: seq<Byte>, i: nat): (r: Option<nat>)
    requires WellFormed(t) && i <= |s|
    ensures r.Some? ==> i <= r.value <= |s|
    ensures r == Some(i) ==> CheckAux(t, Nullable)
    decreases t, |s| - i
  {
    match t
    case TChar(c) => if i < |s| && s[i] == c then Some(i + 1) else None
    case TSet(cs) => if i < |s| && s[i] in cs then Some(i + 1) else None
    case TAny => if i < |s| then Some(i + 1) else None
    case TTrue => Some(i)
    case TFalse => None
    case TRep(p) =>
      (match Match(p, s, i)
       case None => Some(i)
       case Some(j) => Match(t, s, j))
    case TSeq(p1, p2) =>
      (match Match(p1, s, i)
       case None => None
       case Some(j) => Match(p2, s, j))
    case TChoice(p1, p2) =>
      (match Match(p1, s, i)
       case None => Match(p2, s, i)
       case Some(j) => Some(j))
    case TNot(p) => if Match(p, s, i).None? then Some(i) else None
    case TAnd(p) => if Match(p, s, i).Some? then Some(i) else None
    case TBehind(p, n) => if n <= i && Match(p, s, i - n).Some? then Some(i) else None
  }

  /** A pattern that consumes exactly one character of a set. */
  function ToCharset(t: Tree): Option<Charset>
  {
    match t
    case TChar(c) => Some({c})
    case TSet(cs) => Some(cs)
    case TAny => Some(FULL_SET)
    case _ => None
  }

  /** accepts: the pattern may match the empty string; set: its first set. */
  datatype First = First(accepts: bool, set_: Charset)

  /** First set of t when 'follow' is the first set of what comes after t. */
  function GetFirst(t: Tree, follow: Charset): First
  {
    match t
    case TChar(c) => First(false, {c})
    case TSet(cs) => First(false, cs)
    case TAny => First(false, FULL_SET)
    case TTrue => First(true, follow)
    case TFalse => First(false, {})
    case TChoice(p1, p2) =>
      var f1 := GetFirst(p1, follow);
      var f2 := GetFirst(p2, follow);
      First(f1.accepts || f2.accepts, f1.set_ + f2.set_)
    case TSeq(p1, p2) =>
      if !CheckAux(p1, Nullable) then
        GetFirst(p1, FULL_SET)
      else
        var f2 := GetFirst(p2, follow);
        var f1 := GetFirst(p1, f2.set_);
        First(f1.accepts && f2.accepts, f1.set_)
    case TRep(p) => First(true, GetFirst(p, follow).set_ + follow)
    case TAnd(p) =>
      var f := GetFirst(p, follow);
      First(f.accepts, f.set_ * follow)
    case TNot(p) =>
      if ToCharset(p).Some? then First(true, FULL_SET - ToCharset(p).value) else First(true, follow)
    case TBehind(_, _) => First(true, follow)
  }

  /** The pattern can fail only because of the next character. */
  predicate HeadFail(t: Tree)
  {
    match t
    case TChar(_) => true
    case TSet(_) => true
    case TAny => true
    case TFalse => true
    case TTrue => false
    case TRep(_) => false
    case TNot(_) => false
    case TBehind(_, _) => false
    case TAnd(p) => HeadFail(p)
    case TSeq(p1, p2) => CheckAux(p2, NoFail) && HeadFail(p1)
    case TChoice(p1, p2) => HeadFail(p1) && HeadFail(p2)
  }

  /** Does code generation for t look at the follow set? */
  predicate NeedFollow(t: Tree)
  {
    match t
    case TChoice(_, _) => true
    case TRep(_) => true
    case TSeq(_, p2) => NeedFollow(p2)
    case _ => false
  }

  // ---------------------------------------------------------------- soundness of the analyses

  lemma {:induction false} NoFailSound(t: Tree, s: seq<Byte>, i: nat)
    requires WellFormed(t) && i <= |s|
    requires CheckAux(t, NoFail)
    ensures Match(t, s, i).Some?
    decreases t, |s| - i
  {
    match t
    case TRep(p) =>
      var r := Match(p, s, i);
      if r.Some? { NoFailSound(t, s, r.value); }
    case TAnd(p) => NoFailSound(p, s, i);
    case TSeq(p1, p2) =>
      NoFailSound(p1, s, i);
      NoFailSound(p2, s, Match(p1, s, i).value);
    case TChoice(p1, p2) =>
      if CheckAux(p2, NoFail) { NoFailSound(p2, s, i); } else { NoFailSound(p1, s, i); }
    case _ =>
  }

  lemma {:induction false} FixedLenSound(t: Tree, s: seq<Byte>, i: nat)
    requires WellFormed(t) && i <= |s|
    requires FixedLen(t) >= 0
    ensures Match(t, s, i).Some? ==> Match(t, s, i).value == i + FixedLen(t)
    decreases t
  {
    match t
    case TSeq(p1, p2) =>
      FixedLenSound(p1, s, i);
      var r := Match(p1, s, i);
      if r.Some? { FixedLenSound(p2, s, r.value); }
    case TChoice(p1, p2) =>
      FixedLenSound(p1, s, i);
      FixedLenSound(p2, s, i);
    case _ =>
  }

  /** A next character outside the first set means failure, or an empty match in front of
      a character that the follow set excludes; and no match at the end of the subject
      unless the analysis says the pattern accepts the empty string. */
  lemma {:induction false} GetFirstSound(t: Tree, follow: Charset, s: seq<Byte>, i: nat)
    requires WellFormed(t) && i <= |s|
    ensures i < |s| && s[i] !in GetFirst(t, follow).set_ ==>
              Match(t, s, i).None? || (Match(t, s, i) == Some(i) && s[i] !in follow)
    ensures i == |s| && !GetFirst(t, follow).accepts ==> Match(t, s, i).None?
    decreases t
  {
    match t
    case TChoice(p1, p2) =>
      GetFirstSound(p1, follow, s, i);
      GetFirstSound(p2, follow, s, i);
    case TSeq(p1, p2) =>
      if !CheckAux(p1, Nullable) {
        GetFirstSound(p1, FULL_SET, s, i);
      } else {
        GetFirstSound(p2, follow, s, i);
        GetFirstSound(p1, GetFirst(p2, follow).set_, s, i);
      }
    case TRep(p) => GetFirstSound(p, follow, s, i);
    case TAnd(p) => GetFirstSound(p, follow, s, i);
    case TNot(p) =>
    case _ =>
  }

  lemma {:induction false} NoFailImpliesNullable(t: Tree)
    requires CheckAux(t, NoFail)
    ensures CheckAux(t, Nullable)
  {
    match t
    case TSeq(p1, p2) =>
      NoFailImpliesNullable(p1);
      NoFailImpliesNullable(p2);
    case TChoice(p1, p2) =>
      if CheckAux(p2, NoFail) { NoFailImpliesNullable(p2); } else { NoFailImpliesNullable(p1); }
    case _ =>
  }

  /** A pattern that never fails has every character in its first set. */
  lemma {:induction false} NoFailFirstIsFull(t: Tree)
    requires CheckAux(t, NoFail)
    ensures GetFirst(t, FULL_SET).set_ == FULL_SET
  {
    match t
    case TSeq(p1, p2) =>
      NoFailImpliesNullable(p1);
      NoFailFirstIsFull(p1);
      NoFailFirstIsFull(p2);
    case TChoice(p1, p2) =>
      if CheckAux(p2, NoFail) { NoFailFirstIsFull(p2); } else { NoFailFirstIsFull(p1); }
    case TAnd(p) => NoFailFirstIsFull(p);
    case _ =>
  }

  /** A head-fail pattern never accepts the empty string, whatever follows. */
  lemma {:induction false} HeadFailNotEmpty(t: Tree, follow: Charset)
    requires HeadFail(t)
    ensures !GetFirst(t, follow).accepts
  {
    match t
    case TAnd(p) => HeadFailNotEmpty(p, follow);
    case TSeq(p1, p2) =>
      HeadFailNotEmpty(p1, FULL_SET);
      HeadFailNotEmpty(p1, GetFirst(p2, follow).set_);
    case TChoice(p1, p2) =>
      HeadFailNotEmpty(p1, follow);
      HeadFailNotEmpty(p2, follow);
    case _ =>
  }

  /** A head-fail pattern succeeds exactly when the next character is in its first set. */
  lemma {:induction false} HeadFailExact(t: Tree, s: seq<Byte>, i: nat)
    requires WellFormed(t) && i <= |s|
    requires HeadFail(t)
    ensures Match(t, s, i).Some? <==> i < |s| && s[i] in GetFirst(t, FULL_SET).set_
    decreases t
  {
    match t
    case TAnd(p) => HeadFailExact(p, s, i);
    case TSeq(p1, p2) =>
      HeadFailExact(p1, s, i);
      NoFailFirstIsFull(p2);
      var r := Match(p1, s, i);
      if r.Some? { NoFailSound(p2, s, r.value); }
    case TChoice(p1, p2) =>
      HeadFailExact(p1, s, i);
      HeadFailExact(p2, s, i);
    case _ =>
  }

  // ---------------------------------------------------------------- where the analyses are exact

  /** No not predicate and no look-behind in t, and no and predicate unless 'ands'. */
  predicate Plain(t: Tree, ands: bool)
  {
    match t
    case TNot(_) => false
    case TBehind(_, _) => false
    case TAnd(p) => ands && Plain(p, ands)
    case TRep(p) => Plain(p, ands)
    case TSeq(p1, p2) => Plain(p1, ands) && Plain(p2, ands)
    case TChoice(p1, p2) => Plain(p1, ands) && Plain(p2, ands)
    case _ => true
  }

  /** Without predicates the nullable patterns are those that match the empty subject. */
  lemma {:induction false} NullableOnEmpty(t: Tree)
    requires WellFormed(t) && Plain(t, false)
    ensures CheckAux(t, Nullable) <==> Match(t, [], 0) == Some(0)
  {
    match t
    case TRep(p) => NullableOnEmpty(p);
    case TSeq(p1, p2) =>
      NullableOnEmpty(p1);
      NullableOnEmpty(p2);
    case TChoice(p1, p2) =>
      NullableOnEmpty(p1);
      NullableOnEmpty(p2);
    case _ =>
  }

  /** Without not predicates and look-behind the nofail patterns are those, so whatever fails
      anywhere fails there. */
  lemma {:induction false} NoFailOnEmpty(t: Tree)
    requires WellFormed(t) && Plain(t, true)
    ensures CheckAux(t, NoFail) <==> Match(t, [], 0) == Some(0)
  {
    match t
    case TAnd(p) => NoFailOnEmpty(p);
    case TSeq(p1, p2) =>
      NoFailOnEmpty(p1);
      NoFailOnEmpty(p2);
    case TChoice(p1, p2) =>
      NoFailOnEmpty(p1);
      NoFailOnEmpty(p2);
    case _ =>
  }

  /** A match of t may consume n characters, by its structure: predicates consume nothing, a
      repetition any number. */
  ghost predicate Consumes(t: Tree, n: nat)
  {
    match t
    case TChar(_) => n == 1
    case TSet(_) => n == 1
    case TAny => n == 1
    case TRep(_) => true
    case TSeq(p1, p2) => exists k :: 0 <= k <= n && Consumes(p1, k) && Consumes(p2, n - k)
    case TChoice(p1, p2) => Consumes(p1, n) || Consumes(p2, n)
    case _ => n == 0
  }

  lemma SeqConsumes(p1: Tree, p2: Tree, m: nat, n: nat)
    requires Consumes(p1, m) && Consumes(p2, n)
    ensures Consumes(TSeq(p1, p2), m + n)
  {
    assert Consumes(p2, m + n - m);
  }

  lemma SeqOnly(p1: Tree, p2: Tree, m: nat, n: nat)
    requires Only(p1, m) && Only(p2, n)
    ensures Only(TSeq(p1, p2), m + n)
  {
  }

  ghost predicate Only(t: Tree, m: nat)
  {
    forall k: nat :: Consumes(t, k) ==> k == m
  }

  lemma ChoiceConsumes(p1: Tree, p2: Tree, n: nat)
    ensures Consumes(TChoice(p1, p2), n) <==> Consumes(p1, n) || Consumes(p2, n)
    ensures Only(p1, n) && Only(p2, n) ==> Only(TChoice(p1, p2), n)
  {
  }

  lemma LeafConsumes(t: Tree) returns (m: nat, n: nat)
    requires !t.TSeq? && !t.TChoice?
    ensures Consumes(t, m) && Consumes(t, n)
    ensures if t.TRep? then m == 0 && n == 1 else m == n == FixedLen(t) && Only(t, m)
  {
    m := if t.TChar? || t.TSet? || t.TAny? then 1 else 0;
    n := if t.TRep? then 1 else m;
  }

  /** A fixed length is the only one, and without one there are two. */
  lemma {:induction false} FixedLenExact(t: Tree) returns (m: nat, n: nat)
    ensures Consumes(t, m) && Consumes(t, n)
    ensures if FixedLen(t) >= 0 then m == n == FixedLen(t) && Only(t, m) else m != n
  {
    hide Consumes, Only;
    match t
    case TSeq(p1, p2) =>
      var m1, n1 := FixedLenExact(p1);
      var m2, n2 := FixedLenExact(p2);
      SeqConsumes(p1, p2, m1, m2);
      SeqConsumes(p1, p2, n1, m2);
      SeqConsumes(p1, p2, m1, n2);
      if m1 == n1 && m2 == n2 { SeqOnly(p1, p2, m1, m2); }
      m, n := m1 + m2, if m1 != n1 then n1 + m2 else m1 + n2;
    case TChoice(p1, p2) =>
      var m1, n1 := FixedLenExact(p1);
      var m2, n2 := FixedLenExact(p2);
      m, n := m1, if m1 != n1 then n1 else if m1 != m2 then m2 else n2;
      ChoiceConsumes(p1, p2, m);
      ChoiceConsumes(p1, p2, n);
    case _ => m, n := LeafConsumes(t);
  }

  /** Some way through t, taking alternatives and repetitions as one likes, begins with c. */
  predicate Starts(t: Tree, c: Byte)
  {
    match t
    case TChar(d) => c == d
    case TSet(cs) => c in cs
    case TAny => c in FULL_SET
    case TRep(p) => Starts(p, c)
    case TSeq(p1, p2) => Starts(p1, c) || (CheckAux(p1, Nullable) && Starts(p2, c))
    case TChoice(p1, p2) => Starts(p1, c) || Starts(p2, c)
    case _ => false
  }

  /** Without predicates the first set holds what t can begin with, and what can follow it if it
      is nullable, and nothing else; and the empty string is accepted just by nullable patterns. */
  lemma {:induction false} FirstExact(t: Tree, follow: Charset, c: Byte)
    requires Plain(t, false) && WellFormed(t)
    ensures c in GetFirst(t, follow).set_ <==> Starts(t, c) || (CheckAux(t, Nullable) && c in follow)
    ensures GetFirst(t, follow).accepts <==> CheckAux(t, Nullable)
  {
    match t
    case TRep(p) => FirstExact(p, follow, c);
    case TSeq(p1, p2) =>
      if CheckAux(p1, Nullable) {
        FirstExact(p2, follow, c);
        FirstExact(p1, GetFirst(p2, follow).set_, c);
      } else {
        FirstExact(p1, FULL_SET, c);
      }
    case TChoice(p1, p2) =>
      FirstExact(p1, follow, c);
      FirstExact(p2, follow, c);
    case _ =>
  }
}
