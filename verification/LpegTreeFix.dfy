/** The flat tree array and its final adjustment before compilation: left-nested sequences and
    choices are turned into right-nested ones, in place, and mean the same. */
module LpegTreeFix {
  import opened LpegTree

  datatype Tag = CharTag | SetTag | AnyTag | TrueTag | FalseTag | RepTag | SeqTag | ChoiceTag | NotTag | AndTag | BehindTag

  /** One element of the array: a node with its counter or the distance to its second child,
      or a slot of the character set that follows a set node. */
  datatype Cell = Node(tag: Tag, u: int) | SetData(cs: Charset) | SetRest

  function NumSiblings(tag: Tag): nat
  {
    match tag
    case SeqTag => 2
    case ChoiceTag => 2
    case RepTag => 1
    case NotTag => 1
    case AndTag => 1
    case BehindTag => 1
    case _ => 0
  }

  /** The array that holds tree t: the first child right behind its parent, the second one
      'u' slots behind it. */
  function Flat(t: Tree): (a: seq<Cell>)
    ensures |a| >= 1 && a[0].Node?
  {
    match t
    case TChar(c) => [Node(CharTag, c as int)]
    case TSet(cs) => [Node(SetTag, 0), SetData(cs), SetRest, SetRest, SetRest]
    case TAny => [Node(AnyTag, 0)]
    case TTrue => [Node(TrueTag, 0)]
    case TFalse => [Node(FalseTag, 0)]
    case TRep(p) => [Node(RepTag, 0)] + Flat(p)
    case TNot(p) => [Node(NotTag, 0)] + Flat(p)
    case TAnd(p) => [Node(AndTag, 0)] + Flat(p)
    case TBehind(p, n) => [Node(BehindTag, n)] + Flat(p)
    case TSeq(p1, p2) => [Node(SeqTag, |Flat(p1)| + 1)] + Flat(p1) + Flat(p2)
    case TChoice(p1, p2) => [Node(ChoiceTag, |Flat(p1)| + 1)] + Flat(p1) + Flat(p2)
  }

  function Binary(tag: Tag, p1: Tree, p2: Tree): Tree
    requires tag == SeqTag || tag == ChoiceTag
  {
    if tag == SeqTag then TSeq(p1, p2) else TChoice(p1, p2)
  }

  predicate SameOp(t: Tree, u: Tree)
  {
    (t.TSeq? && u.TSeq?) || (t.TChoice? && u.TChoice?)
  }

  function Size(t: Tree): nat
  {
    match t
    case TRep(p) => 1 + Size(p)
    case TNot(p) => 1 + Size(p)
    case TAnd(p) => 1 + Size(p)
    case TBehind(p, _) => 1 + Size(p)
    case TSeq(p1, p2) => 1 + Size(p1) + Size(p2)
    case TChoice(p1, p2) => 1 + Size(p1) + Size(p2)
    case _ => 1
  }

  /** Op (Op t11 t12) t2 => Op t11 (Op t12 t2), once. */
  function Rotate(t: Tree): (r: Tree)
    requires (t.TSeq? || t.TChoice?) && SameOp(t, t.sib1)
    ensures SameOp(t, r) && Size(r) == Size(t) && Size(r.sib1) < Size(t.sib1)
  {
    if t.TSeq? then TSeq(t.sib1.sib1, TSeq(t.sib1.sib2, t.sib2))
    else TChoice(t.sib1.sib1, TChoice(t.sib1.sib2, t.sib2))
  }

  /** Until the left child is something else. */
  function Reassociate(t: Tree): (r: Tree)
    requires t.TSeq? || t.TChoice?
    ensures SameOp(t, r) && !SameOp(r, r.sib1) && Size(r) == Size(t)
    decreases Size(t.sib1)
  {
    if SameOp(t, t.sib1) then Reassociate(Rotate(t)) else t
  }

  /** The whole tree, top down. */
  function Fixed(t: Tree): (r: Tree)
    ensures Size(r) == Size(t)
    decreases Size(t)
  {
    match t
    case TRep(p) => TRep(Fixed(p))
    case TNot(p) => TNot(Fixed(p))
    case TAnd(p) => TAnd(Fixed(p))
    case TBehind(p, n) => TBehind(Fixed(p), n)
    case TSeq(_, _) => var u := Reassociate(t); TSeq(Fixed(u.sib1), Fixed(u.sib2))
    case TChoice(_, _) => var u := Reassociate(t); TChoice(Fixed(u.sib1), Fixed(u.sib2))
    case _ => t
  }

  /** Nowhere does a sequence start with a sequence or a choice with a choice. */
  predicate RightNested(t: Tree)
  {
    match t
    case TRep(p) => RightNested(p)
    case TNot(p) => RightNested(p)
    case TAnd(p) => RightNested(p)
    case TBehind(p, _) => RightNested(p)
    case TSeq(p1, p2) => !p1.TSeq? && RightNested(p1) && RightNested(p2)
    case TChoice(p1, p2) => !p1.TChoice? && RightNested(p1) && RightNested(p2)
    case _ => true
  }

  // ------------------------------------------------------------------ meaning

  /** Two trees that every analysis and every match treats alike. */
  ghost predicate Same(t: Tree, u: Tree)
  {
    && WellFormed(t) && WellFormed(u)
    && CheckAux(t, Nullable) == CheckAux(u, Nullable) && CheckAux(t, NoFail) == CheckAux(u, NoFail)
    && FixedLen(t) == FixedLen(u)
    && forall s: seq<Byte>, i: nat :: i <= |s| ==> Match(t, s, i) == Match(u, s, i)
  }

  lemma RotateSame(t: Tree)
    requires WellFormed(t) && (t.TSeq? || t.TChoice?) && SameOp(t, t.sib1)
    ensures Same(t, Rotate(t))
  {
    var u := Rotate(t);
    RotateWellFormed(t);
    forall s: seq<Byte>, i: nat | i <= |s|
      ensures Match(t, s, i) == Match(u, s, i)
    {
      RotateMatch(t, s, i);
    }
    assert FixedLen(t) == FixedLen(u) by {
      assert FixedLen(u.sib2) == if t.TSeq? then FixedLen(TSeq(t.sib1.sib2, t.sib2)) else FixedLen(TChoice(t.sib1.sib2, t.sib2));
    }
  }

  lemma RotateWellFormed(t: Tree)
    requires WellFormed(t) && (t.TSeq? || t.TChoice?) && SameOp(t, t.sib1)
    ensures WellFormed(Rotate(t))
  {
    assert WellFormed(t.sib1) && WellFormed(t.sib1.sib1) && WellFormed(t.sib1.sib2);
    assert WellFormed(Rotate(t).sib2);
  }

  lemma RotateMatch(t: Tree, s: seq<Byte>, i: nat)
    requires WellFormed(t) && (t.TSeq? || t.TChoice?) && SameOp(t, t.sib1) && i <= |s|
    requires WellFormed(Rotate(t))
    ensures Match(t, s, i) == Match(Rotate(t), s, i)
  {
    var a, b, c := t.sib1.sib1, t.sib1.sib2, t.sib2;
    var r := Match(a, s, i);
    if t.TSeq? {
      assert Match(TSeq(a, b), s, i) == if r.Some? then Match(b, s, r.value) else None;
      if r.Some? {
        var r2 := Match(b, s, r.value);
        assert Match(TSeq(b, c), s, r.value) == if r2.Some? then Match(c, s, r2.value) else None;
      }
    } else {
      assert Match(TChoice(a, b), s, i) == if r.Some? then r else Match(b, s, i);
      var r2 := Match(b, s, i);
      assert Match(TChoice(b, c), s, i) == if r2.Some? then r2 else Match(c, s, i);
    }
  }

  lemma {:induction false} ReassociateSame(t: Tree)
    requires WellFormed(t) && (t.TSeq? || t.TChoice?)
    ensures Same(t, Reassociate(t))
    decreases Size(t.sib1)
  {
    if SameOp(t, t.sib1) {
      RotateSame(t);
      ReassociateSame(Rotate(t));
    }
  }

  lemma {:induction false} RepSame(p: Tree, q: Tree, s: seq<Byte>, i: nat)
    requires Same(p, q) && WellFormed(TRep(p)) && WellFormed(TRep(q)) && i <= |s|
    ensures Match(TRep(p), s, i) == Match(TRep(q), s, i)
    decreases |s| - i
  {
    var r := Match(p, s, i);
    if r.Some? { RepSame(p, q, s, r.value); }
  }

  lemma CongruenceRep(p: Tree, q: Tree)
    requires Same(p, q) && WellFormed(TRep(p))
    ensures Same(TRep(p), TRep(q))
  {
    forall s: seq<Byte>, i: nat | i <= |s|
      ensures Match(TRep(p), s, i) == Match(TRep(q), s, i)
    {
      RepSame(p, q, s, i);
    }
  }

  lemma CongruenceNot(p: Tree, q: Tree)
    requires Same(p, q)
    ensures Same(TNot(p), TNot(q))
  {
    forall s: seq<Byte>, i: nat | i <= |s|
      ensures Match(TNot(p), s, i) == Match(TNot(q), s, i)
    {
      assert Match(p, s, i) == Match(q, s, i);
    }
  }

  lemma CongruenceAnd(p: Tree, q: Tree)
    requires Same(p, q)
    ensures Same(TAnd(p), TAnd(q))
  {
    forall s: seq<Byte>, i: nat | i <= |s|
      ensures Match(TAnd(p), s, i) == Match(TAnd(q), s, i)
    {
      assert Match(p, s, i) == Match(q, s, i);
    }
  }

  lemma CongruenceBehind(p: Tree, q: Tree, n: nat)
    requires Same(p, q) && WellFormed(TBehind(p, n))
    ensures Same(TBehind(p, n), TBehind(q, n))
  {
    forall s: seq<Byte>, i: nat | i <= |s|
      ensures Match(TBehind(p, n), s, i) == Match(TBehind(q, n), s, i)
    {
      if n <= i { assert Match(p, s, i - n) == Match(q, s, i - n); }
    }
  }

  lemma CongruenceSeq(p1: Tree, p2: Tree, q1: Tree, q2: Tree)
    requires Same(p1, q1) && Same(p2, q2)
    ensures Same(TSeq(p1, p2), TSeq(q1, q2))
  {
    forall s: seq<Byte>, i: nat | i <= |s|
      ensures Match(TSeq(p1, p2), s, i) == Match(TSeq(q1, q2), s, i)
    {
      var r := Match(p1, s, i);
      assert r == Match(q1, s, i);
      if r.Some? { assert Match(p2, s, r.value) == Match(q2, s, r.value); }
    }
  }

  lemma CongruenceChoice(p1: Tree, p2: Tree, q1: Tree, q2: Tree)
    requires Same(p1, q1) && Same(p2, q2)
    ensures Same(TChoice(p1, p2), TChoice(q1, q2))
  {
    forall s: seq<Byte>, i: nat | i <= |s|
      ensures Match(TChoice(p1, p2), s, i) == Match(TChoice(q1, q2), s, i)
    {
      assert Match(p1, s, i) == Match(q1, s, i);
      assert Match(p2, s, i) == Match(q2, s, i);
    }
  }

  /** The adjusted tree is right nested throughout and means the same. */
  lemma {:induction false} FixedSame(t: Tree)
    requires WellFormed(t)
    ensures Same(t, Fixed(t)) && RightNested(Fixed(t))
    decreases Size(t)
  {
    hide Same, Match, CheckAux, FixedLen;
    match t
    case TRep(p) => FixedSame(p); CongruenceRep(p, Fixed(p));
    case TNot(p) => FixedSame(p); CongruenceNot(p, Fixed(p));
    case TAnd(p) => FixedSame(p); CongruenceAnd(p, Fixed(p));
    case TBehind(p, n) => FixedSame(p); CongruenceBehind(p, Fixed(p), n);
    case TSeq(_, _) => FixedBinary(t);
    case TChoice(_, _) => FixedBinary(t);
    case _ => SameRefl(t);
  }

  lemma SameRefl(t: Tree)
    requires WellFormed(t)
    ensures Same(t, t)
  {
  }

  lemma SameTrans(t: Tree, u: Tree, v: Tree)
    requires Same(t, u) && Same(u, v)
    ensures Same(t, v)
  {
    hide Match, CheckAux, FixedLen, WellFormed;
    forall s: seq<Byte>, i: nat | i <= |s|
      ensures Match(t, s, i) == Match(v, s, i)
    {
      assert Match(t, s, i) == Match(u, s, i) == Match(v, s, i);
    }
  }

  lemma SameParts(t: Tree, u: Tree)
    requires Same(t, u)
    ensures WellFormed(u)
  {
  }

  lemma {:induction false} FixedBinary(t: Tree)
    requires WellFormed(t) && (t.TSeq? || t.TChoice?)
    ensures Same(t, Fixed(t)) && RightNested(Fixed(t))
    decreases Size(t), 0
  {
    hide Same, Match, CheckAux, FixedLen;
    var u := Reassociate(t);
    ReassociateSame(t);
    SameParts(t, u);
    FixedSame(u.sib1);
    FixedSame(u.sib2);
    if t.TSeq? {
      CongruenceSeq(u.sib1, u.sib2, Fixed(u.sib1), Fixed(u.sib2));
    } else {
      CongruenceChoice(u.sib1, u.sib2, Fixed(u.sib1), Fixed(u.sib2));
    }
    SameTrans(t, u, Fixed(t));
    FixedTag(u.sib1);
  }

  lemma FixedTag(t: Tree)
    ensures t.TSeq? == Fixed(t).TSeq? && t.TChoice? == Fixed(t).TChoice?
  {
  }

  // ------------------------------------------------------------------ in place

  /** n cells one place down, as memmove does for overlapping blocks. */
  method MoveDown(a: array<Cell>, to: nat, n: nat)
    requires to + n < a.Length
    modifies a
    ensures a[..] == old(a[..to] + a[to + 1..to + 1 + n] + a[to + n..])
  {
    ghost var before := a[..];
    for k := to to to + n
      invariant forall j :: to <= j < k ==> a[j] == before[j + 1]
      invariant forall j :: 0 <= j < to || k <= j < a.Length ==> a[j] == before[j]
    {
      a[k] := a[k + 1];
    }
    ghost var moved := before[..to] + before[to + 1..to + 1 + n] + before[to + n..];
    assert |moved| == a.Length && forall j :: 0 <= j < a.Length ==> a[j] == moved[j];
  }

  /** The array holds tree t at index i. */
  predicate Holds(a: seq<Cell>, i: nat, t: Tree)
  {
    i + |Flat(t)| <= |a| && a[i..i + |Flat(t)|] == Flat(t)
  }

  /** One rotation, on the cells: the root takes over the distance of its first child, the
      first child of that child moves down by one cell, and its old place takes a new node. */
  lemma RotateFlat(t: Tree)
    requires (t.TSeq? || t.TChoice?) && SameOp(t, t.sib1)
    ensures var f, g := Flat(t), Flat(Rotate(t));
            var n1 := f[0].u - 1;
            && |f| > 1 && |g| == |f| && f[1].Node? && f[1].tag == f[0].tag
            && var n11 := f[1].u - 1;
            && 0 <= n11 && n11 + 2 <= |f|
            && g == RotatedFlat(f, n11, n1 - n11 - 1, f[0].tag)
  {
    hide Flat, RotatedFlat, Rotate, Binary, Size;
    var tag := if t.TSeq? then SeqTag else ChoiceTag;
    RotateIs(t, tag);
    RotateBinary(tag, t.sib1.sib1, t.sib1.sib2, t.sib2);
  }

  lemma RotateIs(t: Tree, tag: Tag)
    requires (t.TSeq? || t.TChoice?) && SameOp(t, t.sib1) && tag == if t.TSeq? then SeqTag else ChoiceTag
    ensures var a, b, c := t.sib1.sib1, t.sib1.sib2, t.sib2;
            t == Binary(tag, Binary(tag, a, b), c) && Rotate(t) == Binary(tag, a, Binary(tag, b, c))
  {
    hide Flat, Size;
  }

  lemma RotateBinary(tag: Tag, a: Tree, b: Tree, c: Tree)
    requires tag == SeqTag || tag == ChoiceTag
    ensures var f, g := Flat(Binary(tag, Binary(tag, a, b), c)), Flat(Binary(tag, a, Binary(tag, b, c)));
            && |f| == |g| && f[0] == Node(tag, |Flat(a)| + |Flat(b)| + 2)
            && |f| >= 2 + |Flat(a)| && f[1] == Node(tag, |Flat(a)| + 1)
            && g == RotatedFlat(f, |Flat(a)|, |Flat(b)|, tag)
  {
    hide Flat, Binary, RotatedFlat;
    FlatBinary(tag, Binary(tag, a, b), c);
    FlatBinary(tag, a, b);
    FlatBinary(tag, a, Binary(tag, b, c));
    FlatBinary(tag, b, c);
    RotateCells(Flat(a), Flat(b), Flat(c), tag);
  }

  lemma FlatBinary(tag: Tag, p1: Tree, p2: Tree)
    requires tag == SeqTag || tag == ChoiceTag
    ensures Flat(Binary(tag, p1, p2)) == [Node(tag, |Flat(p1)| + 1)] + Flat(p1) + Flat(p2)
  {
  }

  function RotatedFlat(f: seq<Cell>, n11: nat, n12: int, tag: Tag): seq<Cell>
    requires n11 + 2 <= |f|
  {
    [Node(tag, n11 + 1)] + f[2..2 + n11] + [Node(tag, n12 + 1)] + f[2 + n11..]
  }

  lemma RotateCells(fa: seq<Cell>, fb: seq<Cell>, fc: seq<Cell>, tag: Tag)
    ensures var f := [Node(tag, |fa| + |fb| + 2)] + ([Node(tag, |fa| + 1)] + fa + fb) + fc;
            var g := [Node(tag, |fa| + 1)] + fa + ([Node(tag, |fb| + 1)] + fb + fc);
            && |f| == |g| && f[0] == Node(tag, |fa| + |fb| + 2) && f[1] == Node(tag, |fa| + 1)
            && g == RotatedFlat(f, |fa|, |fb|, tag)
  {
    var f := [Node(tag, |fa| + |fb| + 2)] + ([Node(tag, |fa| + 1)] + fa + fb) + fc;
    assert f[2..2 + |fa|] == fa;
    assert f[2 + |fa|..] == fb + fc;
  }

  /** Rotate the left spine away, in place; the cells around the tree stay as they are. */
  method CorrectAssociativity(a: array<Cell>, tree: nat, ghost t: Tree)
    requires (t.TSeq? || t.TChoice?) && Holds(a[..], tree, t)
    modifies a
    ensures |Flat(Reassociate(t))| == |Flat(t)| && Holds(a[..], tree, Reassociate(t))
    ensures a[..tree] == old(a[..tree]) && a[tree + |Flat(t)|..] == old(a[tree + |Flat(t)|..])
  {
    hide Flat;
    ghost var u := t;
    RootCells(a[..], tree, u);
    while a[tree + 1].tag == a[tree].tag
      invariant SameOp(t, u) && |Flat(u)| == |Flat(t)| && Holds(a[..], tree, u)
      invariant tree + 1 < a.Length && a[tree].Node? && a[tree + 1].Node?
      invariant a[tree].tag == a[tree + 1].tag <==> SameOp(u, u.sib1)
      invariant Reassociate(u) == Reassociate(t)
      invariant a[..tree] == old(a[..tree]) && a[tree + |Flat(t)|..] == old(a[tree + |Flat(t)|..])
      decreases Size(u.sib1)
    {
      RotateInPlace(a, tree, u);
      u := Rotate(u);
      RootCells(a[..], tree, u);
    }
  }

  /** The body of that loop. */
  method RotateInPlace(a: array<Cell>, tree: nat, ghost u: Tree)
    requires (u.TSeq? || u.TChoice?) && SameOp(u, u.sib1) && Holds(a[..], tree, u)
    modifies a
    ensures |Flat(Rotate(u))| == |Flat(u)| && Holds(a[..], tree, Rotate(u))
    ensures a[..tree] == old(a[..tree]) && a[tree + |Flat(u)|..] == old(a[tree + |Flat(u)|..])
  {
    hide Rotate, Flat, Holds, Moved, RotatedFlat;
    RotateFlat(u);
    ghost var before := a[..];
    ghost var f := Flat(u);
    FirstCells(before, tree, u);
    var tag := a[tree].tag;
    var n1size := a[tree].u - 1;
    var n11size := a[tree + 1].u - 1;
    var n12size := n1size - n11size - 1;
    MoveNodes(a, tree, n11size, n12size, tag);
    RotatedCells(before, a[..], tree, f, Flat(Rotate(u)), n11size, n12size, tag);
    HoldsSlice(a[..], tree, Rotate(u));
  }

  /** the cells with the first child's first child moved down by one, and the two new nodes */
  function Moved(a: seq<Cell>, tree: nat, n11: nat, n12: int, tag: Tag): (r: seq<Cell>)
    requires tree + 2 + n11 <= |a|
    ensures |r| == |a|
  {
    var moved := a[..tree + 1] + a[tree + 2..tree + 2 + n11] + a[tree + 1 + n11..];
    moved[tree := Node(tag, n11 + 1)][tree + 1 + n11 := Node(tag, n12 + 1)]
  }

  method MoveNodes(a: array<Cell>, tree: nat, n11: nat, n12: int, tag: Tag)
    requires tree + 2 + n11 <= a.Length
    modifies a
    ensures a[..] == Moved(old(a[..]), tree, n11, n12, tag)
  {
    MoveDown(a, tree + 1, n11);
    ghost var moved := a[..];
    a[tree] := Node(tag, n11 + 1);
    assert a[..] == moved[tree := Node(tag, n11 + 1)];
    a[tree + 1 + n11] := Node(tag, n12 + 1);
    assert a[..] == moved[tree := Node(tag, n11 + 1)][tree + 1 + n11 := Node(tag, n12 + 1)];
  }

  lemma FirstCells(a: seq<Cell>, i: nat, t: Tree)
    requires Holds(a, i, t) && |Flat(t)| > 1
    ensures i + |Flat(t)| <= |a| && a[i..i + |Flat(t)|] == Flat(t) && a[i] == Flat(t)[0] && a[i + 1] == Flat(t)[1]
  {
    hide Flat;
    assert a[i..i + |Flat(t)|][0] == a[i] && a[i..i + |Flat(t)|][1] == a[i + 1];
  }

  lemma HoldsSlice(a: seq<Cell>, i: nat, t: Tree)
    requires i + |Flat(t)| <= |a| && a[i..i + |Flat(t)|] == Flat(t)
    ensures Holds(a, i, t)
  {
  }

  lemma RotatedCells(before: seq<Cell>, after: seq<Cell>, tree: nat, f: seq<Cell>, g: seq<Cell>, n11: nat, n12: int, tag: Tag)
    requires |f| == |g| && tree + |f| <= |before| == |after| && before[tree..tree + |f|] == f
    requires n11 + 2 <= |f| && g == RotatedFlat(f, n11, n12, tag) && after == Moved(before, tree, n11, n12, tag)
    ensures after[tree..tree + |g|] == g
    ensures after[..tree] == before[..tree] && after[tree + |f|..] == before[tree + |f|..]
  {
    hide Moved, RotatedFlat;
    RotatedLength(f, n11, n12, tag);
    forall j | 0 <= j < |after|
      ensures after[j] == if tree <= j < tree + |g| then g[j - tree] else before[j]
    {
      MovedAt(before, tree, n11, n12, tag, j);
      if tree <= j < tree + |g| {
        RotatedAt(f, n11, n12, tag, j - tree);
        assert before[j] == before[tree..tree + |f|][j - tree];
        if j + 1 < tree + |f| { assert before[j + 1] == before[tree..tree + |f|][j + 1 - tree]; }
      }
    }
  }

  lemma RotatedLength(f: seq<Cell>, n11: nat, n12: int, tag: Tag)
    requires n11 + 2 <= |f|
    ensures |RotatedFlat(f, n11, n12, tag)| == |f|
  {
  }

  lemma RotatedAt(f: seq<Cell>, n11: nat, n12: int, tag: Tag, k: nat)
    requires n11 + 2 <= |f| && k < |f|
    ensures |RotatedFlat(f, n11, n12, tag)| == |f|
    ensures RotatedFlat(f, n11, n12, tag)[k] ==
            if k == 0 then Node(tag, n11 + 1) else if k == n11 + 1 then Node(tag, n12 + 1) else if k <= n11 then f[k + 1] else f[k]
  {
  }

  lemma MovedAt(a: seq<Cell>, tree: nat, n11: nat, n12: int, tag: Tag, j: nat)
    requires tree + 2 + n11 <= |a| && j < |a|
    ensures Moved(a, tree, n11, n12, tag)[j] ==
            if j == tree then Node(tag, n11 + 1) else if j == tree + 1 + n11 then Node(tag, n12 + 1)
            else if tree < j <= tree + n11 then a[j + 1] else a[j]
  {
  }

  /** The tags at the root and at its first child. */
  lemma RootCells(a: seq<Cell>, i: nat, t: Tree)
    requires (t.TSeq? || t.TChoice?) && Holds(a, i, t)
    ensures i + 1 < |a| && a[i].Node? && a[i + 1].Node? && |Flat(t)| > 1
    ensures a[i].tag == a[i + 1].tag <==> SameOp(t, t.sib1)
  {
    hide Flat;
    FlatBinary(if t.TSeq? then SeqTag else ChoiceTag, t.sib1, t.sib2);
    assert Flat(t)[1] == Flat(t.sib1)[0];
    assert a[i..i + |Flat(t)|][0] == a[i] && a[i..i + |Flat(t)|][1] == a[i + 1];
    RootTag(t);
    RootTag(t.sib1);
  }

  lemma RootTag(t: Tree)
    ensures Flat(t)[0].Node? && (Flat(t)[0].tag == SeqTag <==> t.TSeq?) && (Flat(t)[0].tag == ChoiceTag <==> t.TChoice?)
  {
  }

  /** The tag of the root tells the constructor. */
  predicate Tagged(t: Tree, tag: Tag)
  {
    match t
    case TChar(_) => tag == CharTag
    case TSet(_) => tag == SetTag
    case TAny => tag == AnyTag
    case TTrue => tag == TrueTag
    case TFalse => tag == FalseTag
    case TRep(_) => tag == RepTag
    case TSeq(_, _) => tag == SeqTag
    case TChoice(_, _) => tag == ChoiceTag
    case TNot(_) => tag == NotTag
    case TAnd(_) => tag == AndTag
    case TBehind(_, _) => tag == BehindTag
  }

  function WithChild(t: Tree, p: Tree): Tree
    requires t.TRep? || t.TNot? || t.TAnd? || t.TBehind?
  {
    match t
    case TRep(_) => TRep(p)
    case TNot(_) => TNot(p)
    case TAnd(_) => TAnd(p)
    case TBehind(_, n) => TBehind(p, n)
  }

  lemma RootOf(a: seq<Cell>, i: nat, t: Tree)
    requires Holds(a, i, t)
    ensures i < |a| && a[i].Node? && Tagged(t, a[i].tag)
  {
    assert a[i..i + |Flat(t)|][0] == a[i];
  }

  lemma UnaryCells(a: seq<Cell>, i: nat, t: Tree)
    requires (t.TRep? || t.TNot? || t.TAnd? || t.TBehind?) && Holds(a, i, t)
    ensures |Flat(t)| == 1 + |Flat(t.sib1)| && Holds(a, i + 1, t.sib1)
  {
    var n := |Flat(t)|;
    assert Flat(t)[1..] == Flat(t.sib1);
    assert a[i..i + n][1..] == a[i + 1..i + n];
  }

  lemma UnaryBack(a: seq<Cell>, b: seq<Cell>, i: nat, t: Tree, p: Tree)
    requires (t.TRep? || t.TNot? || t.TAnd? || t.TBehind?) && Holds(a, i, t) && |a| == |b|
    requires a[..i + 1] == b[..i + 1] && Holds(b, i + 1, p)
    ensures Holds(b, i, WithChild(t, p)) && |Flat(WithChild(t, p))| == 1 + |Flat(p)|
  {
    hide Flat;
    var u := WithChild(t, p);
    UnaryFlat(t, p);
    RootCell(a, i, t);
    assert a[..i + 1][i] == b[..i + 1][i];
    Join3(b, i, |Flat(p)|, 0);
    assert b[i + 1 + |Flat(p)|..i + 1 + |Flat(p)|] == [];
  }

  lemma UnaryFlat(t: Tree, p: Tree)
    requires t.TRep? || t.TNot? || t.TAnd? || t.TBehind?
    ensures Flat(WithChild(t, p)) == [Flat(t)[0]] + Flat(p)
  {
  }

  lemma Slice(a: seq<Cell>, i: nat, n: nat, j: nat, k: nat)
    requires i + n <= |a| && j <= k <= n
    ensures a[i..i + n][j..k] == a[i + j..i + k]
  {
    var b := a[i..i + n];
    assert forall m :: j <= m < k ==> b[m] == a[i + m];
    assert forall m :: 0 <= m < k - j ==> b[j..k][m] == b[j + m];
  }

  lemma Parts(x: Cell, p: seq<Cell>, q: seq<Cell>)
    ensures var f := [x] + p + q; f[1..1 + |p|] == p && f[1 + |p|..|f|] == q
  {
  }

  lemma BinaryCells(a: seq<Cell>, i: nat, t: Tree)
    requires (t.TSeq? || t.TChoice?) && Holds(a, i, t)
    ensures i + |Flat(t)| <= |a| && a[i].Node?
    ensures a[i].u == 1 + |Flat(t.sib1)| && |Flat(t)| == a[i].u + |Flat(t.sib2)|
    ensures Holds(a, i + 1, t.sib1) && Holds(a, i + a[i].u, t.sib2)
  {
    hide Flat;
    RootCell(a, i, t);
    var f, tag := Flat(t), if t.TSeq? then SeqTag else ChoiceTag;
    FlatBinary(tag, t.sib1, t.sib2);
    var k := f[0].u;
    Parts(f[0], Flat(t.sib1), Flat(t.sib2));
    Slice(a, i, |f|, 1, k);
    Slice(a, i, |f|, k, |f|);
  }

  lemma BinaryBack(a: seq<Cell>, i: nat, t: Tree, p: Tree, q: Tree)
    requires (t.TSeq? || t.TChoice?) && |Flat(p)| == |Flat(t.sib1)|
    requires i < |a| && a[i] == Flat(t)[0] && Holds(a, i + 1, p) && Holds(a, i + 1 + |Flat(p)|, q)
    ensures var u := if t.TSeq? then TSeq(p, q) else TChoice(p, q);
            Holds(a, i, u) && |Flat(u)| == 1 + |Flat(p)| + |Flat(q)|
  {
    hide Flat;
    var tag := if t.TSeq? then SeqTag else ChoiceTag;
    FlatBinary(tag, t.sib1, t.sib2);
    FlatBinary(tag, p, q);
    var m, n := |Flat(p)|, |Flat(q)|;
    Join3(a, i, m, n);
  }

  lemma Join3(a: seq<Cell>, i: nat, m: nat, n: nat)
    requires i + 1 + m + n <= |a|
    ensures a[i..i + 1 + m + n] == [a[i]] + a[i + 1..i + 1 + m] + a[i + 1 + m..i + 1 + m + n]
  {
    assert a[i..i + 1 + m] == [a[i]] + a[i + 1..i + 1 + m];
    assert a[i..i + 1 + m + n] == a[i..i + 1 + m] + a[i + 1 + m..i + 1 + m + n];
  }

  /** Cells outside a changed block keep what they hold. */
  lemma Untouched(a: seq<Cell>, b: seq<Cell>, from: nat, to: nat, i: nat, t: Tree)
    requires |a| == |b| && from <= to <= |a| && a[..from] == b[..from] && a[to..] == b[to..]
    requires Holds(a, i, t) && (i + |Flat(t)| <= from || to <= i)
    ensures Holds(b, i, t)
  {
    hide Flat;
    var n := |Flat(t)|;
    if i + n <= from {
      Slice(a, 0, from, i, i + n);
      Slice(b, 0, from, i, i + n);
    } else {
      Slice(a, to, |a| - to, i - to, i - to + n);
      Slice(b, to, |a| - to, i - to, i - to + n);
    }
  }

  /** The final adjustment of a whole tree, in place: the array then holds the right-nested
      tree in the same cells. */
  method FinalFix(a: array<Cell>, i: nat, ghost t: Tree)
    requires Holds(a[..], i, t)
    modifies a
    ensures |Flat(Fixed(t))| == |Flat(t)| && Holds(a[..], i, Fixed(t))
    ensures a[..i] == old(a[..i]) && a[i + |Flat(t)|..] == old(a[i + |Flat(t)|..])
    decreases Size(t)
  {
    hide Flat, Holds, Reassociate;
    RootOf(a[..], i, t);
    if NumSiblings(a[i].tag) == 1 {
      UnaryCells(a[..], i, t);
      FinalFix(a, i + 1, t.sib1);
      UnaryFixed(old(a[..]), a[..], i, t);
    } else if NumSiblings(a[i].tag) == 2 {
      CorrectAssociativity(a, i, t);
      ghost var u := Reassociate(t);
      FixChildren(a, i, u);
    }
  }

  lemma UnaryFixed(before: seq<Cell>, after: seq<Cell>, i: nat, t: Tree)
    requires (t.TRep? || t.TNot? || t.TAnd? || t.TBehind?) && Holds(before, i, t) && |before| == |after|
    requires |Flat(Fixed(t.sib1))| == |Flat(t.sib1)| && Holds(after, i + 1, Fixed(t.sib1))
    requires after[..i + 1] == before[..i + 1]
    ensures |Flat(Fixed(t))| == |Flat(t)| && Holds(after, i, Fixed(t))
    ensures after[..i] == before[..i]
  {
    hide Flat, Holds;
    UnaryCells(before, i, t);
    UnaryBack(before, after, i, t, Fixed(t.sib1));
    assert after[..i + 1][..i] == before[..i + 1][..i];
  }

  /** Both children, each in its own cells. */
  method FixChildren(a: array<Cell>, i: nat, ghost u: Tree)
    requires (u.TSeq? || u.TChoice?) && Holds(a[..], i, u)
    modifies a
    ensures var v := if u.TSeq? then TSeq(Fixed(u.sib1), Fixed(u.sib2)) else TChoice(Fixed(u.sib1), Fixed(u.sib2));
            |Flat(v)| == |Flat(u)| && Holds(a[..], i, v)
    ensures a[..i] == old(a[..i]) && a[i + |Flat(u)|..] == old(a[i + |Flat(u)|..])
    decreases Size(u), 0
  {
    hide Flat, Holds;
    BinaryCells(a[..], i, u);
    ghost var a0 := a[..];
    ghost var n1, n2 := |Flat(u.sib1)|, |Flat(u.sib2)|;
    var ps := a[i].u;
    FinalFix(a, i + 1, u.sib1);
    ghost var a1 := a[..];
    Untouched(a0, a1, i + 1, i + 1 + n1, i + ps, u.sib2);
    assert a1[..i + 1][i] == a0[..i + 1][i];
    FinalFix(a, i + ps, u.sib2);
    ghost var a2 := a[..];
    Untouched(a1, a2, i + ps, i + ps + n2, i + 1, Fixed(u.sib1));
    assert a2[..i + ps][i] == a1[..i + ps][i];
    assert a2[i] == Flat(u)[0] by { RootCell(a0, i, u); }
    BinaryBack(a2, i, u, Fixed(u.sib1), Fixed(u.sib2));
    Outside(a0, a1, a2, i, n1, n2);
  }

  /** Two adjacent blocks changed one after the other: nothing around them did. */
  lemma Outside(a0: seq<Cell>, a1: seq<Cell>, a2: seq<Cell>, i: nat, n1: nat, n2: nat)
    requires |a0| == |a1| == |a2| && i + 1 + n1 + n2 <= |a0|
    requires a1[..i + 1] == a0[..i + 1] && a1[i + 1 + n1..] == a0[i + 1 + n1..]
    requires a2[..i + 1 + n1] == a1[..i + 1 + n1] && a2[i + 1 + n1 + n2..] == a1[i + 1 + n1 + n2..]
    ensures a2[..i] == a0[..i] && a2[i + 1 + n1 + n2..] == a0[i + 1 + n1 + n2..]
  {
    assert a2[..i] == a2[..i + 1 + n1][..i] == a1[..i + 1 + n1][..i] == a1[..i + 1][..i] == a0[..i];
    assert a2[i + 1 + n1 + n2..] == a1[i + 1 + n1..][n2..] == a0[i + 1 + n1..][n2..] == a0[i + 1 + n1 + n2..];
  }

  lemma RootCell(a: seq<Cell>, i: nat, t: Tree)
    requires Holds(a, i, t)
    ensures i < |a| && a[i] == Flat(t)[0]
  {
    assert a[i..i + |Flat(t)|][0] == a[i];
  }
}
