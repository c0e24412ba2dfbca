/** Comparing, subtracting, shifting and dividing long numbers. */
module BigintDivision {
  // The quotient digit is estimated from the two top words and corrected once; how far the divisor
  // must be shifted for that to be enough is proved too.

  import opened BigintValue
  import opened Bigint

  // ------------------------------------------------------------------ lshift

  /** b * 2^k */
  method LShift(b: Big, k: nat) returns (b1: Big)
    requires b.Shape() && b.wds >= 1
    ensures b1.Shape() && fresh(b1) && fresh(b1.x) && b1.Value() == b.Value() * Two(k)
    ensures b.Valid() && b.Value() > 0 ==> b1.Valid()
  {
    hide Val, Pow, Two;
    var n, bits := k / 32, k % 32;
    var n1 := n + b.wds + 1;
    var k1 := Room(b, n1);
    b1 := new Big(k1);
    var z := ShiftInto(b1.x, b.x[..b.wds], n, bits);
    ghost var words := b1.x[..n + b.wds];
    if z != 0 {
      assert b1.x[..n1] == words + [z];
      ValSnoc(words, z);
    }
    b1.wds := if z != 0 then n1 else n1 - 1;
    SplitShift(k);
    Assoc(b.Value(), Pow(n), Two(bits));
    Commute(Pow(n), b.Value());
    Assoc(Pow(n), b.Value(), Two(bits));
    if b.Valid() && b.Value() > 0 && z == 0 { TopStays(words, b.Words(), n, Two(bits)); }
  }

  /** A size that holds n1 words. */
  method Room(b: Big, n1: nat) returns (k1: nat)
    requires b.Shape()
    ensures Two(k1) >= n1
  {
    k1 := b.k;
    var i := b.x.Length;
    while n1 > i
      invariant i == Two(k1)
      decreases n1 - i
    {
      i := i * 2;
      k1 := k1 + 1;
    }
  }

  lemma SplitShift(k: nat)
    ensures Two(k) == Pow(k / 32) * Two(k % 32)
  {
    TwoPow(k / 32);
    TwoAdd(32 * (k / 32), k % 32);
    assert k == 32 * (k / 32) + k % 32;
  }

  /** The shifted words behind n zero words; z is what does not fit. */
  method ShiftInto(x1: array<Word>, x: seq<Word>, n: nat, bits: nat) returns (z: Word)
    requires n + |x| < x1.Length && bits < 32
    modifies x1
    ensures x1[n + |x|] == (if bits == 0 then old(x1[n + |x|]) else z)
    ensures bits == 0 ==> z == 0
    ensures Val(x1[..n + |x|]) + z * Pow(n + |x|) == Pow(n) * (Val(x) * Two(bits))
  {
    hide Val, Pow, Two, Shifted;
    for i := 0 to n
      invariant forall j :: 0 <= j < i ==> x1[j] == 0
      invariant forall j :: n <= j < x1.Length ==> x1[j] == old(x1[j])
    {
      x1[i] := 0;
    }
    z := 0;
    ghost var out: seq<Word> := [];
    ShiftStart(x, bits);
    for i := 0 to |x|
      invariant |out| == i && z < Two(bits) && Shifted(out, x, z, Two(bits))
      invariant bits == 0 ==> z == 0
      invariant forall j :: 0 <= j < n ==> x1[j] == 0
      invariant forall j :: n <= j < n + i ==> x1[j] == out[j - n]
      invariant forall j :: n + i <= j < x1.Length ==> x1[j] == old(x1[j])
    {
      if bits != 0 {
        ShiftMore(out, x, z, bits);
        var w: Word := x[i] * Two(bits) % BASE + z;
        z := x[i] / Two(32 - bits);
        x1[n + i] := w;
        out := out + [w];
      } else {
        CopyMore(out, x);
        x1[n + i] := x[i];
        out := out + [x[i]];
      }
    }
    assert x1[..n + |x|] == Zeros(n) + out;
    if bits != 0 {
      TwoSmall(bits);
      x1[n + |x|] := z;
      assert x1[..n + |x|] == Zeros(n) + out;
    }
    ShiftEnd(out, x, z, n, Two(bits));
  }

  lemma ShiftStart(x: seq<Word>, bits: nat)
    ensures Shifted([], x, 0, Two(bits)) && 0 < Two(bits)
  {
    assert x[..0] == [];
  }

  lemma CopyMore(out: seq<Word>, x: seq<Word>)
    requires |out| < |x| && Shifted(out, x, 0, Two(0))
    ensures Shifted(out + [x[|out|]], x, 0, Two(0))
  {
    ValSnoc(out, x[|out|]);
    ValPrefix(x, |out|);
  }

  lemma ShiftEnd(out: seq<Word>, x: seq<Word>, z: Word, n: nat, t: nat)
    requires |out| == |x| && Shifted(out, x, z, t)
    ensures Val(Zeros(n) + out) + z * Pow(n + |x|) == Pow(n) * (Val(x) * t)
  {
    assert x[..|x|] == x;
    ValShift(out, n);
    PowAdd(n, |x|);
    Distribute(Pow(n), Val(out), z, Pow(|x|));
  }

  /** Multiplying does not clear the top word unless something moves beyond it. */
  lemma TopStays(out: seq<Word>, x: seq<Word>, n: nat, t: nat)
    requires Normal(x) && Val(x) > 0 && t > 0 && |out| == n + |x| && Val(out) == Pow(n) * (Val(x) * t)
    ensures Normal(out)
  {
    var top := |out| - 1;
    if |out| > 1 && out[top] == 0 {
      ValTrim(out, top);
      ValBound(out[..top]);
      TopWord(x);
      XTop(x);
      MulLe(1, x[|x| - 1], Pow(|x| - 1));
      MulLe(1, t, Val(x));
      Commute(Val(x), t);
      PowAdd(n, |x| - 1);
      MulLe(Pow(|x| - 1), Val(x) * t, Pow(n));
      Commute(Pow(n), Val(x) * t);
      Commute(Pow(n), Pow(|x| - 1));
      assert false;
    }
  }

  lemma XTop(x: seq<Word>)
    requires Normal(x) && Val(x) > 0
    ensures x[|x| - 1] >= 1
  {
    if |x| == 1 { OneWord(x[0]); assert x == [x[0]]; }
  }

  // ------------------------------------------------------------------ cmp

  /** The sign of a - b, for numbers without superfluous words. */
  method Cmp(a: Big, b: Big) returns (r: int)
    requires b.Valid() && (a.Valid() || (a.Shape() && a.wds == 0 && b.Value() > 0))
    ensures r < 0 <==> a.Value() < b.Value()
    ensures r > 0 <==> a.Value() > b.Value()
  {
    hide Val;
    var i, j := a.wds, b.wds;
    if i != j {
      if i < j {
        LongerGreater(b.Words(), a.Words());
      } else {
        LongerGreater(a.Words(), b.Words());
      }
      return i - j;
    }
    var k := j;
    while k > 0
      invariant 0 <= k <= j && a.Words()[k..] == b.Words()[k..]
    {
      k := k - 1;
      if a.x[k] != b.x[k] {
        if a.x[k] < b.x[k] {
          CompareAt(a.Words(), b.Words(), k);
          return -1;
        } else {
          CompareAt(b.Words(), a.Words(), k);
          return 1;
        }
      }
      assert a.Words()[k..] == [a.x[k]] + a.Words()[k + 1..] && b.Words()[k..] == [b.x[k]] + b.Words()[k + 1..];
    }
    assert a.Words() == b.Words();
    return 0;
  }

  // ------------------------------------------------------------------ subtraction with borrow

  /** One word of a difference, in 64 bits that wrap: the low half, and bit 32 as the borrow. */
  function LowHalf(d: int): Word { d % WRAP64 % BASE }

  function Borrow(d: int): int { d % WRAP64 / BASE % 2 }

  lemma BorrowWord(d: int)
    requires -BASE <= d < BASE
    ensures d == LowHalf(d) - BASE * Borrow(d) && 0 <= Borrow(d) <= 1
  {
    if d < 0 {
      assert d % WRAP64 == d + WRAP64;
    } else {
      assert d % WRAP64 == d;
    }
  }

  /** the words done so far: out = a - b, up to a borrow from the next word */
  ghost predicate Less(out: seq<Word>, a: seq<Word>, bv: int, borrow: int)
    requires |out| <= |a|
  {
    Val(out) == Val(a[..|out|]) - bv + borrow * Pow(|out|)
  }

  lemma LessMore(out: seq<Word>, a: seq<Word>, bv: int, y: int, borrow: int, d: int)
    requires |out| < |a| && Less(out, a, bv, borrow) && d == a[|out|] - y - borrow && -BASE <= d < BASE
    ensures Less(out + [LowHalf(d)], a, bv + y * Pow(|out|), Borrow(d))
  {
    hide Val, LowHalf, Borrow;
    BorrowWord(d);
    ValSnoc(out, LowHalf(d));
    ValPrefix(a, |out|);
    BorrowStep(LowHalf(d), Borrow(d), a[|out|], y, borrow, Pow(|out|));
  }

  lemma BorrowStep(low: int, next: int, w: int, y: int, borrow: int, p: int)
    requires low - BASE * next == w - y - borrow
    ensures borrow * p + low * p == w * p - y * p + next * (BASE * p)
  {
    assert low * p == (w - y - borrow + BASE * next) * p;
    assert BASE * next * p == next * (BASE * p);
  }

  /** A difference that is not negative leaves no borrow. */
  lemma NoBorrow(out: seq<Word>, a: seq<Word>, bv: int, borrow: int)
    requires |out| == |a| && Less(out, a, bv, borrow) && 0 <= bv <= Val(a)
    ensures borrow <= 0 && (borrow >= 0 ==> Val(out) == Val(a) - bv)
  {
    assert a[..|a|] == a;
    ValBound(out);
    if borrow > 0 { MulLe(1, borrow, Pow(|out|)); }
  }

  // ------------------------------------------------------------------ diff

  /** |a - b|, with the sign. */
  method Diff(a0: Big, b0: Big) returns (c: Big)
    requires a0.Valid() && b0.Valid()
    ensures c.Valid() && fresh(c) && fresh(c.x)
    ensures c.sign == if a0.Value() < b0.Value() then 1 else 0
    ensures c.Value() == if a0.Value() < b0.Value() then b0.Value() - a0.Value() else a0.Value() - b0.Value()
  {
    hide Val, Pow;
    var i := Cmp(a0, b0);
    if i == 0 {
      c := new Big(0);
      c.wds := 1;
      c.x[0] := 0;
      assert c.Words() == [0];
      OneWord(0);
      return;
    }
    var a, b := a0, b0;
    if i < 0 { a, b := b0, a0; }
    if a.wds < b.wds { LongerGreater(b.Words(), a.Words()); }
    c := new Big(a.k);
    c.sign := if i < 0 then 1 else 0;
    Subtract(c.x, a.x[..a.wds], b.x[..b.wds]);
    var wa := a.wds;
    ghost var words := c.x[..wa];
    assert exists j :: 0 <= j < wa && c.x[j] != 0 by { if forall j :: 0 <= j < wa ==> words[j] == 0 { ValTrim(words, 0); EmptyValue(); } }
    while c.x[wa - 1] == 0
      invariant 1 <= wa <= a.wds && forall j :: wa <= j < a.wds ==> c.x[j] == 0
      invariant exists j :: 0 <= j < wa && c.x[j] != 0
      decreases wa
    {
      wa := wa - 1;
    }
    ValTrim(words, wa);
    assert words[..wa] == c.x[..wa];
    c.wds := wa;
  }

  /** its two loops */
  method Subtract(xc: array<Word>, a: seq<Word>, b: seq<Word>)
    requires 1 <= |b| <= |a| <= xc.Length && Val(b) <= Val(a)
    modifies xc
    ensures Val(xc[..|a|]) == Val(a) - Val(b)
  {
    hide Val, Pow, Less, LowHalf, Borrow;
    var borrow, i := 0, 0;
    LessStart(a);
    assert xc[..0] == [] && b[..0] == [];
    EmptyValue();
    while i < |b|
      invariant 0 <= i <= |b| && 0 <= borrow <= 1 && Less(xc[..i], a, Val(b[..i]), borrow)
    {
      var y: int := a[i] as int - b[i] - borrow;
      BorrowWord(y);
      LessMore(xc[..i], a, Val(b[..i]), b[i], borrow, y);
      ValPrefix(b, i);
      ghost var out := xc[..i];
      borrow := Borrow(y);
      xc[i] := LowHalf(y);
      assert xc[..i + 1] == out + [LowHalf(y)];
      i := i + 1;
    }
    assert b[..|b|] == b;
    while i < |a|
      invariant |b| <= i <= |a| && 0 <= borrow <= 1 && Less(xc[..i], a, Val(b), borrow)
    {
      var y: int := a[i] as int - borrow;
      BorrowWord(y);
      LessMore(xc[..i], a, Val(b), 0, borrow, y);
      ghost var out := xc[..i];
      borrow := Borrow(y);
      xc[i] := LowHalf(y);
      assert xc[..i + 1] == out + [LowHalf(y)];
      i := i + 1;
    }
    NoBorrow(xc[..|a|], a, Val(b), borrow);
  }

  lemma LessStart(a: seq<Word>)
    ensures Less([], a, 0, 0)
  {
    assert a[..0] == [];
  }

  // ------------------------------------------------------------------ quorem

  /** out = b - q * S so far, up to a carry of the product and a borrow of the difference */
  ghost predicate Reduced(out: seq<Word>, b: seq<Word>, s: seq<Word>, q: int, owed: int)
    requires |out| <= |b| && |out| <= |s|
  {
    Val(out) == Val(b[..|out|]) - q * Val(s[..|out|]) + owed * Pow(|out|)
  }

  /** one word: ys = s * q + carry, then its low half is taken from b with the borrow */
  lemma ReduceMore(out: seq<Word>, b: seq<Word>, s: seq<Word>, q: int, carry: int, borrow: int, ys: int, d: int)
    requires |out| < |b| && |out| < |s| && Reduced(out, b, s, q, borrow + carry)
    requires ys == s[|out|] * q + carry && 0 <= ys && d == b[|out|] - ys % BASE - borrow && 0 <= borrow <= 1
    ensures Reduced(out + [LowHalf(d)], b, s, q, Borrow(d) + ys / BASE) && 0 <= Borrow(d) <= 1
  {
    var n := |out|;
    BorrowWord(d);
    ValSnoc(out, LowHalf(d));
    ValPrefix(b, n);
    ValPrefix(s, n);
    ReduceStep(LowHalf(d), Borrow(d), b[n], s[n], q, carry, borrow, ys % BASE, ys / BASE, Pow(n), Val(s[..n]));
  }

  lemma ReduceStep(low: int, next: int, w: int, t: int, q: int, carry: int, borrow: int, ysLow: int, ysHigh: int, p: int, v: int)
    requires low - BASE * next == w - ysLow - borrow && ysLow + ysHigh * BASE == t * q + carry
    ensures (borrow + carry) * p - q * v + low * p == w * p - q * (v + t * p) + (next + ysHigh) * (BASE * p)
  {
    assert low + borrow + carry + t * q == w + BASE * (next + ysHigh);
    assert (low + borrow + carry + t * q) * p == low * p + (borrow + carry) * p + t * q * p;
    assert (w + BASE * (next + ysHigh)) * p == w * p + BASE * (next + ysHigh) * p;
    assert t * q * p == q * (t * p) && q * (v + t * p) == q * v + q * (t * p);
    assert BASE * (next + ysHigh) * p == (next + ysHigh) * (BASE * p);
  }

  /** b := b - q * S, word by word; what is owed at the end is nothing if q * S <= b. */
  method Reduce(bx: array<Word>, s: seq<Word>, q: Word)
    requires 1 <= |s| <= bx.Length && q * Val(s) <= Val(bx[..|s|])
    modifies bx
    ensures Val(bx[..|s|]) == old(Val(bx[..|s|])) - q * Val(s)
  {
    hide Val, Pow, Reduced, LowHalf, Borrow;
    ghost var b := bx[..|s|];
    var borrow, carry, i := 0, 0, 0;
    ReduceStart(b, s, q);
    assert bx[..0] == [];
    while i < |s|
      invariant 0 <= i <= |s| && 0 <= borrow <= 1 && 0 <= carry < BASE
      invariant Reduced(bx[..i], b, s, q, borrow + carry)
      invariant forall j :: i <= j < |s| ==> bx[j] == b[j]
    {
      Carry32(s[i], q, 0, carry);
      var ys: int := s[i] * q + carry;
      var y: int := bx[i] - ys % BASE - borrow;
      ghost var out := bx[..i];
      ReduceMore(out, b, s, q, carry, borrow, ys, y);
      carry := ys / BASE;
      borrow := Borrow(y);
      bx[i] := LowHalf(y);
      assert bx[..i + 1] == out + [LowHalf(y)];
      i := i + 1;
    }
    NothingOwed(bx[..|s|], b, s, q, borrow + carry);
  }

  lemma ReduceStart(b: seq<Word>, s: seq<Word>, q: int)
    ensures Reduced([], b, s, q, 0)
  {
    assert b[..0] == [] && s[..0] == [];
  }

  lemma NothingOwed(out: seq<Word>, b: seq<Word>, s: seq<Word>, q: int, owed: int)
    requires |out| == |b| == |s| && Reduced(out, b, s, q, owed) && q * Val(s) <= Val(b) && owed >= 0
    ensures Val(out) == Val(b) - q * Val(s)
  {
    assert b[..|b|] == b && s[..|s|] == s;
    ValBound(out);
    if owed > 0 { MulLe(1, owed, Pow(|out|)); }
  }

  /** Drop zero words from the top, n + 1 words at first; a single zero word becomes none. */
  method DropZeros(b: Big, n0: nat)
    requires b.Shape() && b.wds == n0 + 1
    modifies b
    ensures b.Shape() && b.wds <= n0 + 1 && b.Value() == old(b.Value()) && b.sign == old(b.sign)
    ensures b.Valid() || (b.wds == 0 && n0 == 0 && b.x[0] == 0)
  {
    var n := n0;
    ghost var words := b.Words();
    if b.x[n] == 0 {
      var e := n - 1;
      while e > 0 && b.x[e] == 0
        invariant e == n - 1 && n <= n0 && (n == 0 ==> n0 == 0) && -1 <= e
        invariant forall j :: n <= j <= n0 ==> b.x[j] == 0
      {
        n := n - 1;
        e := e - 1;
      }
      ValTrim(words, n);
      assert words[..n] == b.x[..n];
      b.wds := n;
    }
  }

  /** the estimate of the quotient from the top words */
  function Estimate(b: seq<Word>, s: seq<Word>): nat
    requires s != []
  {
    if |b| < |s| then 0 else b[|s| - 1] as int / (s[|s| - 1] as int + 1)
  }

  /** The estimate is never too high. */
  lemma EstimateLow(b: seq<Word>, s: seq<Word>)
    requires s != [] && |b| == |s|
    ensures Estimate(b, s) * Val(s) <= Val(b)
  {
    hide Val, Pow;
    var n := |s| - 1;
    TopWord(b);
    TopWord(s);
    LowProduct(b[n], s[n], Val(b), Val(s), Pow(n));
  }

  lemma LowProduct(w: nat, t: nat, v: nat, u: nat, p: nat)
    requires w * p <= v && u < (t + 1) * p
    ensures w / (t + 1) * u <= v
  {
    var q := w / (t + 1);
    assert q * (t + 1) <= w;
    MulLe(q * (t + 1), w, p);
    Assoc(q, t + 1, p);
    MulLe(u, (t + 1) * p, q);
    Commute(q, u);
    Commute(q, (t + 1) * p);
  }

  /** It is too low by one at most, if the top word of S is greater than it. */
  lemma EstimateClose(b: seq<Word>, s: seq<Word>)
    requires s != [] && |b| == |s| && Estimate(b, s) < s[|s| - 1]
    ensures Val(b) < (Estimate(b, s) + 2) * Val(s)
  {
    hide Val, Pow;
    var n := |s| - 1;
    TopWord(b);
    TopWord(s);
    HighProduct(b[n], s[n], Val(b), Val(s), Pow(n), Estimate(b, s));
  }

  lemma HighProduct(w: nat, t: nat, v: nat, u: nat, p: nat, q: nat)
    requires v < (w + 1) * p && t * p <= u && q == w / (t + 1) && q < t
    ensures v < (q + 2) * u
  {
    TopQuotient(w, t);
    Widen(q, t);
    MulLe(w + 1, (q + 2) * t, p);
    Assoc(q + 2, t, p);
    MulLe(t * p, u, q + 2);
    Commute(q + 2, t * p);
    Commute(q + 2, u);
  }

  lemma Widen(q: int, t: int)
    requires q < t
    ensures (q + 1) * (t + 1) <= (q + 2) * t
  {
    assert (q + 1) * (t + 1) == (q + 1) * t + q + 1 && (q + 2) * t == (q + 1) * t + t;
  }

  lemma TopQuotient(w: nat, t: nat)
    ensures w + 1 <= (w / (t + 1) + 1) * (t + 1)
  {
    assert w == w / (t + 1) * (t + 1) + w % (t + 1);
  }

  lemma QuotientIs(b: nat, s: nat, q: nat)
    requires s > 0 && q * s <= b
    ensures b < (q + 1) * s ==> b / s == q
    ensures b >= (q + 1) * s ==> b / s >= q + 1
  {
    var d := b / s;
    assert b == d * s + b % s;
    if b < (q + 1) * s {
      Below(d, q + 1, s);
      Below(q, d + 1, s);
    } else {
      Below(q + 1, d + 1, s);
    }
  }

  lemma Below(a: int, b: int, s: nat)
    requires a * s < b * s
    ensures a < b
  {
    if a >= b { MulLe(b, a, s); }
  }

  /** What a division with one correction leaves: the digit is the lesser of the quotient and the
      estimate plus one, the rest is what it does not cover; and where the top word of the
      divisor is greater than the estimate, they are the quotient and the remainder. */
  predicate Divided(v: nat, t: nat, est: nat, q: nat, rest: nat, top: nat)
    requires t > 0
  {
    && q == (if v / t <= est + 1 then v / t else est + 1)
    && rest == v - q * t
    && (est < top ==> q == v / t && rest == v % t)
  }

  /** The digit is the quotient exactly when the quotient exceeds the estimate by one at most, and
      only then the rest is the remainder. */
  lemma DigitExactly(v: nat, t: nat, est: nat, q: nat, rest: nat, top: nat)
    requires t > 0 && Divided(v, t, est, q, rest, top)
    ensures q == v / t <==> v / t <= est + 1
    ensures rest == v % t <==> v / t <= est + 1
    ensures est < top ==> v / t <= est + 1
  {
    var d := v / t;
    assert v == d * t + v % t;
    if d > est + 1 {
      MulLe(q + 1, d, t);
      assert (q + 1) * t == q * t + t;
    }
  }

  /** 5 divided by 1: the estimate is 2, so the digit is 3 and not 5. */
  lemma ShortDigit(q: nat, rest: nat)
    requires Val([1]) > 0 && Divided(Val([5]), Val([1]), Estimate([5], [1]), q, rest, 1)
    ensures Val([5]) / Val([1]) == 5 && q == 3 && rest == 2
  {
    assert Val([5]) == 5 && Val([1]) == 1 by { OneWord(5); OneWord(1); }
  }

  /** The quotient digit b / S, and b becomes the remainder: one estimate, one correction. The
      result is the lesser of the quotient and the estimate plus one. */
  method Quorem(b: Big, s: Big) returns (q: Word)
    requires s.Valid() && s.Value() > 0 && s.x[s.wds - 1] < BASE - 1
    requires (b.Valid() || (b.Shape() && b.wds == 0)) && b.wds <= s.wds && b != s && b.x != s.x
    modifies b, b.x
    ensures b.wds <= s.wds && (b.Valid() || (b.Shape() && b.wds == 0))
    ensures old(b.Valid()) ==> b.Valid() || (s.wds == 1 && b.x[0] == 0)
    ensures Divided(old(b.Value()), s.Value(), old(Estimate(b.Words(), s.Words())), q, b.Value(), s.x[s.wds - 1])
  {
    hide Val, Pow, Estimate, Divided;
    var n := s.wds;
    ghost var b0, s0 := b.Words(), s.Words();
    if b.wds < n {
      LongerGreater(s0, b0);
      ShortEstimate(b0, s0);
      NoneTimes(Val(s0));
      Corrected(b0, s0, 0, 0);
      return 0;
    }
    n := n - 1;
    q := FirstDigit(b, s, n);
    EstimateSmall(b0, s0);
    NoneTimes(Val(s0));
    Corrected(b0, s0, q, if b.Value() >= s.Value() then q + 1 else q);
    var again := Correct(b, s);
    if again { q := q + 1; }
  }

  /** the correction: S once more, if it still goes into b */
  method Correct(b: Big, s: Big) returns (again: bool)
    requires b.Valid() || (b.Shape() && b.wds == 0 && b.x[0] == 0)
    requires s.Valid() && s.Value() > 0 && b.wds <= s.wds && b != s && b.x != s.x && (b.wds == 0 ==> s.wds == 1)
    modifies b, b.x
    ensures b.Valid() || (b.Shape() && b.wds == 0 && s.wds == 1 && b.x[0] == 0)
    ensures b.wds <= s.wds && again == (old(b.Value()) >= s.Value())
    ensures b.Value() == if again then old(b.Value()) - s.Value() else old(b.Value())
  {
    hide Val, Pow;
    var c := Cmp(b, s);
    again := c >= 0;
    if again {
      if b.wds < s.wds { LongerGreater(s.Words(), b.Words()); }
      NoneTimes(s.Value());
      TakeAway(b, s, 1);
    }
  }

  /** the estimated digit, taken away at once */
  method FirstDigit(b: Big, s: Big, n: nat) returns (q: Word)
    requires b.Valid() && s.Valid() && b.wds == s.wds == n + 1 && b != s && b.x != s.x && s.x[n] < BASE - 1
    modifies b, b.x
    ensures b.Valid() || (b.Shape() && b.wds == 0 && s.wds == 1 && b.x[0] == 0)
    ensures b.wds <= s.wds && q == old(Estimate(b.Words(), s.Words()))
    ensures q * s.Value() <= old(b.Value()) && b.Value() == old(b.Value()) - q * s.Value()
  {
    hide Val, Pow;
    var top: int := s.x[n] as int + 1;
    EstimateLow(b.Words(), s.Words());
    assert b.Words()[n] == b.x[n] && s.Words()[n] == s.x[n];
    q := b.x[n] / top;
    NoneTimes(s.Value());
    if q != 0 { TakeAway(b, s, q); }
  }

  /** b := b - q * S */
  method TakeAway(b: Big, s: Big, q: Word)
    requires b.Shape() && s.Shape() && b.wds == s.wds >= 1 && b != s && b.x != s.x && q * s.Value() <= b.Value()
    modifies b, b.x
    ensures b.Valid() || (b.Shape() && b.wds == 0 && s.wds == 1 && b.x[0] == 0)
    ensures b.wds <= s.wds && b.Value() == old(b.Value()) - q * s.Value()
  {
    hide Val, Pow;
    Reduce(b.x, s.x[..s.wds], q);
    DropZeros(b, s.wds - 1);
  }

  lemma NoneTimes(v: int)
    ensures 0 * v == 0 && 1 * v == v
  {
  }

  lemma OneMore(q: int, v: int)
    ensures (q + 1) * v == q * v + v && 1 * v == v
  {
  }

  lemma EstimateSmall(b: seq<Word>, s: seq<Word>)
    requires Normal(s) && Val(s) > 0
    ensures Estimate(b, s) < 0x8000_0000
  {
    XTop(s);
    if |b| >= |s| { HalfQuotient(b[|s| - 1], s[|s| - 1]); }
  }

  lemma HalfQuotient(w: int, t: int)
    requires t >= 1 && 0 <= w < BASE
    ensures w / (t + 1) < 0x8000_0000
  {
    var q := w / (t + 1);
    assert w == q * (t + 1) + w % (t + 1);
    if q >= 0 { MulLe(2, t + 1, q); }
  }

  /** what the one correction makes of the estimate */
  lemma Corrected(b: seq<Word>, s: seq<Word>, est: nat, q: nat)
    requires s != [] && Val(s) > 0 && |b| <= |s| && est == Estimate(b, s) && est * Val(s) <= Val(b)
    requires |b| < |s| ==> Val(b) < Val(s)
    requires q == est + if Val(b) - est * Val(s) >= Val(s) then 1 else 0
    ensures est * Val(s) <= Val(b) && Val(b) - est * Val(s) - (q - est) * Val(s) >= 0
    ensures Divided(Val(b), Val(s), est, q, Val(b) - est * Val(s) - (q - est) * Val(s), s[|s| - 1])
  {
    hide Val, Estimate;
    OneMore(est, Val(s));
    NoneTimes(Val(s));
    CorrectedInt(Val(b), Val(s), est, q);
    if est < s[|s| - 1] {
      if |b| == |s| { EstimateClose(b, s); } else { ShortEstimate(b, s); }
    }
  }

  lemma ShortEstimate(b: seq<Word>, s: seq<Word>)
    requires s != [] && |b| < |s| && Val(b) < Val(s)
    ensures Estimate(b, s) == 0 && Val(b) < (0 + 2) * Val(s)
  {
  }

  lemma CorrectedInt(v: nat, t: nat, est: nat, q: nat)
    requires t > 0 && est * t <= v && q == est + if v - est * t >= t then 1 else 0
    ensures q == if v / t <= est + 1 then v / t else est + 1
    ensures q * t <= v
    ensures v < (est + 2) * t ==> q == v / t && v - q * t == v % t
  {
    OneMore(est, t);
    QuotientIs(v, t, est);
    if q == est + 1 {
      QuotientIs(v, t, est + 1);
      OneMore(est + 1, t);
    }
    assert v == v / t * t + v % t;
  }

  // ------------------------------------------------------------------ making the divisor fit

  /** The number of leading zero bits of a word. */
  method Hi0Bits(x0: Word) returns (k: nat)
    ensures x0 == 0 ==> k == 32
    ensures x0 != 0 ==> k < 32 && 0x8000_0000 <= x0 * Two(k) < BASE
  {
    hide Two;
    k := 0;
    var x: int := x0;
    BitSteps();
    NoneTimes(x0);
    if x < 0x1_0000 {
      k := 16;
      x := x * 0x1_0000;
    }
    if x < 0x100_0000 {
      MoreBits(x0, k, 8);
      k := k + 8;
      x := x * 0x100;
    }
    if x < 0x1000_0000 {
      MoreBits(x0, k, 4);
      k := k + 4;
      x := x * 0x10;
    }
    if x < 0x4000_0000 {
      MoreBits(x0, k, 2);
      k := k + 2;
      x := x * 4;
    }
    if x < 0x8000_0000 {
      MoreBits(x0, k, 1);
      k := k + 1;
      if x < 0x4000_0000 { return 32; }
    }
  }

  lemma BitSteps()
    ensures Two(0) == 1 && Two(1) == 2 && Two(2) == 4 && Two(4) == 16 && Two(8) == 0x100 && Two(16) == 0x1_0000
  {
    assert Two(2) == 2 * Two(1) && Two(4) == 4 * Two(2);
    TwoAdd(4, 4);
    TwoAdd(8, 8);
  }

  lemma MoreBits(x: int, k: nat, n: nat)
    ensures x * Two(k + n) == x * Two(k) * Two(n)
  {
    TwoAdd(k, n);
    Assoc(x, Two(k), Two(n));
  }

  /** How far to shift a divisor that will be shifted by p2 anyway, so that four zero bits stay
      on top: the low five bits of a number that may be negative. */
  method DShift(b: Big, p2: int) returns (i: nat, ghost h: nat)
    requires b.Valid() && b.Value() > 0
    ensures h < 32 && 0x8000_0000 <= b.x[b.wds - 1] * Two(h) < BASE
    ensures i < 32 && i == (h - 4 - if p2 > 0 then p2 else 0) % 32
  {
    hide Two;
    XTop(b.Words());
    var bits := Hi0Bits(b.x[b.wds - 1]);
    var rv: int := bits as int - 4;
    if p2 > 0 { rv := rv - p2; }
    i, h := rv % 32, bits;
  }

  lemma TopBetween(s: seq<Word>, n: nat)
    requires Normal(s) && 0x800_0000 * Pow(n) <= Val(s) < 0x1000_0000 * Pow(n)
    ensures |s| == n + 1 && 0x800_0000 <= s[n] < 0x1000_0000
  {
    hide Val;
    var l := |s| - 1;
    TopWord(s);
    ValBound(s);
    if l < n {
      PowGrows(l + 1, n);
      assert false;
    } else if l > n {
      PowGrows(n + 1, l);
      MulLe(1, s[l], Pow(l));
      assert false;
    } else {
      Below(0x800_0000, s[l] as int + 1, Pow(n));
      Below(s[l], 0x1000_0000, Pow(n));
    }
  }

  /** A number shifted as DShift says has 2^27 <= top word < 2^28. */
  lemma FourZeroBits(s: seq<Word>, h: nat, e: nat, m: nat)
    requires Normal(s) && Val(s) > 0 && 0x8000_0000 <= s[|s| - 1] * Two(h) < BASE && e + 4 == h + 32 * m && h < 32
    ensures 0x800_0000 * Pow(|s| - 1 + m) <= Val(s) * Two(e) < 0x1000_0000 * Pow(|s| - 1 + m)
  {
    hide Val, Pow;
    var n := |s| - 1;
    TopWord(s);
    TwoPow(m);
    TwoAdd(h, 32 * m);
    TwoAdd(e, 4);
    BitSteps();
    PowAdd(n, m);
    Fill(s[n], Two(h), h);
    Scaled(Val(s), s[n], Pow(n), Two(h), Pow(m), Two(e));
  }

  lemma Fill(t: Word, u: nat, h: nat)
    requires u == Two(h) && h < 32 && t * u < BASE
    ensures (t as int + 1) * u <= BASE
  {
    TwoAdd(h, 32 - h);
    Two32();
    var v := Two(32 - h);
    Commute(u, v);
    Below(t, v, u);
    MulLe(t as int + 1, v, u);
  }

  lemma Scaled(v: nat, t: nat, p: nat, u: nat, r: nat, e: nat)
    requires t * p <= v < (t + 1) * p && 0x8000_0000 <= t * u && (t + 1) * u <= BASE && e * 16 == u * r && r > 0 && u > 0
    ensures 0x800_0000 * (p * r) <= v * e < 0x1000_0000 * (p * r)
  {
    assert v * e * 16 == v * (u * r) by { Assoc(v, e, 16); }
    var w := u * r;
    MulLe(t * p, v, w);
    MulLe(v + 1, (t + 1) * p, w);
    assert w > 0;
    assert t * p * w == t * u * (p * r);
    assert (t + 1) * p * w == (t + 1) * u * (p * r);
    MulLe(0x8000_0000, t * u, p * r);
    MulLe((t + 1) * u, BASE, p * r);
    assert (v + 1) * w == v * w + w;
  }

  /** The divisor of the digit loops: shifted by s2 and by what DShift adds. */
  method ShiftDivisor(s0: Big, s2: nat) returns (s: Big, i: nat)
    requires s0.Valid() && s0.Value() > 0
    ensures s.Valid() && s.Value() == s0.Value() * Two(s2 + i) && i < 32
    ensures 0x800_0000 <= s.x[s.wds - 1] < 0x1000_0000
  {
    hide Val, Pow, Two;
    ghost var h;
    i, h := DShift(s0, s2);
    BitSteps();
    NoneTimes(s0.Value());
    s := s0;
    if s2 + i > 0 { s := LShift(s0, s2 + i); }
    ghost var m := (s2 + i + 4 - h) / 32;
    Residue(s2, i, h);
    FourZeroBits(s0.Words(), h, s2 + i, m);
    TopBetween(s.Words(), s0.wds - 1 + m);
  }

  lemma Residue(s2: nat, i: nat, h: nat)
    requires i == (h - 4 - s2) % 32 && h < 32
    ensures (s2 + i + 4 - h) / 32 >= 0 && s2 + i + 4 == h + 32 * ((s2 + i + 4 - h) / 32)
  {
  }

  /** With four zero bits on top of the divisor the estimate is always close enough, so the digit
      and the rest are the quotient and the remainder, whatever the dividend. */
  lemma FourZeroBitsSuffice(b: seq<Word>, s: seq<Word>, v: nat, t: nat, q: nat, rest: nat)
    requires s != [] && 0x800_0000 <= s[|s| - 1] && t > 0 && |b| <= |s|
    requires Divided(v, t, Estimate(b, s), q, rest, s[|s| - 1])
    ensures q == v / t && rest == v % t && Estimate(b, s) < 32
  {
    if |b| == |s| { SmallEstimate(b[|s| - 1], s[|s| - 1]); }
  }

  lemma SmallEstimate(w: int, t: int)
    requires 0 <= w < BASE && t >= 0x800_0000
    ensures w / (t + 1) < 32
  {
    var q := w / (t + 1);
    assert w == q * (t + 1) + w % (t + 1);
    if q >= 32 { MulLe(32, q, t + 1); }
  }
}
