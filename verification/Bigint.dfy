/** Arithmetic on arbitrarily long numbers in arrays of 32-bit words, with carries in 64 bits.
    A number is valid when it has no superfluous words; the number zero has one word, or none
    where the source leaves it so. */
module Bigint {
  import opened BigintValue

  const WRAP64 := 0x1_0000_0000_0000_0000

  function Two(k: nat): (t: nat)
    ensures t >= 1
  {
    if k == 0 then 1 else 2 * Two(k - 1)
  }

  class Big {
    const k: nat
    const x: array<Word>
    var wds: int
    var sign: int

    /** maxwds is the length of the array, 2^k. */
    predicate Shape()
      reads this
    {
      x.Length == Two(k) && 0 <= wds <= x.Length
    }

    ghost function Words(): (s: seq<Word>)
      requires Shape()
      reads this, x
      ensures |s| == wds
    {
      x[..wds]
    }

    /** No superfluous word on top; a zero keeps one word. */
    ghost predicate Valid()
      reads this, x
    {
      Shape() && Normal(Words())
    }

    ghost function Value(): nat
      requires Shape()
      reads this, x
    {
      Val(Words())
    }

    /** A fresh number with room for 2^k words. */
    constructor (k: nat)
      ensures Shape() && fresh(x) && this.k == k && wds == 0 && sign == 0
    {
      this.k := k;
      x := new Word[Two(k)](_ => 0);
      wds, sign := 0, 0;
    }
  }

  lemma MulAddStep(done: int, v: int, w: int, m: int, a: int, carry: int, p: int, y: int, low: int, high: int)
    requires done + carry * p == v * m + a && y == w * m + carry && y == high * BASE + low
    ensures done + low * p + high * (BASE * p) == (v + w * p) * m + a
  {
    assert high * (BASE * p) == high * BASE * p;
    assert low * p + high * BASE * p == y * p;
    assert y * p == w * m * p + carry * p;
    assert w * m * p == w * p * m;
  }

  lemma Product32(w: Word, m: int)
    requires 0 <= m < 0x8000_0000
    ensures 0 <= w * m <= (BASE - 1) * (0x8000_0000 - 1)
  {
    var x, y: int := w as int, 0x7fff_ffff;
    Monotone(x, 0xffff_ffff, m);
    Monotone(m, y, 0xffff_ffff);
    assert 0xffff_ffff * m == m * 0xffff_ffff;
  }

  lemma Monotone(a: int, b: int, p: int)
    requires 0 <= a <= b && 0 <= p
    ensures 0 <= a * p <= b * p
  {
    MulLe(0, a, p);
    MulLe(a, b, p);
  }

  /** b := b * m + a, in place unless one more word is needed and there is no room for it. */
  method MultAdd(b: Big, m: int, a: int) returns (r: Big)
    requires b.Shape() && b.wds >= 1 && 0 <= m < 0x8000_0000 && 0 <= a < 0x8000_0000
    modifies b, b.x
    ensures r.Shape() && r.Value() == old(b.Value()) * m + a
    ensures r == b || (fresh(r) && fresh(r.x))
    ensures old(b.Valid()) && m > 0 ==> r.Valid()
  {
    hide Val, Pow, MulDone;
    r := b;
    ghost var was := b.Words();
    var wds := b.wds;
    var i, carry := 0, a;
    MulStart(was, m, a);
    assert b.x[..0] == [];
    while i < wds
      invariant 0 <= i <= wds == b.wds == |was| && b.Shape()
      invariant 0 <= carry < BASE && MulDone(b.x[..i], was, m, a, carry)
      invariant forall j :: i <= j < wds ==> b.x[j] == was[j]
      invariant i == wds && m > 0 && was[wds - 1] != 0 && carry == 0 ==> b.x[wds - 1] != 0
    {
      Product32(b.x[i], m);
      var y := b.x[i] * m + carry;
      assert 0 <= y < WRAP64;
      ghost var out := b.x[..i];
      MulMore(out, was, m, a, carry, y % BASE, y / BASE);
      NonZero(was[i], m);
      carry := y / BASE;
      b.x[i] := y % BASE;
      assert b.x[..i + 1] == out + [b.x[i]];
      i := i + 1;
    }
    MulEnd(b.Words(), was, m, a, carry);
    if carry != 0 { r := Push(b, carry); }
  }

  /** One more word on top, in a larger copy if there is no room. */
  method Push(b: Big, carry: Word) returns (r: Big)
    requires b.Shape() && carry != 0
    modifies b, b.x
    ensures r.Shape() && (r == b || (fresh(r) && fresh(r.x)))
    ensures r.Value() == old(b.Value()) + carry * Pow(old(b.wds)) && r.Valid()
  {
    r := b;
    var wds := b.wds;
    if wds >= b.x.Length { r := Copy(b, b.k + 1); }
    ghost var words := r.Words();
    r.x[wds] := carry;
    r.wds := wds + 1;
    assert r.Words() == words + [carry];
    ValSnoc(words, carry);
  }

  ghost predicate MulDone(out: seq<Word>, x: seq<Word>, m: int, a: int, carry: int)
    requires |out| <= |x|
  {
    Val(out) + carry * Pow(|out|) == Val(x[..|out|]) * m + a
  }

  lemma MulStart(x: seq<Word>, m: int, a: int)
    ensures MulDone([], x, m, a, a)
  {
    assert x[..0] == [];
  }

  lemma MulMore(out: seq<Word>, x: seq<Word>, m: int, a: int, carry: int, low: Word, high: int)
    requires |out| < |x| && MulDone(out, x, m, a, carry) && x[|out|] * m + carry == high * BASE + low
    ensures MulDone(out + [low], x, m, a, high)
  {
    MulAddStep(Val(out), Val(x[..|out|]), x[|out|], m, a, carry, Pow(|out|), x[|out|] * m + carry, low, high);
    ValSnoc(out, low);
    ValPrefix(x, |out|);
  }

  lemma MulEnd(out: seq<Word>, x: seq<Word>, m: int, a: int, carry: int)
    requires |out| == |x| && MulDone(out, x, m, a, carry)
    ensures Val(out) + carry * Pow(|out|) == Val(x) * m + a
  {
    assert x[..|x|] == x;
  }

  lemma NonZero(w: Word, m: int)
    ensures w != 0 && m > 0 ==> w * m > 0
  {
  }

  /** A number with more room. */
  method Copy(b: Big, k: nat) returns (r: Big)
    requires b.Shape() && b.k <= k
    ensures r.Shape() && r.k == k && fresh(r) && fresh(r.x) && r.wds == b.wds && r.sign == b.sign
    ensures r.Words() == b.Words()
  {
    r := new Big(k);
    TwoGrows(b.k, k);
    for i := 0 to b.wds
      invariant forall j :: 0 <= j < i ==> r.x[j] == b.x[j]
    {
      r.x[i] := b.x[i];
    }
    r.wds, r.sign := b.wds, b.sign;
  }

  lemma {:induction false} TwoGrows(a: nat, b: nat)
    requires a <= b
    ensures Two(a) <= Two(b)
  {
    if a < b { TwoGrows(a, b - 1); }
  }

  // ------------------------------------------------------------------ mult

  lemma MulStep(total: int, carry: int, p: int, old0: int, y: int, w: int, acc: int, low: int, high: int, q: int, base: int)
    requires total + carry * p == base + acc * y * q && low + high * BASE == w * y + old0 + carry
    ensures total + (low - old0) * p + high * (BASE * p) == base + acc * y * q + w * y * p
  {
    assert (low - old0) * p + high * (BASE * p) == (low + high * BASE - old0) * p;
    assert (w * y + carry) * p == w * y * p + carry * p;
  }

  lemma AccStep(acc: int, w: int, y: int, q: int, pi: int)
    ensures (acc + w * pi) * y * q == acc * y * q + w * y * (q * pi)
  {
    assert (acc + w * pi) * y * q == acc * y * q + w * pi * y * q;
    assert w * pi * y * q == w * y * (q * pi);
  }

  lemma Carry32(w: Word, y: Word, c: Word, carry: Word)
    ensures 0 <= w * y + c + carry < WRAP64 && (w * y + c + carry) / BASE < BASE
  {
    Square32(w, y);
  }

  lemma Square32(w: Word, y: Word)
    ensures 0 <= w * y <= 0xffff_fffe_0000_0001
  {
    MulLe(w, BASE - 1, y);
    MulLe(y, BASE - 1, BASE - 1);
  }

  /** c := c + a * y * BASE^j, one row of the schoolbook product. */
  method MulRow(c: array<Word>, wc: nat, a: seq<Word>, y: Word, j: nat)
    requires j + |a| + 1 <= wc <= c.Length && c[j + |a|] == 0
    modifies c
    ensures Val(c[..wc]) == old(Val(c[..wc])) + Val(a) * y * Pow(j)
    ensures forall i :: j + |a| < i < c.Length ==> c[i] == old(c[i])
  {
    hide Val, Pow;
    var i, carry: Word := 0, 0;
    ghost var before := c[..wc];
    RowStart(a, before, y, j);
    while i < |a|
      invariant 0 <= i <= |a|
      invariant Row(c[..wc], before, a, i, y, j, carry)
      invariant forall k :: j + i <= k < c.Length ==> c[k] == old(c[k])
    {
      ghost var now := c[..wc];
      Carry32(a[i], y, c[j + i], carry);
      var z := a[i] * y + c[j + i] + carry;
      var low: Word, high: Word := z % BASE, z / BASE;
      RowStep(now, before, a, i, y, j, carry, low, high);
      carry := high;
      c[j + i] := low;
      assert c[..wc] == now[j + i := low];
      i := i + 1;
    }
    assert a[..|a|] == a;
    ValUpdate(c[..wc], j + |a|, carry);
    ghost var now := c[..wc];
    c[j + |a|] := carry;
    assert c[..wc] == now[j + |a| := carry];
  }

  ghost predicate Row(now: seq<Word>, before: seq<Word>, a: seq<Word>, i: nat, y: Word, j: nat, carry: Word)
    requires i <= |a|
  {
    Val(now) + carry * Pow(j + i) == Val(before) + Val(a[..i]) * y * Pow(j)
  }

  lemma RowStart(a: seq<Word>, before: seq<Word>, y: Word, j: nat)
    ensures Row(before, before, a, 0, y, j, 0)
  {
    assert a[..0] == [];
  }

  lemma RowStep(now: seq<Word>, before: seq<Word>, a: seq<Word>, i: nat, y: Word, j: nat, carry: Word, low: Word, high: Word)
    requires i < |a| && j + i < |now| && Row(now, before, a, i, y, j, carry)
    requires low + high * BASE == a[i] * y + now[j + i] + carry
    ensures Row(now[j + i := low], before, a, i + 1, y, j, high)
  {
    MulStep(Val(now), carry, Pow(j + i), now[j + i], y, a[i], Val(a[..i]), low, high, Pow(j), Val(before));
    AccStep(Val(a[..i]), a[i], y, Pow(j), Pow(i));
    PowAdd(j, i);
    ValPrefix(a, i);
    ValUpdate(now, j + i, low);
  }

  /** The exact product. Only a zero product leaves a number without words. */
  method Mult(a0: Big, b0: Big) returns (c: Big)
    requires a0.Shape() && b0.Shape()
    ensures c.Shape() && fresh(c) && fresh(c.x) && c.Value() == a0.Value() * b0.Value()
    ensures c.wds > 0 ==> c.Valid() && c.x[c.wds - 1] != 0
    ensures c.wds == 0 <==> a0.Value() * b0.Value() == 0
  {
    var a, b := a0, b0;
    if a.wds < b.wds { a, b := b0, a0; }
    var wa, wb := a.wds, b.wds;
    var wc := wa + wb;
    var k := a.k;
    if wc > a.x.Length { k := k + 1; }
    c := new Big(k);
    MulRows(c.x, wc, a.x[..wa], b.x[..wb]);
    Commute(a.Value(), b.Value());
    Trim(c, wc);
  }

  lemma EmptyValue()
    ensures Val([]) == 0 && Pow(0) == 1
  {
  }

  method MulRows(c: array<Word>, wc: nat, av: seq<Word>, bv: seq<Word>)
    requires wc == |av| + |bv| <= c.Length
    modifies c
    ensures Val(c[..wc]) == Val(av) * Val(bv)
  {
    hide Val, Pow;
    for i := 0 to wc
      invariant forall j :: 0 <= j < i ==> c[j] == 0
    {
      c[i] := 0;
    }
    ValTrim(c[..wc], 0);
    EmptyValue();
    assert bv[..0] == [];
    for j := 0 to |bv|
      invariant Val(c[..wc]) == Val(av) * Val(bv[..j])
      invariant forall i :: |av| + j <= i < wc ==> c[i] == 0
    {
      ValPrefix(bv, j);
      RowSum(Val(av), Val(bv[..j]), bv[j], Pow(j));
      if bv[j] != 0 { MulRow(c, wc, av, bv[j], j); }
    }
    assert bv[..|bv|] == bv;
  }

  /** Set the length so that no zero word is on top. */
  method Trim(c: Big, wc: nat)
    requires c.Shape() && wc <= c.x.Length
    modifies c
    ensures c.Shape() && c.Value() == Val(c.x[..wc]) && c.wds <= wc && c.sign == old(c.sign)
    ensures c.wds > 0 ==> c.x[c.wds - 1] != 0
    ensures c.wds == 0 <==> Val(c.x[..wc]) == 0
  {
    ghost var all := c.x[..wc];
    var n := wc;
    while n > 0 && c.x[n - 1] == 0
      invariant 0 <= n <= wc && forall i :: n <= i < wc ==> c.x[i] == 0
    {
      n := n - 1;
    }
    ValTrim(all, n);
    assert all[..n] == c.x[..n];
    c.wds := n;
    if n > 0 {
      TopWord(c.Words());
      NonZero(c.x[n - 1], Pow(n - 1));
    }
  }

  lemma RowSum(av: int, done: int, w: int, p: int)
    ensures av * (done + w * p) == av * done + av * w * p
    ensures w == 0 ==> av * (done + w * p) == av * done
  {
  }

  lemma Commute(a: int, b: int)
    ensures a * b == b * a
  {
  }

  // ------------------------------------------------------------------ pow5mult

  function Five(n: nat): (f: nat)
    ensures f > 0
  {
    if n == 0 then 1 else 5 * Five(n - 1)
  }

  lemma {:induction false} FiveAdd(m: nat, n: nat)
    ensures Five(m + n) == Five(m) * Five(n)
  {
    if n > 0 {
      FiveAdd(m, n - 1);
      Reassoc(5, Five(m), Five(n - 1));
    }
  }

  /** The list of squares that starts with 625 and grows on demand. */
  class Powers {
    var p5s: seq<Big>

    ghost predicate Valid()
      reads this, p5s, set p | p in p5s :: p.x
    {
      forall i :: 0 <= i < |p5s| ==> p5s[i].Shape() && p5s[i].Value() == Five(4 * Two(i))
    }

    /** b shares nothing with the list. */
    ghost predicate Apart(b: Big)
      reads this, p5s
    {
      forall p :: p in p5s ==> p != b && p.x != b.x
    }

    constructor ()
      ensures Valid() && p5s == []
    {
      p5s := [];
    }

    /** The entry with number i, made from the one before if it is not there yet. */
    method Entry(i: nat) returns (p: Big)
      requires Valid() && i <= |p5s|
      modifies this
      ensures Valid() && i < |p5s| && p == p5s[i] && p.Shape() && p.Value() == Five(4 * Two(i))
    {
      hide Five, Two, Val;
      if i == |p5s| {
        if i == 0 {
          p := SixTwentyFive();
        } else {
          var p5 := p5s[i - 1];
          p := Mult(p5, p5);
          FiveAdd(4 * Two(i - 1), 4 * Two(i - 1));
          Doubling(i - 1);
        }
        p5s := p5s + [p];
      } else {
        p := p5s[i];
      }
    }

    /** b * 5^k, by the binary digits of k / 4 */
    method Pow5Mult(b0: Big, k0: nat) returns (b: Big)
      requires Valid() && Apart(b0) && b0.Valid()
      modifies this, b0, b0.x
      ensures Valid() && b.Shape() && b.Value() == old(b0.Value()) * Five(k0)
      ensures old(b0.Value()) > 0 ==> b.Valid()
    {
      hide Five, Two, Val, Valid;
      b := b0;
      ghost var v := b0.Value();
      var k, i := k0 / 4, k0 % 4;
      SmallFives();
      if i != 0 {
        var p05 := [5, 25, 125];
        b := MultAdd(b, p05[i - 1], 0);
      }
      Split4(k0);
      FiveAdd(i, 4 * k);
      Assoc(v, Five(i), Five(4 * k));
      Times1(b.Value());
      if k != 0 { b := HighDigits(b, k); }
    }

    /** the loop over the squares */
    method HighDigits(b0: Big, k0: nat) returns (b: Big)
      requires Valid() && b0.Shape() && k0 > 0 && (b0.Value() > 0 ==> b0.Valid())
      modifies this
      ensures Valid() && b.Shape() && b.Value() == old(b0.Value()) * Five(4 * k0)
      ensures old(b0.Value()) > 0 ==> b.Valid()
    {
      hide Five, Two, Progress, Valid, Val;
      b := b0;
      ghost var total := b0.Value() * Five(4 * k0);
      var k, n := k0, 0;
      var p5 := Entry(0);
      ProgressStart(b.Value(), k);
      while true
        invariant Valid() && n < |p5s| && p5.Shape() && p5.Value() == Five(4 * Two(n)) && k > 0
        invariant b.Shape() && Progress(b.Value(), n, k, total)
        invariant b.Value() > 0 ==> b.Valid()
        invariant old(b0.Value()) > 0 ==> b.Value() > 0
        decreases k
      {
        ProgressStep(b.Value(), n, k, total);
        if k % 2 == 1 { b := MultPositive(b, p5); }
        k := k / 2;
        if k == 0 {
          ProgressEnd(b.Value(), n + 1, total);
          break;
        }
        n := n + 1;
        p5 := Entry(n);
      }
    }
  }

  method MultPositive(a: Big, b: Big) returns (c: Big)
    requires a.Shape() && b.Shape() && b.Value() > 0
    ensures c.Shape() && fresh(c) && fresh(c.x) && c.Value() == a.Value() * b.Value()
    ensures a.Value() > 0 ==> c.Value() > 0
    ensures c.Value() > 0 ==> c.Valid()
  {
    Positive(a.Value(), b.Value());
    c := Mult(a, b);
  }

  /** what is still missing is a power of the entry with number n */
  ghost predicate Progress(v: nat, n: nat, k: nat, total: nat)
  {
    v * Five(4 * Two(n) * k) == total
  }

  lemma ProgressStart(v: nat, k: nat)
    ensures Progress(v, 0, k, v * Five(4 * k))
  {
    assert 4 * Two(0) * k == 4 * k;
  }

  lemma ProgressStep(v: nat, n: nat, k: nat, total: nat)
    requires Progress(v, n, k, total)
    ensures Progress(if k % 2 == 1 then v * Five(4 * Two(n)) else v, n + 1, k / 2, total)
  {
    Halve(v, n, k);
  }

  lemma ProgressEnd(v: nat, n: nat, total: nat)
    requires Progress(v, n, 0, total)
    ensures v == total
  {
    assert 4 * Two(n) * 0 == 0;
    Times1(v);
  }

  lemma Doubling(i: nat)
    ensures Two(i + 1) == Two(i) + Two(i)
  {
  }

  method SixTwentyFive() returns (p: Big)
    ensures p.Shape() && fresh(p) && fresh(p.x) && p.Value() == Five(4 * Two(0))
  {
    p := new Big(1);
    p.x[0] := 625;
    p.wds := 1;
    assert p.x[..1] == [625];
    OneWord(625);
    assert Five(4 * Two(0)) == 625 by { SmallFives(); }
  }

  lemma OneWord(w: Word)
    ensures Val([w]) == w
  {
    assert [w][..0] == [];
  }

  lemma SmallFives()
    ensures Five(0) == 1 && Five(1) == 5 && Five(2) == 25 && Five(3) == 125
  {
    assert Five(2) == 5 * Five(1);
  }

  lemma Split4(k: nat)
    ensures k == k % 4 + 4 * (k / 4)
  {
  }

  lemma Assoc(a: int, b: int, c: int)
    ensures a * b * c == a * (b * c)
  {
  }

  lemma Times1(a: int)
    ensures a * Five(0) == a
  {
  }

  /** one binary digit of the exponent */
  lemma Halve(v: int, n: nat, k: nat)
    ensures v * Five(4 * Two(n) * k) == v * (if k % 2 == 1 then Five(4 * Two(n)) else 1) * Five(4 * Two(n + 1) * (k / 2))
  {
    var t := 4 * Two(n);
    Double(t, k);
    if k % 2 == 1 {
      FiveAdd(t, 2 * t * (k / 2));
      Assoc(v, Five(t), Five(2 * t * (k / 2)));
    }
  }

  lemma Double(t: int, k: nat)
    ensures t * k == (if k % 2 == 1 then t else 0) + 2 * t * (k / 2)
  {
    assert k == 2 * (k / 2) + k % 2;
    assert t * (2 * (k / 2)) == 2 * t * (k / 2);
  }

  lemma Positive(v: int, p: int)
    ensures v > 0 && p > 0 ==> v * p > 0
  {
  }

  // ------------------------------------------------------------------ lshift

  lemma {:induction false} TwoAdd(m: nat, n: nat)
    ensures Two(m + n) == Two(m) * Two(n)
  {
    if n > 0 {
      TwoAdd(m, n - 1);
      Reassoc(2, Two(m), Two(n - 1));
    }
  }

  lemma {:induction false} TwoPow(n: nat)
    ensures Two(32 * n) == Pow(n)
  {
    if n > 0 {
      TwoPow(n - 1);
      TwoAdd(32 * (n - 1), 32);
      Two32();
    }
  }

  lemma Two32()
    ensures Two(32) == BASE
  {
    assert Two(8) == 256;
    TwoAdd(8, 8);
    TwoAdd(16, 16);
  }

  /** A word shifted left by k bits: what stays in the word, and what moves on. */
  lemma ShiftWord(w: Word, k: nat, z: Word)
    requires 0 < k < 32 && z < Two(k)
    ensures var low, high := w * Two(k) % BASE, w / Two(32 - k);
            && w * Two(k) == high * BASE + low && 0 <= low + z < BASE && 0 <= high < Two(k)
  {
    TwoAdd(k, 32 - k);
    Two32();
    Halves(w, Two(k), Two(32 - k));
  }

  lemma Halves(w: Word, t: nat, u: nat)
    requires t > 0 && u > 0 && t * u == BASE
    ensures var low, high := w * t % BASE, w / u;
            w * t == high * BASE + low && 0 <= low <= BASE - t && 0 <= high < t
  {
    var q, r := w / u, w % u;
    Parts(w, t, u, q, r);
    LowPart(t, u, r);
    Remainder(w * t, q, r * t);
    QuotientBelow(w, u, t);
  }

  lemma Parts(w: int, t: int, u: int, q: int, r: int)
    requires t * u == BASE && w == q * u + r
    ensures w * t == q * BASE + r * t
  {
    assert q * u * t == q * (t * u);
  }

  lemma LowPart(t: nat, u: nat, r: nat)
    requires t * u == BASE && r < u
    ensures 0 <= r * t <= BASE - t
  {
    MulLe(r, u - 1, t);
  }

  lemma QuotientBelow(w: nat, u: nat, t: nat)
    requires u > 0 && w < t * u
    ensures w / u < t
  {
    var q := w / u;
    if q >= t { MulLe(t, q, u); }
  }

  lemma Remainder(x: int, q: int, r: int)
    requires x == q * BASE + r && 0 <= r < BASE
    ensures x % BASE == r && x / BASE == q
  {
  }

  lemma ShiftStep(done: int, v: int, w: int, z: int, t: int, p: int, low: int, high: int)
    requires done + z * p == v * t && w * t == high * BASE + low
    ensures done + (low + z) * p + high * (BASE * p) == (v + w * p) * t
  {
    assert high * (BASE * p) == high * BASE * p;
    assert (low + z) * p == low * p + z * p;
    assert low * p + high * BASE * p == w * t * p;
    assert w * t * p == w * p * t;
  }

  ghost predicate Shifted(out: seq<Word>, x: seq<Word>, z: Word, t: nat)
    requires |out| <= |x|
  {
    Val(out) + z * Pow(|out|) == Val(x[..|out|]) * t
  }

  lemma ShiftMore(out: seq<Word>, x: seq<Word>, z: Word, k: nat)
    requires |out| < |x| && 0 < k < 32 && z < Two(k) && Shifted(out, x, z, Two(k))
    ensures var w := x[|out|];
            0 <= w * Two(k) % BASE + z < BASE && 0 <= w / Two(32 - k) < Two(k) && w / Two(32 - k) < BASE
    ensures var w := x[|out|]; Shifted(out + [w * Two(k) % BASE + z], x, w / Two(32 - k), Two(k))
  {
    var w := x[|out|];
    ShiftWord(w, k, z);
    TwoSmall(k);
    var low, high := w * Two(k) % BASE, w / Two(32 - k);
    ShiftStep(Val(out), Val(x[..|out|]), w, z, Two(k), Pow(|out|), low, high);
    ValSnoc(out, low + z);
    ValPrefix(x, |out|);
  }

  lemma TwoSmall(k: nat)
    requires k < 32
    ensures Two(k) < BASE
  {
    Two32();
    TwoGrows(k + 1, 32);
  }
}
