/** The key exchange modulo a prime. */
module ModExp {
  // Multiplication and powers modulo the largest prime of 64 bits, in 64-bit arithmetic that wraps.

  const WRAP64 := 0x1_0000_0000_0000_0000
  const P := 0xffff_ffff_ffff_ffc5
  const G := 5

  predicate U64(x: int) { 0 <= x < WRAP64 }

  function Pow(a: nat, n: nat): nat
  {
    if n == 0 then 1 else a * Pow(a, n - 1)
  }

  // ------------------------------------------------------------------ congruence

  /** x and y leave the same remainder. */
  ghost predicate Same(x: int, y: int)
  {
    exists k: int :: Differ(x, y, k)
  }

  predicate Differ(x: int, y: int, k: int) { x - y == k * P }

  lemma SameIs(x: int, y: int)
    ensures Same(x, y) <==> x % P == y % P
  {
    if Same(x, y) {
      var k :| Differ(x, y, k);
      Multiple(y, k);
    }
    if x % P == y % P {
      assert Differ(x, y, x / P - y / P);
    }
  }

  lemma Multiple(y: int, k: int)
    ensures (y + k * P) % P == y % P
  {
    var q, r := y / P, y % P;
    assert y + k * P == (q + k) * P + r;
    Remainder((q + k) * P + r, q + k, r);
  }

  lemma Remainder(x: int, q: int, r: int)
    requires x == q * P + r && 0 <= r < P
    ensures x % P == r
  {
  }

  lemma SameByK(x: int, y: int, k: int)
    requires x - y == k * P
    ensures Same(x, y)
  {
    assert Differ(x, y, k);
  }

  lemma SameMul(a: int, b: int, c: int)
    requires Same(a, b)
    ensures Same(a * c, b * c)
  {
    var k :| Differ(a, b, k);
    assert a * c - b * c == (a - b) * c == k * c * P;
    SameByK(a * c, b * c, k * c);
  }

  lemma SameTrans(a: int, b: int, c: int)
    requires Same(a, b) && Same(b, c)
    ensures Same(a, c)
  {
    var k :| Differ(a, b, k);
    var l :| Differ(b, c, l);
    SameByK(a, c, k + l);
  }

  lemma SameMul2(a: int, b: int, c: int, d: int)
    requires Same(a, b) && Same(c, d)
    ensures Same(a * c, b * d)
  {
    SameMul(a, b, c);
    SameMul(c, d, b);
    assert c * b == b * c && d * b == b * d;
    SameTrans(a * c, b * c, b * d);
  }

  lemma SameMod(a: int)
    ensures Same(a % P, a) && Same(a, a % P)
  {
    SameByK(a % P, a, -(a / P));
    SameByK(a, a % P, a / P);
  }

  lemma {:induction false} SamePow(a: nat, b: nat, n: nat)
    requires Same(a, b)
    ensures Same(Pow(a, n), Pow(b, n))
  {
    if n == 0 {
      SameByK(1, 1, 0);
    } else {
      SamePow(a, b, n - 1);
      SameMul2(a, b, Pow(a, n - 1), Pow(b, n - 1));
    }
  }

  // ------------------------------------------------------------------ mul_mod_p

  /** the doubling of a in the loop, in 64 bits: a*2 may wrap before P is subtracted */
  function Twice(a: int): int
  {
    if a >= P - a then (a * 2 % WRAP64 - P) % WRAP64 else a * 2 % WRAP64
  }

  lemma TwiceIs(a: int)
    requires 0 <= a <= P
    ensures 0 <= Twice(a) <= P && Same(Twice(a), 2 * a)
  {
    if a >= P - a { SameByK(Twice(a), 2 * a, -1); } else { SameByK(Twice(a), 2 * a, 0); }
  }

  /** m + a without leaving 64 bits */
  function Plus(m: int, a: int): int
  {
    if m >= P - a then (m - (P - a)) % WRAP64 else (m + a) % WRAP64
  }

  lemma PlusIs(m: int, a: int)
    requires 0 <= m < P && 0 <= a <= P
    ensures 0 <= Plus(m, a) < P && Same(Plus(m, a), m + a)
  {
    if m >= P - a { SameByK(Plus(m, a), m + a, -1); } else { SameByK(Plus(m, a), m + a, 0); }
  }

  /** a * b mod P, by the binary digits of b; a may even be P itself. */
  method MulModP(a0: int, b0: int) returns (m: int)
    requires 0 <= a0 <= P && U64(b0)
    ensures m == a0 * b0 % P
  {
    m := 0;
    var a, b := a0, b0;
    SameByK(a0 * b0, a0 * b0, 0);
    while b != 0
      invariant 0 <= a <= P && U64(b) && 0 <= m < P && Same(m + a * b, a0 * b0)
      decreases b
    {
      ghost var a1, m1, b1 := a, m, b;
      if b % 2 == 1 {
        PlusIs(m, a);
        var t := P - a;
        if m >= t { m := (m - t) % WRAP64; } else { m := (m + a) % WRAP64; }
        assert m == Plus(m1, a1);
      }
      TwiceIs(a);
      if a >= P - a { a := (a * 2 % WRAP64 - P) % WRAP64; } else { a := a * 2 % WRAP64; }
      assert a == Twice(a1);
      b := b / 2;
      Invariant(m1, a1, b1, m, a, b, a0 * b0);
    }
    SameIs(m, a0 * b0);
  }

  /** one round of the loop */
  lemma Invariant(m: int, a: int, b: int, m': int, a': int, b': int, total: int)
    requires Same(m + a * b, total) && b' == b / 2 && Same(a', 2 * a)
    requires if b % 2 == 1 then Same(m', m + a) else m' == m
    ensures Same(m' + a' * b', total)
  {
    var k :| Differ(a', 2 * a, k);
    assert a' * b' == 2 * a * b' + k * b' * P by { assert (a' - 2 * a) * b' == k * P * b'; }
    assert a * b == 2 * a * b' + (if b % 2 == 1 then a else 0) by { assert b == 2 * b' + b % 2; assert a * (2 * b') == 2 * a * b'; }
    if b % 2 == 1 {
      var l :| Differ(m', m + a, l);
      SameByK(m' + a' * b', m + a * b, l + k * b');
    } else {
      SameByK(m' + a' * b', m + a * b, k * b');
    }
    SameTrans(m' + a' * b', m + a * b, total);
  }

  // ------------------------------------------------------------------ pow_mod_p

  lemma Shuffle3(a: int, x: int, y: int)
    ensures a * (x * y) == a * x * y
  {
  }

  lemma {:induction false} PowAdd(a: nat, m: nat, n: nat)
    ensures Pow(a, m + n) == Pow(a, m) * Pow(a, n)
  {
    if m > 0 {
      PowAdd(a, m - 1, n);
      var x, y := Pow(a, m - 1), Pow(a, n);
      Shuffle3(a, x, y);
      assert m + n - 1 == m - 1 + n;
    }
  }

  lemma {:induction false} PowMul(a: nat, m: nat, n: nat)
    ensures Pow(a, m * n) == Pow(Pow(a, m), n)
  {
    if n == 0 {
      assert m * 0 == 0;
    } else {
      PowMul(a, m, n - 1);
      PowAdd(a, m, m * (n - 1));
      assert m * n == m + m * (n - 1);
    }
  }

  /** a^b mod P for b >= 1, except that the first power is a itself, reduced or not. */
  method PowModP(a: int, b: int) returns (t: int)
    requires 0 <= a <= P && 1 <= b && U64(b)
    ensures b == 1 ==> t == a
    ensures b > 1 ==> t == Pow(a, b) % P
    decreases b
  {
    if b == 1 { return a; }
    t := PowModP(a, b / 2);
    ghost var half := t;
    t := MulModP(t, t);
    ghost var square := t;
    if b % 2 != 0 { t := MulModP(t, a); }
    PowStep(a, b, half, square, t);
  }

  lemma PowStep(a: nat, b: nat, half: int, square: int, t: int)
    requires b >= 2 && (if b / 2 == 1 then half == a else half == Pow(a, b / 2) % P)
    requires square == half * half % P && t == (if b % 2 != 0 then square * a % P else square)
    ensures t == Pow(a, b) % P
  {
    var h := Pow(a, b / 2);
    assert Same(half, h) by {
      if b / 2 == 1 {
        assert Pow(a, 1) == a * Pow(a, 0);
        SameByK(half, h, 0);
      } else {
        SameMod(h);
      }
    }
    SameMul2(half, h, half, h);
    SameMod(half * half);
    SameTrans(square, half * half, h * h);
    PowAdd(a, b / 2, b / 2);
    if b % 2 != 0 {
      SameMul(square, h * h, a);
      SameMod(square * a);
      SameTrans(t, square * a, h * h * a);
      assert Pow(a, b) == a * Pow(a, b - 1) && b - 1 == b / 2 + b / 2;
      assert h * h * a == a * (h * h);
    }
    SameIs(t, Pow(a, b));
    Reduced(square * a, half * half);
  }

  lemma Reduced(x: int, y: int)
    ensures 0 <= x % P < P && 0 <= y % P < P
    ensures x % P % P == x % P && y % P % P == y % P
  {
  }

  /** a^b mod P for every base and every exponent of 64 bits but 0, except that P to the power 1 is
      returned as P instead of 0: the base is reduced only when it is greater than P. */
  method PowerModP(a0: int, b: int) returns (r: int)
    requires U64(a0) && 1 <= b && U64(b)
    ensures r == if a0 == P && b == 1 then P else Pow(a0, b) % P
  {
    var a := a0;
    if a > P { a := a % P; }
    r := PowModP(a, b);
    ReducedBase(a0, a, b, r);
  }

  lemma ReducedBase(a0: nat, a: nat, b: nat, r: nat)
    requires a == (if a0 > P then a0 % P else a0) && b >= 1 && (b == 1 ==> r == a) && (b > 1 ==> r == Pow(a, b) % P)
    ensures r == if a0 == P && b == 1 then P else Pow(a0, b) % P
  {
    SameMod(a0);
    SameByK(a0, a0, 0);
    SamePow(a, a0, b);
    SameIs(Pow(a, b), Pow(a0, b));
    if b == 1 {
      FirstPower(a0);
      FirstPower(a);
    }
  }

  lemma FirstPower(a: nat)
    ensures Pow(a, 1) == a && (a < P ==> a % P == a)
  {
    assert Pow(a, 1) == a * Pow(a, 0);
  }

  /** When the result is the power: always but for this one case. */
  lemma PowerExactly(a: nat, b: nat, r: nat)
    requires b >= 1 && r == if a == P && b == 1 then P else Pow(a, b) % P
    ensures r == Pow(a, b) % P <==> !(a == P && b == 1)
  {
    if a == P && b == 1 {
      FirstPower(P);
      Multiple(0, 1);
    }
  }

  // ------------------------------------------------------------------ the exchange

  datatype Result = Ok(value: int) | Error

  /** what one side sends: G^x mod P; 0 is refused */
  function Exchange(x: int): Result
    requires U64(x)
  {
    if x == 0 then Error else Ok(Pow(G, x) % P)
  }

  /** what one side computes from what it got: x^y mod P; zeros are refused */
  function Secret(x: int, y: int): Result
    requires U64(x) && U64(y)
  {
    if x == 0 || y == 0 then Error else if x == P && y == 1 then Ok(P) else Ok(Pow(x, y) % P)
  }

  method DhExchange(x: int) returns (r: Result)
    requires U64(x)
    ensures r == Exchange(x)
  {
    if x == 0 { return Error; }
    var v := PowerModP(G, x);
    r := Ok(v);
  }

  method DhSecret(x: int, y: int) returns (r: Result)
    requires U64(x) && U64(y)
    ensures r == Secret(x, y)
  {
    if x == 0 || y == 0 { return Error; }
    var v := PowerModP(x, y);
    r := Ok(v);
  }

  /** No power of G is a multiple of P: G has an inverse. */
  lemma NeverZero(x: nat)
    ensures Pow(G, x) % P != 0
  {
    var u := 0x6666_6666_6666_664f;
    SameByK(G * u, 1, 2);
    SamePow(G * u, 1, x);
    PowProduct(G, u, x);
    PowOne(x);
    if Pow(G, x) % P == 0 {
      SameMod(Pow(G, x));
      SameMul(Pow(G, x), 0, Pow(u, x));
      SameIs(Pow(G, x) * Pow(u, x), 0 * Pow(u, x));
      SameIs(Pow(G, x) * Pow(u, x), 1);
      assert false;
    }
  }

  lemma {:induction false} PowProduct(a: nat, b: nat, n: nat)
    ensures Pow(a * b, n) == Pow(a, n) * Pow(b, n)
  {
    if n > 0 {
      PowProduct(a, b, n - 1);
      Shuffle(a, b, Pow(a, n - 1), Pow(b, n - 1));
    }
  }

  lemma Shuffle(a: int, b: int, p: int, q: int)
    ensures a * b * (p * q) == a * p * (b * q)
  {
    assert a * b * (p * q) == a * (b * p) * q;
    assert a * p * (b * q) == a * (p * b) * q;
  }

  lemma {:induction false} PowOne(n: nat)
    ensures Pow(1, n) == 1
  {
    if n > 0 { PowOne(n - 1); }
  }

  /** what the exchange gives out is a legal input of the other side, never 0 and never P */
  lemma ExchangedIsLegal(x: nat)
    ensures 0 < Pow(G, x) % P < P
  {
    NeverZero(x);
  }

  lemma SecretIs(x: nat, y: nat)
    ensures Pow(Pow(G, x) % P, y) % P == Pow(G, x * y) % P
  {
    SameMod(Pow(G, x));
    SamePow(Pow(G, x) % P, Pow(G, x), y);
    SameIs(Pow(Pow(G, x) % P, y), Pow(Pow(G, x), y));
    PowMul(G, x, y);
  }

  /** Both sides of an exchange with keys other than 0 get the same secret, and no error. */
  lemma Agreement(x: int, y: int)
    requires U64(x) && U64(y) && x != 0 && y != 0
    ensures Exchange(x).Ok? && Exchange(y).Ok? && U64(Exchange(x).value) && U64(Exchange(y).value)
    ensures Secret(Exchange(x).value, y) == Secret(Exchange(y).value, x) == Ok(Pow(G, x * y) % P)
  {
    ExchangedIsLegal(x);
    ExchangedIsLegal(y);
    SecretIs(x, y);
    SecretIs(y, x);
    assert x * y == y * x;
  }
}
