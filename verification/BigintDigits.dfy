/** The digit loop of dtoa: quotient digits of b / S, one after the other, the rest times ten in
    between; together with the last rest they stand for the number that was divided. */
module BigintDigits {
  import opened BigintValue
  import opened Bigint
  import opened BigintDivision

  function Ten(n: nat): (t: nat)
    ensures t > 0
  {
    if n == 0 then 1 else 10 * Ten(n - 1)
  }

  /** the number that a sequence of decimal digits denotes */
  function Number(digits: seq<nat>): nat
  {
    if digits == [] then 0 else 10 * Number(digits[..|digits| - 1]) + digits[|digits| - 1]
  }

  lemma NumberSnoc(digits: seq<nat>, d: nat)
    ensures Number(digits + [d]) == 10 * Number(digits) + d
  {
    assert (digits + [d])[..|digits|] == digits;
  }

  /** A normal number below Pow(n) has n words at most. */
  lemma FewWords(s: seq<Word>, n: nat)
    requires Normal(s) && Val(s) < Pow(n) && n >= 1
    ensures |s| <= n
  {
    if |s| > n {
      TopWord(s);
      MulLe(1, s[|s| - 1], Pow(|s| - 1));
      PowGrows(n, |s| - 1);
    }
  }

  /** Ten times less than S has no more words than S: the reason for the zero bits on top. */
  lemma TenFits(s: seq<Word>, v: nat)
    requires s != [] && s[|s| - 1] < 0x1000_0000 && v < Val(s)
    ensures 10 * v < Pow(|s|)
  {
    TopWord(s);
    var n := |s| - 1;
    MulLe(s[n] as int + 1, 0x1000_0000, Pow(n));
  }

  /** Digits done so far, and the rest: digits * S + rest == v * 10^(digits - 1). */
  ghost predicate Expanded(digits: seq<nat>, v: nat, t: nat, rest: nat)
  {
    digits != [] && rest < t && Number(digits) * t + rest == v * Ten(|digits| - 1)
  }

  lemma FirstDigitIs(v: nat, t: nat)
    requires t > 0 && v < 10 * t
    ensures Expanded([v / t], v, t, v % t) && v / t < 10
  {
    var q := v / t;
    assert [q][..0] == [];
    assert v == q * t + v % t;
    Below(q, 10, t);
  }

  lemma NextDigitIs(digits: seq<nat>, v: nat, t: nat, rest: nat)
    requires Expanded(digits, v, t, rest)
    ensures Expanded(digits + [10 * rest / t], v, t, 10 * rest % t) && 10 * rest / t < 10
  {
    var q, w := 10 * rest / t, 10 * rest;
    NumberSnoc(digits, q);
    assert w == q * t + w % t;
    Below(q, 10, t);
    var n := Number(digits);
    Carried(n, t, rest, v, Ten(|digits| - 1), q, w % t);
  }

  lemma Carried(n: int, t: int, rest: int, v: int, p: int, q: int, r: int)
    requires n * t + rest == v * p && 10 * rest == q * t + r
    ensures (10 * n + q) * t + r == v * (10 * p)
  {
    assert (10 * n + q) * t == 10 * (n * t) + q * t;
    assert v * (10 * p) == 10 * (v * p);
  }

  /** Up to ilim digits of b / S, which is less than ten. They are exact: the rest that stays in b
      belongs to the next digit, and the loop ends early only when the rest is zero. */
  method FixedDigits(b0: Big, s: Big, ilim: nat) returns (digits: seq<nat>, b: Big)
    requires s.Valid() && 0x800_0000 <= s.x[s.wds - 1] < 0x1000_0000 && ilim >= 1
    requires b0.Valid() && b0.wds <= s.wds && b0.Value() < 10 * s.Value() && b0 != s && b0.x != s.x
    modifies b0, b0.x
    ensures b.Shape() && Expanded(digits, old(b0.Value()), s.Value(), b.Value())
    ensures forall d :: d in digits ==> d < 10
    ensures |digits| <= ilim && (|digits| < ilim ==> b.Value() == 0)
  {
    hide Val, Pow, Two, Divided, Expanded, Number, Ten, Estimate, Todo;
    b := b0;
    digits := [];
    ghost var t, v := s.Value(), b0.Value();
    TopPositive(s.Words());
    TodoFirst(v, t);
    var i := 1;
    while true
      invariant 1 <= i <= ilim && |digits| == i - 1
      invariant s.Valid() && s.Value() == t && 0x800_0000 <= s.x[s.wds - 1] < 0x1000_0000 && t > 0
      invariant b.Valid() && b.wds <= s.wds && b != s && b.x != s.x && (b == b0 || fresh(b)) && (b.x == b0.x || fresh(b.x))
      invariant Todo(digits, v, t, b.Value())
      invariant forall d :: d in digits ==> d < 10
      decreases ilim - i
      modifies b0, b0.x
    {
      label turn:
      var dig := OneDigit(b, s);
      TodoDigit(digits, v, t, old@turn(b.Value()));
      digits := digits + [dig];
      var zero := IsZero(b);
      if zero || i >= ilim { return; }
      TodoNext(digits, v, t, b.Value());
      b := TimesTen(b, s);
      i := i + 1;
    }
  }

  lemma TopPositive(s: seq<Word>)
    requires s != [] && s[|s| - 1] >= 1
    ensures Val(s) > 0
  {
    TopWord(s);
    MulLe(1, s[|s| - 1], Pow(|s| - 1));
  }

  /** What is to be divided next: the number itself, or ten times the last rest. */
  ghost predicate Todo(digits: seq<nat>, v: nat, t: nat, value: nat)
  {
    if digits == [] then t > 0 && value == v < 10 * t else exists rest: nat :: value == 10 * rest && Expanded(digits, v, t, rest)
  }

  lemma TodoFirst(v: nat, t: nat)
    requires t > 0 && v < 10 * t
    ensures Todo([], v, t, v)
  {
  }

  lemma TodoDigit(digits: seq<nat>, v: nat, t: nat, value: nat)
    requires t > 0 && Todo(digits, v, t, value)
    ensures Expanded(digits + [value / t], v, t, value % t) && value / t < 10
  {
    hide Expanded;
    if digits == [] {
      assert digits + [value / t] == [value / t];
      FirstDigitIs(v, t);
    } else {
      var rest: nat :| value == 10 * rest && Expanded(digits, v, t, rest);
      NextDigitIs(digits, v, t, rest);
    }
  }

  lemma TodoNext(digits: seq<nat>, v: nat, t: nat, rest: nat)
    requires Expanded(digits, v, t, rest)
    ensures Todo(digits, v, t, 10 * rest) && rest < t
  {
  }

  /** one exact digit */
  method OneDigit(b: Big, s: Big) returns (q: nat)
    requires s.Valid() && s.Value() > 0 && 0x800_0000 <= s.x[s.wds - 1] < 0x1000_0000
    requires b.Valid() && b.wds <= s.wds && b != s && b.x != s.x
    modifies b, b.x
    ensures (b.Valid() || (b.Shape() && b.wds == 0 && b.x[0] == 0)) && b.wds <= s.wds
    ensures q == old(b.Value()) / s.Value() && b.Value() == old(b.Value()) % s.Value()
  {
    hide Val, Pow;
    ghost var v, words := b.Value(), b.Words();
    q := Quorem(b, s);
    FourZeroBitsSuffice(words, s.Words(), v, s.Value(), q, b.Value());
  }

  /** the test for an exhausted dividend */
  method IsZero(b: Big) returns (zero: bool)
    requires b.Valid() || (b.Shape() && b.wds == 0 && b.x[0] == 0)
    ensures zero ==> b.Value() == 0
    ensures !zero ==> b.Valid()
  {
    zero := b.x[0] == 0 && b.wds <= 1;
    if zero {
      EmptyValue();
      if b.wds == 1 { assert b.Words() == [b.x[0]]; OneWord(b.x[0]); } else { assert b.Words() == []; }
    }
  }

  method TimesTen(b0: Big, s: Big) returns (b: Big)
    requires s.Valid() && s.x[s.wds - 1] < 0x1000_0000 && b0.Valid() && b0.Value() < s.Value() && b0 != s && b0.x != s.x
    modifies b0, b0.x
    ensures b.Valid() && b.Value() == 10 * old(b0.Value()) && b.wds <= s.wds
    ensures b == b0 || (fresh(b) && fresh(b.x))
  {
    hide Val, Pow;
    TenFits(s.Words(), b0.Value());
    b := MultAdd(b0, 10, 0);
    FewWords(b.Words(), s.wds);
  }
}
