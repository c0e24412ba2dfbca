/** Numbers written as 32-bit words, least significant word first: how appending, updating,
    trimming and shifting words changes the value; the top word decides between numbers of
    different length, the first difference from the top between the others. */
module BigintValue {
  const BASE := 0x1_0000_0000

  type Word = w: int | 0 <= w < BASE

  function Pow(n: nat): (p: nat)
    ensures p > 0
  {
    if n == 0 then 1 else BASE * Pow(n - 1)
  }

  function Val(s: seq<Word>): nat
  {
    if s == [] then 0 else Val(s[..|s| - 1]) + s[|s| - 1] * Pow(|s| - 1)
  }

  lemma ValSnoc(s: seq<Word>, w: Word)
    ensures Val(s + [w]) == Val(s) + w * Pow(|s|)
  {
    assert (s + [w])[..|s|] == s;
  }

  lemma ValPrefix(s: seq<Word>, i: nat)
    requires i < |s|
    ensures Val(s[..i + 1]) == Val(s[..i]) + s[i] * Pow(i)
  {
    assert s[..i + 1] == s[..i] + [s[i]];
    ValSnoc(s[..i], s[i]);
  }

  /** A number is less than the power of the base that has one digit more. */
  lemma {:induction false} ValBound(s: seq<Word>)
    ensures Val(s) < Pow(|s|)
  {
    if s != [] {
      var n := |s| - 1;
      ValBound(s[..n]);
      WordBound(s[n], Pow(n));
    }
  }

  lemma WordBound(w: Word, p: nat)
    ensures w * p + p <= BASE * p
  {
    MulLe(w + 1, BASE, p);
  }

  lemma MulLe(a: int, b: int, p: nat)
    requires a <= b
    ensures a * p <= b * p
  {
  }

  lemma {:induction false} ValUpdate(s: seq<Word>, k: nat, w: Word)
    requires k < |s|
    ensures Val(s[k := w]) == Val(s) + (w - s[k]) * Pow(k)
  {
    var n := |s| - 1;
    if k == n {
      assert s[k := w][..n] == s[..n];
    } else {
      assert s[k := w][..n] == s[..n][k := w];
      ValUpdate(s[..n], k, w);
    }
  }

  lemma {:induction false} ValTrim(s: seq<Word>, n: nat)
    requires n <= |s| && forall i :: n <= i < |s| ==> s[i] == 0
    ensures Val(s) == Val(s[..n])
  {
    if n < |s| {
      var m := |s| - 1;
      assert s[..m][..n] == s[..n];
      ValTrim(s[..m], n);
    } else {
      assert s[..n] == s;
    }
  }

  lemma {:induction false} PowAdd(m: nat, n: nat)
    ensures Pow(m + n) == Pow(m) * Pow(n)
  {
    if n > 0 {
      PowAdd(m, n - 1);
      assert Pow(m + n) == BASE * Pow(m + n - 1);
      Reassoc(BASE, Pow(m), Pow(n - 1));
    }
  }

  lemma Reassoc(a: int, b: int, c: int)
    ensures a * (b * c) == b * (a * c)
  {
  }

  /** The words of s after n zero words. */
  lemma {:induction false} ValShift(s: seq<Word>, n: nat)
    ensures Val(Zeros(n) + s) == Pow(n) * Val(s)
  {
    if s == [] {
      assert Zeros(n) + s == Zeros(n);
      ValTrim(Zeros(n), 0);
    } else {
      var m := |s| - 1;
      assert (Zeros(n) + s)[..n + m] == Zeros(n) + s[..m];
      ValShift(s[..m], n);
      PowAdd(n, m);
      Distribute(Pow(n), Val(s[..m]), s[m], Pow(m));
    }
  }

  lemma Distribute(p: int, v: int, w: int, q: int)
    ensures p * v + w * (p * q) == p * (v + w * q)
  {
  }

  function Zeros(n: nat): (s: seq<Word>)
    ensures |s| == n
  {
    seq(n, _ => 0)
  }

  /** A sequence whose last word is not zero, or that has one word at most. */
  predicate Normal(s: seq<Word>)
  {
    |s| >= 1 && (|s| > 1 ==> s[|s| - 1] != 0)
  }

  lemma TopWord(s: seq<Word>)
    requires s != []
    ensures s[|s| - 1] * Pow(|s| - 1) <= Val(s) < (s[|s| - 1] + 1) * Pow(|s| - 1)
  {
    var n := |s| - 1;
    ValBound(s[..n]);
    assert (s[n] + 1) * Pow(n) == s[n] * Pow(n) + Pow(n);
  }

  /** Of two normal numbers the longer one is greater. */
  lemma LongerGreater(a: seq<Word>, b: seq<Word>)
    requires Normal(a) && |b| < |a|
    requires |b| == 0 ==> Val(a) > 0
    ensures Val(b) < Val(a)
  {
    ValBound(b);
    if |b| > 0 {
      TopWord(a);
      PowGrows(|b|, |a| - 1);
      MulLe(1, a[|a| - 1], Pow(|a| - 1));
    }
  }

  lemma {:induction false} PowGrows(m: nat, n: nat)
    requires m <= n
    ensures Pow(m) <= Pow(n)
  {
    if m < n { PowGrows(m, n - 1); }
  }

  /** The first difference from the top decides. */
  lemma {:induction false} CompareAt(a: seq<Word>, b: seq<Word>, i: nat)
    requires |a| == |b| && i < |a| && a[i] < b[i] && a[i + 1..] == b[i + 1..]
    ensures Val(a) < Val(b)
  {
    var n := |a| - 1;
    if i == n {
      TopWord(a);
      TopWord(b);
      MulLe(a[n] + 1, b[n], Pow(n));
    } else {
      assert a[i + 1..][n - i - 1] == b[i + 1..][n - i - 1];
      assert a[..n][i + 1..] == a[i + 1..][..n - i - 1] && b[..n][i + 1..] == b[i + 1..][..n - i - 1];
      CompareAt(a[..n], b[..n], i);
    }
  }
}
