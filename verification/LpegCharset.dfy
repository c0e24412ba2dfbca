/** Character sets as 32 bytes, and the loop that classifies them. */
module LpegCharset {
  import opened LpegTree
  import opened LpegGen

  const CHARSETSIZE := 32
  const BITSPERCHAR := 8

  function Mask(k: nat): bv8
    requires k < 8
  {
    match k
    case 0 => 1
    case 1 => 2
    case 2 => 4
    case 3 => 8
    case 4 => 16
    case 5 => 32
    case 6 => 64
    case _ => 128
  }

  predicate Bit(b: bv8, k: nat)
    requires k < 8
  {
    b & Mask(k) != 0
  }

  /** character c: bit c % 8 of byte c / 8 */
  predicate Has(s: seq<bv8>, c: Byte)
    requires |s| == CHARSETSIZE
  {
    Bit(s[c as int / 8], c as int % 8)
  }

  /** the set that the bytes stand for */
  function SetOf(s: seq<bv8>): Charset
    requires |s| == CHARSETSIZE
  {
    set c: Byte | Has(s, c)
  }

  // ------------------------------------------------------------------ one byte

  lemma Zero(k: nat)
    requires k < 8
    ensures !Bit(0, k)
  {
  }

  lemma Ones(k: nat)
    requires k < 8
    ensures Bit(0xff, k)
  {
  }

  predicate OneBit(b: bv8) { b != 0 && b & (b - 1) == 0 }

  /** the search for the bit, four, two and one */
  function BitIndex(b: bv8): (k: nat)
    ensures k < 8
  {
    var high := b & 0xf0 != 0;
    var c := if high then b >> 4 else b;
    var upper := c & 0x0c != 0;
    var d := if upper then c >> 2 else c;
    (if high then 4 else 0) + (if upper then 2 else 0) + if d & 0x02 != 0 then 1 else 0
  }

  lemma OneBitIs(b: bv8)
    requires OneBit(b)
    ensures b == Mask(BitIndex(b))
  {
  }

  lemma MaskBits(j: nat, k: nat)
    requires j < 8 && k < 8
    ensures Bit(Mask(j), k) <==> j == k
  {
  }

  /** Any other byte has two bits at least, and misses one. */
  lemma ManyBits(b: bv8) returns (i: nat, j: nat, k: nat)
    requires b != 0 && b != 0xff && !OneBit(b)
    ensures i < j < 8 && k < 8 && Bit(b, i) && Bit(b, j) && !Bit(b, k)
  {
    i := if Bit(b, 0) then 0 else if Bit(b, 1) then 1 else if Bit(b, 2) then 2 else if Bit(b, 3) then 3
      else if Bit(b, 4) then 4 else if Bit(b, 5) then 5 else 6;
    j := if Bit(b, 7) then 7 else if Bit(b, 6) then 6 else if Bit(b, 5) then 5 else if Bit(b, 4) then 4
      else if Bit(b, 3) then 3 else if Bit(b, 2) then 2 else 1;
    k := if !Bit(b, 0) then 0 else if !Bit(b, 1) then 1 else if !Bit(b, 2) then 2 else if !Bit(b, 3) then 3
      else if !Bit(b, 4) then 4 else if !Bit(b, 5) then 5 else if !Bit(b, 6) then 6 else 7;
  }

  // ------------------------------------------------------------------ whole sets

  function Char(i: nat, k: nat): Byte
    requires i < CHARSETSIZE && k < 8
  {
    (8 * i + k) as Byte
  }

  lemma CharHas(s: seq<bv8>, i: nat, k: nat)
    requires |s| == CHARSETSIZE && i < CHARSETSIZE && k < 8
    ensures Char(i, k) in SetOf(s) <==> Bit(s[i], k)
  {
    assert (8 * i + k) / 8 == i && (8 * i + k) % 8 == k;
  }

  /** Two characters in, one out: nothing special. */
  lemma General(s: seq<bv8>, a: Byte, b: Byte, c: Byte)
    requires |s| == CHARSETSIZE && a != b && a in SetOf(s) && b in SetOf(s) && c !in SetOf(s)
    ensures CharsetType(SetOf(s)) == GenericSet
  {
    assert c in FULL_SET;
  }

  lemma AllZero(s: seq<bv8>)
    requires |s| == CHARSETSIZE && forall i :: 0 <= i < CHARSETSIZE ==> s[i] == 0
    ensures CharsetType(SetOf(s)) == EmptySet
  {
    forall c: Byte ensures c !in SetOf(s) { Zero(c as int % 8); }
  }

  lemma AllOnes(s: seq<bv8>)
    requires |s| == CHARSETSIZE && forall i :: 0 <= i < CHARSETSIZE ==> s[i] == 0xff
    ensures CharsetType(SetOf(s)) == FullSet
  {
    forall c: Byte ensures c in SetOf(s) { Ones(c as int % 8); }
    assert SetOf(s) == FULL_SET;
    var z, y: Byte := 0, 1;
    assert z in SetOf(s) && y in SetOf(s);
  }

  lemma Singleton(s: seq<bv8>, i: nat)
    requires |s| == CHARSETSIZE && i < CHARSETSIZE && OneBit(s[i])
    requires forall j :: 0 <= j < CHARSETSIZE && j != i ==> s[j] == 0
    ensures CharsetType(SetOf(s)) == SingleSet(Char(i, BitIndex(s[i])))
  {
    var k := BitIndex(s[i]);
    OneBitIs(s[i]);
    forall c: Byte ensures c in SetOf(s) <==> c == Char(i, k) {
      var j, m := c as int / 8, c as int % 8;
      if j == i { MaskBits(k, m); } else { Zero(m); }
    }
    assert SetOf(s) == {Char(i, k)};
    assert Char(i, k) in SetOf(s);
    var other: Byte := if Char(i, k) == 0 then 1 else 0;
    assert other !in SetOf(s) && other in FULL_SET;
  }

  /** what the loop knows about the first i bytes */
  predicate Seen(s: seq<bv8>, i: nat, count: nat, candidate: int)
    requires |s| == CHARSETSIZE && i <= CHARSETSIZE
  {
    if count == 0 then forall j :: 0 <= j < i ==> s[j] == 0
    else if count == 1 then
      && 0 <= candidate < i && OneBit(s[candidate])
      && forall j :: 0 <= j < i && j != candidate ==> s[j] == 0
    else count == BITSPERCHAR * i && forall j :: 0 <= j < i ==> s[j] == 0xff
  }

  /** an empty byte after full ones */
  lemma ZeroAfterOnes(s: seq<bv8>, i: nat, count: nat, candidate: int)
    requires |s| == CHARSETSIZE && i < CHARSETSIZE && Seen(s, i, count, candidate) && count > 1 && s[i] == 0
    ensures CharsetType(SetOf(s)) == GenericSet
  {
    hide CharsetType, SetOf, Bit;
    CharHas(s, 0, 0);
    CharHas(s, 0, 1);
    CharHas(s, i, 0);
    Ones(0);
    Ones(1);
    Zero(0);
    General(s, Char(0, 0), Char(0, 1), Char(i, 0));
  }

  /** a byte with one bit, and what it misses */
  lemma OneAndNot(b: bv8) returns (j: nat, k: nat)
    requires OneBit(b)
    ensures j < 8 && k < 8 && Bit(b, j) && !Bit(b, k)
  {
    j := BitIndex(b);
    k := if j == 0 then 1 else 0;
    OneBitIs(b);
    MaskBits(j, j);
    MaskBits(j, k);
  }

  /** a full byte after others */
  lemma OnesAfterOther(s: seq<bv8>, i: nat, count: nat, candidate: int)
    requires |s| == CHARSETSIZE && i < CHARSETSIZE && Seen(s, i, count, candidate) && count < BITSPERCHAR * i && s[i] == 0xff
    ensures CharsetType(SetOf(s)) == GenericSet
  {
    hide CharsetType, SetOf, Bit, OneBit;
    CharHas(s, i, 0);
    CharHas(s, i, 1);
    Ones(0);
    Ones(1);
    var m, k := 0, 0;
    if count == 0 {
      Zero(0);
    } else {
      var j;
      m := candidate;
      j, k := OneAndNot(s[candidate]);
    }
    CharHas(s, m, k);
    General(s, Char(i, 0), Char(i, 1), Char(m, k));
  }

  /** a byte with one bit after bytes that are not empty */
  lemma OneAfterOther(s: seq<bv8>, i: nat, count: nat, candidate: int)
    requires |s| == CHARSETSIZE && i < CHARSETSIZE && Seen(s, i, count, candidate) && count > 0 && OneBit(s[i])
    ensures CharsetType(SetOf(s)) == GenericSet
  {
    hide CharsetType, SetOf, Bit, OneBit;
    var j, k := OneAndNot(s[i]);
    CharHas(s, i, j);
    CharHas(s, i, k);
    var m, n := 0, 0;
    if count == 1 {
      var l;
      m := candidate;
      n, l := OneAndNot(s[candidate]);
    } else {
      Ones(0);
    }
    CharHas(s, m, n);
    General(s, Char(i, j), Char(m, n), Char(i, k));
  }

  lemma ManyInOne(s: seq<bv8>, i: nat)
    requires |s| == CHARSETSIZE && i < CHARSETSIZE && s[i] != 0 && s[i] != 0xff && !OneBit(s[i])
    ensures CharsetType(SetOf(s)) == GenericSet
  {
    hide CharsetType, SetOf, Bit, OneBit;
    var x, y, z := ManyBits(s[i]);
    CharHas(s, i, x);
    CharHas(s, i, y);
    CharHas(s, i, z);
    General(s, Char(i, x), Char(i, y), Char(i, z));
  }

  /** charsettype: one pass over the bytes tells empty, single and full sets from all others. */
  method CharsetTypeOf(cs: array<bv8>) returns (kind: SetKind)
    requires cs.Length == CHARSETSIZE
    ensures kind == CharsetType(SetOf(cs[..]))
  {
    hide CharsetType, SetOf, BitIndex;
    ghost var s := cs[..];
    var count, candidate := 0, -1;
    for i := 0 to CHARSETSIZE
      invariant 0 <= count && Seen(s, i, count, candidate)
    {
      var b := cs[i];
      if b == 0 {
        if count > 1 {
          ZeroAfterOnes(s, i, count, candidate);
          return GenericSet;
        }
      } else if b == 0xff {
        if count < i * BITSPERCHAR {
          OnesAfterOther(s, i, count, candidate);
          return GenericSet;
        }
        count := count + BITSPERCHAR;
      } else if b & (b - 1) == 0 {
        if count > 0 {
          OneAfterOther(s, i, count, candidate);
          return GenericSet;
        }
        count := count + 1;
        candidate := i;
      } else {
        ManyInOne(s, i);
        return GenericSet;
      }
    }
    if count == 0 {
      AllZero(s);
      kind := EmptySet;
    } else if count == 1 {
      Singleton(s, candidate);
      var k := FindBit(cs[candidate]);
      kind := SingleSet((candidate * BITSPERCHAR + k) as Byte);
    } else {
      assert count == CHARSETSIZE * BITSPERCHAR;
      AllOnes(s);
      kind := FullSet;
    }
  }

  /** the end of charsettype: four bits, two bits, one bit */
  method FindBit(b0: bv8) returns (c: nat)
    ensures c == BitIndex(b0)
  {
    var b := b0;
    c := 0;
    if b & 0xf0 != 0 {
      c := c + 4;
      b := b >> 4;
    }
    if b & 0x0c != 0 {
      c := c + 2;
      b := b >> 2;
    }
    if b & 0x02 != 0 { c := c + 1; }
  }

  // ------------------------------------------------------------------ two sets

  lemma CommonBit(x: bv8, y: bv8) returns (k: nat)
    requires x & y != 0
    ensures k < 8 && Bit(x, k) && Bit(y, k)
  {
    k := FirstBit(x & y);
  }

  function FirstBit(b: bv8): (k: nat)
    ensures k < 8 && (b != 0 ==> Bit(b, k))
  {
    if Bit(b, 0) then 0 else if Bit(b, 1) then 1 else if Bit(b, 2) then 2 else if Bit(b, 3) then 3
    else if Bit(b, 4) then 4 else if Bit(b, 5) then 5 else if Bit(b, 6) then 6 else 7
  }

  lemma NoCommonBit(x: bv8, y: bv8, k: nat)
    requires x & y == 0 && k < 8
    ensures !(Bit(x, k) && Bit(y, k))
  {
  }

  lemma DifferentBit(x: bv8, y: bv8) returns (k: nat)
    requires x != y
    ensures k < 8 && Bit(x, k) != Bit(y, k)
  {
    k := FirstBit(x ^ y);
  }

  /** cs_disjoint */
  method Disjoint(a: array<bv8>, b: array<bv8>) returns (r: bool)
    requires a.Length == b.Length == CHARSETSIZE
    ensures r <==> SetOf(a[..]) !! SetOf(b[..])
  {
    ghost var s, t := a[..], b[..];
    for i := 0 to CHARSETSIZE
      invariant forall j :: 0 <= j < i ==> s[j] & t[j] == 0
    {
      if a[i] & b[i] != 0 {
        ghost var k := CommonBit(a[i], b[i]);
        CharHas(s, i, k);
        CharHas(t, i, k);
        assert Char(i, k) in SetOf(s) * SetOf(t);
        return false;
      }
    }
    forall c: Byte ensures !(c in SetOf(s) && c in SetOf(t)) { NoCommonBit(s[c as int / 8], t[c as int / 8], c as int % 8); }
    r := true;
  }

  /** cs_equal */
  method Equal(a: array<bv8>, b: array<bv8>) returns (r: bool)
    requires a.Length == b.Length == CHARSETSIZE
    ensures r <==> SetOf(a[..]) == SetOf(b[..])
  {
    ghost var s, t := a[..], b[..];
    for i := 0 to CHARSETSIZE
      invariant forall j :: 0 <= j < i ==> s[j] == t[j]
    {
      if a[i] != b[i] {
        ghost var k := DifferentBit(a[i], b[i]);
        CharHas(s, i, k);
        CharHas(t, i, k);
        assert (Char(i, k) in SetOf(s)) != (Char(i, k) in SetOf(t));
        return false;
      }
    }
    assert s == t;
    r := true;
  }
}
