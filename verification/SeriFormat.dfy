/** The byte format of serialized values, written and read. */
module SeriFormat {
  type Byte = b: int | 0 <= b < 256
  type Bytes = seq<Byte>

  datatype Option<T> = None | Some(value: T)

  /** A value: numbers that are not integers and pointers are eight bytes that nobody looks into; a
      table is its array part and the other pairs in the order of an iteration. */
  datatype Value =
    | Nil
    | Boolean(b: bool)
    | Integer(i: int)
    | Real(bits: Bytes)
    | Pointer(bits: Bytes)
    | Str(s: Bytes)
    | Table(elems: seq<Value>, pairs: seq<Pair>)

  datatype Pair = Pair(key: Value, value: Value)

  const TYPE_NIL := 0
  const TYPE_BOOLEAN := 1
  const TYPE_NUMBER := 2
  const TYPE_USERDATA := 3
  const TYPE_SHORT_STRING := 4
  const TYPE_LONG_STRING := 5
  const TYPE_TABLE := 6
  const NUMBER_BYTE := 1
  const NUMBER_WORD := 2
  const NUMBER_DWORD := 4
  const NUMBER_QWORD := 6
  const NUMBER_REAL := 8
  const MAX_COOKIE := 32
  const MAX_DEPTH := 32

  /** What the language guarantees of a value: integers of 64 bits, no table pair without a key,
      sizes that fit an int. */
  predicate Good(v: Value)
  {
    match v
    case Integer(i) => -0x8000_0000_0000_0000 <= i < 0x8000_0000_0000_0000
    case Real(bits) => |bits| == 8
    case Pointer(bits) => |bits| == 8
    case Str(s) => |s| < 0x8000_0000
    case Table(elems, pairs) =>
      && |elems| < 0x8000_0000
      && (forall e :: e in elems ==> Good(e))
      && forall p :: p in pairs ==> p.key != Nil && Good(p.key) && Good(p.value)
    case _ => true
  }

  // ------------------------------------------------------------------ numbers of fixed width

  function Width(n: nat): (w: nat)
    ensures w > 0
  {
    if n == 0 then 1 else 256 * Width(n - 1)
  }

  /** n bytes, least significant first */
  function ToBytes(x: nat, n: nat): (s: Bytes)
    ensures |s| == n
  {
    if n == 0 then [] else [x % 256] + ToBytes(x / 256, n - 1)
  }

  function FromBytes(s: Bytes): (x: nat)
  {
    if s == [] then 0 else s[0] + 256 * FromBytes(s[1..])
  }

  lemma {:induction false} BytesBack(x: nat, n: nat)
    requires x < Width(n)
    ensures FromBytes(ToBytes(x, n)) == x
  {
    if n > 0 {
      BytesBack(x / 256, n - 1);
      assert ToBytes(x, n)[1..] == ToBytes(x / 256, n - 1);
    }
  }

  lemma Widths()
    ensures Width(1) == 0x100 && Width(2) == 0x1_0000 && Width(4) == 0x1_0000_0000 && Width(8) == 0x1_0000_0000_0000_0000
  {
    assert Width(2) == 256 * Width(1);
    assert Width(4) == 256 * Width(3) && Width(3) == 256 * Width(2);
    assert Width(8) == 256 * Width(7) && Width(7) == 256 * Width(6) && Width(6) == 256 * Width(5) && Width(5) == 256 * Width(4);
  }

  /** two's complement */
  function Wrapped(i: int, w: nat): (x: nat)
    requires w > 0
    ensures x < w
  {
    i % w
  }

  function Signed(x: nat, w: nat): int
  {
    if x >= w / 2 then x - w else x
  }

  function Combine(t: nat, v: nat): Byte
    requires t < 8 && v < 32
  {
    t + v * 8
  }

  // ------------------------------------------------------------------ writing

  function PackInteger(v: int): (s: Bytes)
    requires -0x8000_0000_0000_0000 <= v < 0x8000_0000_0000_0000
    ensures s != []
  {
    if v == 0 then [Combine(TYPE_NUMBER, 0)]
    else if !(-0x8000_0000 <= v < 0x8000_0000) then [Combine(TYPE_NUMBER, NUMBER_QWORD)] + ToBytes(Wrapped(v, 0x1_0000_0000_0000_0000), 8)
    else if v < 0 then [Combine(TYPE_NUMBER, NUMBER_DWORD)] + ToBytes(Wrapped(v, 0x1_0000_0000), 4)
    else if v < 0x100 then [Combine(TYPE_NUMBER, NUMBER_BYTE)] + ToBytes(v, 1)
    else if v < 0x1_0000 then [Combine(TYPE_NUMBER, NUMBER_WORD)] + ToBytes(v, 2)
    else [Combine(TYPE_NUMBER, NUMBER_DWORD)] + ToBytes(v, 4)
  }

  function PackString(s: Bytes): Bytes
    requires |s| < 0x8000_0000
  {
    if |s| < MAX_COOKIE then [Combine(TYPE_SHORT_STRING, |s|)] + s
    else if |s| < 0x1_0000 then [Combine(TYPE_LONG_STRING, 2)] + ToBytes(|s|, 2) + s
    else [Combine(TYPE_LONG_STRING, 4)] + ToBytes(|s|, 4) + s
  }

  function PackTableHead(n: nat): Bytes
    requires n < 0x8000_0000
  {
    if n >= MAX_COOKIE - 1 then [Combine(TYPE_TABLE, MAX_COOKIE - 1)] + PackInteger(n) else [Combine(TYPE_TABLE, n)]
  }

  /** The bytes of a value at a depth, or an error when it is too deep. */
  function Pack(v: Value, depth: nat): Option<Bytes>
    requires Good(v)
    decreases v, 0
  {
    if depth > MAX_DEPTH then None
    else
      match v
      case Nil => Some([TYPE_NIL])
      case Boolean(b) => Some([Combine(TYPE_BOOLEAN, if b then 1 else 0)])
      case Integer(i) => Some(PackInteger(i))
      case Real(bits) => Some([Combine(TYPE_NUMBER, NUMBER_REAL)] + bits)
      case Pointer(bits) => Some([TYPE_USERDATA] + bits)
      case Str(s) => Some(PackString(s))
      case Table(elems, pairs) =>
        var a, h := PackAll(elems, depth + 1), PackPairs(pairs, depth + 1);
        if a.None? || h.None? then None else Some(PackTableHead(|elems|) + a.value + h.value)
  }

  function PackAll(vs: seq<Value>, depth: nat): Option<Bytes>
    requires forall v :: v in vs ==> Good(v)
    decreases vs, 1
  {
    if vs == [] then Some([])
    else
      var a, b := Pack(vs[0], depth), PackAll(vs[1..], depth);
      if a.None? || b.None? then None else Some(a.value + b.value)
  }

  /** the pairs, and a nil at the end */
  function PackPairs(ps: seq<Pair>, depth: nat): Option<Bytes>
    requires forall p :: p in ps ==> Good(p.key) && Good(p.value)
    decreases ps, 1
  {
    if ps == [] then Some([TYPE_NIL])
    else
      var a, b := PackPair(ps[0], depth), PackPairs(ps[1..], depth);
      if a.None? || b.None? then None else Some(a.value + b.value)
  }

  function PackPair(p: Pair, depth: nat): Option<Bytes>
    requires Good(p.key) && Good(p.value)
    decreases p, 1
  {
    var a, b := Pack(p.key, depth), Pack(p.value, depth);
    if a.None? || b.None? then None else Some(a.value + b.value)
  }

  // ------------------------------------------------------------------ reading

  /** what a reader returns: a value and the bytes after it, or nothing for an invalid stream */
  datatype Read<T> = Bad | Got(value: T, rest: Bytes)

  function Take(s: Bytes, n: nat): (r: Read<Bytes>)
    ensures r.Got? ==> |r.value| == n && |r.rest| == |s| - n
  {
    if |s| < n then Bad else Got(s[..n], s[n..])
  }

  function GetInteger(s: Bytes, cookie: nat): (r: Read<int>)
    ensures r.Got? ==> |r.rest| <= |s|
  {
    if cookie == 0 then Got(0, s)
    else if cookie == NUMBER_BYTE || cookie == NUMBER_WORD then
      var t := Take(s, cookie);
      if t.Bad? then Bad else Got(FromBytes(t.value), t.rest)
    else if cookie == NUMBER_DWORD then
      var t := Take(s, 4);
      if t.Bad? then Bad else Got(Signed(FromBytes(t.value), 0x1_0000_0000), t.rest)
    else if cookie == NUMBER_QWORD then
      var t := Take(s, 8);
      if t.Bad? then Bad else Got(Signed(FromBytes(t.value), 0x1_0000_0000_0000_0000), t.rest)
    else Bad
  }

  /** An integer cut to an int, as the number of elements to read: a loop up to a negative number
      reads none. */
  function ArraySize(x: int): (n: nat)
    ensures n < 0x8000_0000 && (0 <= x < 0x8000_0000 ==> n == x)
  {
    var c := Signed(Wrapped(x, 0x1_0000_0000), 0x1_0000_0000);
    if c < 0 then 0 else c
  }

  /** the number of elements of a table's array part */
  function GetSize(s: Bytes, cookie: nat): (r: Read<nat>)
    ensures r.Got? ==> |r.rest| <= |s|
  {
    if cookie != MAX_COOKIE - 1 then Got(cookie, s)
    else if s == [] then Bad
    else if s[0] % 8 != TYPE_NUMBER || s[0] / 8 == NUMBER_REAL then Bad
    else
      var n := GetInteger(s[1..], s[0] / 8);
      if n.Bad? then Bad else Got(ArraySize(n.value), n.rest)
  }

  function Unpack(s: Bytes): (r: Read<Value>)
    ensures r.Got? ==> |r.rest| < |s|
    decreases |s|, 0
  {
    if s == [] then Bad else PushValue(s[1..], s[0] % 8, s[0] / 8)
  }

  function PushValue(s: Bytes, t: nat, cookie: nat): (r: Read<Value>)
    ensures r.Got? ==> |r.rest| <= |s|
    decreases |s|, 3
  {
    if t == TYPE_NIL then Got(Nil, s)
    else if t == TYPE_BOOLEAN then Got(Boolean(cookie != 0), s)
    else if t == TYPE_NUMBER then
      if cookie == NUMBER_REAL then
        var b := Take(s, 8);
        if b.Bad? then Bad else Got(Real(b.value), b.rest)
      else
        var n := GetInteger(s, cookie);
        if n.Bad? then Bad else Got(Integer(n.value), n.rest)
    else if t == TYPE_USERDATA then
      var b := Take(s, 8);
      if b.Bad? then Bad else Got(Pointer(b.value), b.rest)
    else if t == TYPE_SHORT_STRING then
      var b := Take(s, cookie);
      if b.Bad? then Bad else Got(Str(b.value), b.rest)
    else if t == TYPE_LONG_STRING then
      if cookie != 2 && cookie != 4 then Bad
      else
        var n := Take(s, cookie);
        if n.Bad? then Bad
        else
          var b := Take(n.rest, FromBytes(n.value));
          if b.Bad? then Bad else Got(Str(b.value), b.rest)
    else if t == TYPE_TABLE then
      var n := GetSize(s, cookie);
      if n.Bad? then Bad
      else
        var a := UnpackAll(n.rest, n.value);
        if a.Bad? then Bad
        else
          var h := UnpackPairs(a.rest);
          if h.Bad? then Bad else Got(Table(a.value, h.value), h.rest)
    else Bad
  }

  function UnpackAll(s: Bytes, n: nat): (r: Read<seq<Value>>)
    ensures r.Got? ==> |r.rest| <= |s|
    decreases |s|, 1, n
  {
    if n == 0 then Got([], s)
    else
      var v := Unpack(s);
      if v.Bad? then Bad
      else
        var vs := UnpackAll(v.rest, n - 1);
        if vs.Bad? then Bad else Got([v.value] + vs.value, vs.rest)
  }

  function UnpackPairs(s: Bytes): (r: Read<seq<Pair>>)
    ensures r.Got? ==> |r.rest| <= |s|
    decreases |s|, 1
  {
    var k := Unpack(s);
    if k.Bad? then Bad
    else if k.value == Nil then Got([], k.rest)
    else
      var v := Unpack(k.rest);
      if v.Bad? then Bad
      else
        var ps := UnpackPairs(v.rest);
        if ps.Bad? then Bad else Got([Pair(k.value, v.value)] + ps.value, ps.rest)
  }

  // ------------------------------------------------------------------ the bytes themselves

  /** byte k of a number is its digit k to the base 256 */
  function LittleEndian(x: nat, n: nat): (s: Bytes)
    ensures |s| == n
  {
    seq(n, (k: nat) requires k < n => x / Width(k) % 256)
  }

  lemma {:induction false} ByteAt(x: nat, n: nat, k: nat)
    requires k < n
    ensures ToBytes(x, n)[k] == x / Width(k) % 256
  {
    if k > 0 {
      ByteAt(x / 256, n - 1, k - 1);
      DivTwice(x, Width(k - 1));
    }
  }

  lemma DivTwice(x: nat, w: nat)
    requires w > 0
    ensures x / 256 / w == x / (256 * w)
  {
    var p := x / 256 / w;
    var rest := x - 256 * w * p;
    assert x / 256 == w * p + x / 256 % w;
    assert rest == 256 * (x / 256 % w) + x % 256;
    assert 0 <= rest < 256 * w;
    Quotient(x, 256 * w, p, rest);
  }

  lemma Quotient(x: nat, d: nat, q: nat, r: nat)
    requires d > 0 && x == d * q + r && r < d
    ensures x / d == q
  {
    var e := x / d - q;
    assert d * e == d * (x / d) - d * q;
    Multiple(d, e);
  }

  lemma Multiple(d: nat, e: int)
    ensures e >= 1 ==> d * e >= d
    ensures e <= -1 ==> d * e + d <= 0
  {
  }

  lemma Endianness(x: nat, n: nat)
    ensures ToBytes(x, n) == LittleEndian(x, n)
  {
    forall k | 0 <= k < n ensures ToBytes(x, n)[k] == LittleEndian(x, n)[k] { ByteAt(x, n, k); }
  }

  /** The bytes of a value that is no table: type byte, then the number or the length, least
      significant byte first and negative ones in two's complement, then the contents. */
  lemma ScalarBytes(v: Value, depth: nat)
    requires Good(v) && !v.Table? && depth <= MAX_DEPTH
    ensures Pack(v, depth) == Some(
              match v
              case Nil => [0x00]
              case Boolean(b) => if b then [0x09] else [0x01]
              case Integer(i) =>
                if i == 0 then [0x02]
                else if 0 < i <= 0xff then [0x0a, i]
                else if 0 < i <= 0xffff then [0x12] + LittleEndian(i, 2)
                else if 0 < i <= 0x7fff_ffff then [0x22] + LittleEndian(i, 4)
                else if -0x8000_0000 <= i < 0 then [0x22] + LittleEndian(i + 0x1_0000_0000, 4)
                else [0x32] + LittleEndian(if i < 0 then i + 0x1_0000_0000_0000_0000 else i, 8)
              case Real(bits) => [0x42] + bits
              case Pointer(bits) => [0x03] + bits
              case Str(s) =>
                if |s| <= 31 then [0x04 + 8 * |s|] + s
                else if |s| <= 0xffff then [0x15] + LittleEndian(|s|, 2) + s
                else [0x25] + LittleEndian(|s|, 4) + s)
  {
    hide PackInteger, PackString, ToBytes, LittleEndian;
    match v
    case Integer(i) => IntegerBytes(i);
    case Str(s) => StringBytes(s);
    case _ =>
  }

  lemma IntegerBytes(i: int)
    requires -0x8000_0000_0000_0000 <= i < 0x8000_0000_0000_0000
    ensures PackInteger(i) ==
            if i == 0 then [0x02]
            else if 0 < i <= 0xff then [0x0a, i]
            else if 0 < i <= 0xffff then [0x12] + LittleEndian(i, 2)
            else if 0 < i <= 0x7fff_ffff then [0x22] + LittleEndian(i, 4)
            else if -0x8000_0000 <= i < 0 then [0x22] + LittleEndian(i + 0x1_0000_0000, 4)
            else [0x32] + LittleEndian(if i < 0 then i + 0x1_0000_0000_0000_0000 else i, 8)
  {
    hide ToBytes, LittleEndian;
    if 0 < i <= 0xff {
      OneByte(i);
    } else if 0 < i {
      Endianness(i, 2);
      Endianness(i, 4);
      Endianness(i, 8);
    } else if -0x8000_0000 <= i {
      Endianness(i + 0x1_0000_0000, 4);
    } else {
      Endianness(i + 0x1_0000_0000_0000_0000, 8);
    }
  }

  lemma StringBytes(s: Bytes)
    requires |s| < 0x8000_0000
    ensures PackString(s) ==
            if |s| <= 31 then [0x04 + 8 * |s|] + s
            else if |s| <= 0xffff then [0x15] + LittleEndian(|s|, 2) + s
            else [0x25] + LittleEndian(|s|, 4) + s
  {
    hide ToBytes, LittleEndian;
    Endianness(|s|, 2);
    Endianness(|s|, 4);
  }

  lemma OneByte(i: nat)
    requires i <= 0xff
    ensures ToBytes(i, 1) == [i]
  {
    assert ToBytes(i / 256, 0) == [];
  }

  /** The number of elements is in the type byte, or behind it as an integer. */
  lemma TableHeadBytes(n: nat)
    requires n < 0x8000_0000
    ensures PackTableHead(n) == if n <= 30 then [0x06 + 8 * n] else [0xfe] + PackInteger(n)
  {
  }

  lemma PackTable(elems: seq<Value>, pairs: seq<Pair>, depth: nat)
    requires Good(Table(elems, pairs)) && depth <= MAX_DEPTH
    requires PackAll(elems, depth + 1).Some? && PackPairs(pairs, depth + 1).Some?
    ensures Pack(Table(elems, pairs), depth) ==
            Some(PackTableHead(|elems|) + PackAll(elems, depth + 1).value + PackPairs(pairs, depth + 1).value)
  {
    hide PackAll, PackPairs, PackTableHead;
  }

  lemma PackAllOne(v: Value, depth: nat)
    requires Good(v)
    ensures PackAll([v], depth) == Pack(v, depth)
  {
    hide Pack;
    assert [v][1..] == [];
    var a := Pack(v, depth);
    if a.Some? { assert a.value + [] == a.value; }
  }

  lemma PackPairsOne(p: Pair, depth: nat)
    requires Good(p.key) && Good(p.value) && Pack(p.key, depth).Some? && Pack(p.value, depth).Some?
    ensures PackPairs([p], depth) == Some(Pack(p.key, depth).value + Pack(p.value, depth).value + [0x00])
  {
    hide Pack;
    assert [p][1..] == [];
  }

  /** { 1, a = true }: one element, one pair, and the nil that ends the pairs. */
  lemma TableBytes()
    ensures Pack(Table([Integer(1)], [Pair(Str([0x61]), Boolean(true))]), 0) == Some([0x0e, 0x0a, 0x01, 0x0c, 0x61, 0x09, 0x00])
  {
    hide Pack, PackAll, PackPairs, PackTableHead, LittleEndian;
    ScalarBytes(Integer(1), 1);
    ScalarBytes(Str([0x61]), 1);
    ScalarBytes(Boolean(true), 1);
    var name: Bytes := [0x0c, 0x61];
    assert Pack(Str([0x61]), 1) == Some(name) by { assert [0x04 + 8 * 1] + [0x61] == name; }
    PackAllOne(Integer(1), 1);
    PackPairsOne(Pair(Str([0x61]), Boolean(true)), 1);
    TableHeadBytes(1);
    PackTable([Integer(1)], [Pair(Str([0x61]), Boolean(true))], 0);
    var head: Bytes, one: Bytes, t: Bytes, end: Bytes := [0x0e], [0x0a, 0x01], [0x09], [0x00];
    assert head + one + (name + t + end) == [0x0e, 0x0a, 0x01, 0x0c, 0x61, 0x09, 0x00];
  }

  /** What is read by the type byte where no writer would have put it: any cookie of a boolean but
      0 is true, no cookie matters to nil and pointers, and the other kinds are errors. */
  lemma OddBytes(t: nat, cookie: nat, s: Bytes)
    requires t < 8 && cookie < 32
    ensures var r := Unpack([t + 8 * cookie] + s);
            && (t == 0 ==> r == Got(Nil, s))
            && (t == 1 ==> r == Got(Boolean(cookie > 0), s))
            && (t == 2 && cookie !in {0, 1, 2, 4, 6, 8} ==> r == Bad)
            && (t == 3 && |s| >= 8 ==> r == Got(Pointer(s[..8]), s[8..]))
            && (t == 5 && cookie !in {2, 4} ==> r == Bad)
            && (t == 7 ==> r == Bad)
  {
    hide PushValue;
    BehindType(t, cookie, s);
    OddValue(t, cookie, s);
  }

  /** So is a table whose size is not an integer. */
  lemma OddSize(s: Bytes)
    requires s == [] || s[0] % 8 != 2 || s[0] / 8 == 8
    ensures Unpack([0xfe] + s) == Bad
  {
    hide PushValue, Unpack;
    BehindType(6, 31, s);
    assert [6 + 8 * 31] == [0xfe];
    OddTable(s);
  }

  lemma OddTable(s: Bytes)
    requires s == [] || s[0] % 8 != 2 || s[0] / 8 == 8
    ensures PushValue(s, 6, 31) == Bad
  {
    hide UnpackAll, UnpackPairs, GetInteger;
  }

  lemma BehindType(t: nat, cookie: nat, s: Bytes)
    requires t < 8 && cookie < 32
    ensures Unpack([t + 8 * cookie] + s) == PushValue(s, t, cookie)
  {
    hide PushValue;
    var b: Byte := t + 8 * cookie;
    assert ([b] + s)[1..] == s && b % 8 == t && b / 8 == cookie;
  }

  lemma OddValue(t: nat, cookie: nat, s: Bytes)
    requires t < 8 && cookie < 32
    ensures var r := PushValue(s, t, cookie);
            && (t == 0 ==> r == Got(Nil, s))
            && (t == 1 ==> r == Got(Boolean(cookie > 0), s))
            && (t == 2 && cookie !in {0, 1, 2, 4, 6, 8} ==> r == Bad)
            && (t == 3 && |s| >= 8 ==> r == Got(Pointer(s[..8]), s[8..]))
            && (t == 5 && cookie !in {2, 4} ==> r == Bad)
            && (t == 7 ==> r == Bad)
  {
    hide UnpackAll, UnpackPairs, GetSize, FromBytes, Signed;
  }

  // ------------------------------------------------------------------ round trip

  lemma TakeBack(a: Bytes, rest: Bytes)
    ensures Take(a + rest, |a|) == Got(a, rest)
  {
  }

  lemma IntegerBack(v: int, rest: Bytes)
    requires -0x8000_0000_0000_0000 <= v < 0x8000_0000_0000_0000
    ensures var s := PackInteger(v) + rest;
            && s[0] % 8 == TYPE_NUMBER && s[0] / 8 != NUMBER_REAL && s[0] / 8 < 8
            && GetInteger(s[1..], s[0] / 8) == Got(v, rest)
  {
    hide FromBytes, ToBytes;
    Widths();
    var p := PackInteger(v);
    assert (p + rest)[1..] == p[1..] + rest;
    TakeBack(p[1..], rest);
    if v == 0 {
      assert p[1..] + rest == rest;
    } else {
      NumberBack(v);
    }
  }

  /** the bytes behind the type byte */
  lemma NumberBack(v: int)
    requires -0x8000_0000_0000_0000 <= v < 0x8000_0000_0000_0000 && v != 0
    ensures var p := PackInteger(v);
            if !(-0x8000_0000 <= v < 0x8000_0000) then |p| == 9 && Signed(FromBytes(p[1..]), 0x1_0000_0000_0000_0000) == v
            else if v < 0 || v >= 0x1_0000 then |p| == 5 && Signed(FromBytes(p[1..]), 0x1_0000_0000) == v
            else if v < 0x100 then |p| == 2 && FromBytes(p[1..]) == v
            else |p| == 3 && FromBytes(p[1..]) == v
  {
    hide FromBytes, ToBytes;
    Widths();
    var p := PackInteger(v);
    if !(-0x8000_0000 <= v < 0x8000_0000) {
      BytesBack(Wrapped(v, 0x1_0000_0000_0000_0000), 8);
      assert p[1..] == ToBytes(Wrapped(v, 0x1_0000_0000_0000_0000), 8);
    } else if v < 0 {
      BytesBack(Wrapped(v, 0x1_0000_0000), 4);
      assert p[1..] == ToBytes(Wrapped(v, 0x1_0000_0000), 4);
    } else {
      var n := if v < 0x100 then 1 else if v < 0x1_0000 then 2 else 4;
      BytesBack(v, n);
      assert p[1..] == ToBytes(v, n);
    }
  }

  lemma StringBack(t: Bytes, rest: Bytes)
    requires |t| < 0x8000_0000
    ensures PackString(t) != []
    ensures var s := PackString(t) + rest; PushValue(s[1..], s[0] % 8, s[0] / 8) == Got(Str(t), rest)
  {
    hide FromBytes, ToBytes, Take, GetInteger, GetSize;
    var s := PackString(t) + rest;
    TakeBack(t, rest);
    if |t| < MAX_COOKIE {
      assert s[1..] == t + rest;
    } else {
      LongStringBack(t, rest, if |t| < 0x1_0000 then 2 else 4);
    }
  }

  lemma LongStringBack(t: Bytes, rest: Bytes, n: nat)
    requires MAX_COOKIE <= |t| < 0x8000_0000 && n == if |t| < 0x1_0000 then 2 else 4
    ensures PackString(t) == [Combine(TYPE_LONG_STRING, n)] + ToBytes(|t|, n) + t
    ensures (PackString(t) + rest)[1..] == ToBytes(|t|, n) + (t + rest)
    ensures Take(ToBytes(|t|, n) + (t + rest), n) == Got(ToBytes(|t|, n), t + rest) && FromBytes(ToBytes(|t|, n)) == |t|
  {
    hide FromBytes, ToBytes, Take;
    Widths();
    BytesBack(|t|, n);
    TakeBack(ToBytes(|t|, n), t + rest);
    BehindFirst(Combine(TYPE_LONG_STRING, n), ToBytes(|t|, n), t, rest);
  }

  lemma BehindFirst(c: Byte, a: Bytes, t: Bytes, rest: Bytes)
    ensures ([c] + a + t + rest)[1..] == a + (t + rest)
  {
  }

  lemma SizeBack(n: nat, rest: Bytes)
    requires n < 0x8000_0000
    ensures PackTableHead(n) != []
    ensures var s := PackTableHead(n) + rest; s[0] % 8 == TYPE_TABLE && GetSize(s[1..], s[0] / 8) == Got(n, rest)
  {
    hide PackInteger, GetInteger;
    var s := PackTableHead(n) + rest;
    if n >= MAX_COOKIE - 1 {
      IntegerBack(n, rest);
      assert s[1..] == PackInteger(n) + rest;
    } else {
      assert s[1..] == rest;
    }
  }

  /** Any integer is accepted as a size. It is what will be read just when it fits an int. */
  lemma SizeCut(x: int, rest: Bytes)
    requires -0x8000_0000_0000_0000 <= x < 0x8000_0000_0000_0000
    ensures GetSize(PackInteger(x) + rest, MAX_COOKIE - 1) == Got(ArraySize(x), rest)
    ensures ArraySize(x) == x <==> 0 <= x < 0x8000_0000
  {
    hide PackInteger, GetInteger, ArraySize;
    IntegerBack(x, rest);
  }

  /** The size -1: an empty table, and no error. */
  lemma NegativeSize()
    ensures Unpack([0xfe, 0x22, 0xff, 0xff, 0xff, 0xff, 0x00]) == Got(Table([], []), [])
  {
    hide PackInteger, GetInteger;
    var s: Bytes := [0x22, 0xff, 0xff, 0xff, 0xff, 0x00];
    MinusOne();
    assert [0xfe, 0x22, 0xff, 0xff, 0xff, 0xff, 0x00][1..] == s && s == PackInteger(-1) + [0x00];
    SizeCut(-1, [0x00]);
    assert Unpack([0x00]) == Got(Nil, []);
  }

  lemma MinusOne()
    ensures PackInteger(-1) == [0x22, 0xff, 0xff, 0xff, 0xff]
  {
    assert ToBytes(0xffff_ffff, 4) == [0xff] + ToBytes(0xff_ffff, 3);
    assert ToBytes(0xff_ffff, 3) == [0xff] + ToBytes(0xffff, 2);
  }

  /** Reading what was written gives the value back and leaves what follows, for every value that
      is not too deep. */
  lemma {:induction false} RoundTrip(v: Value, depth: nat, rest: Bytes)
    requires Good(v) && Pack(v, depth).Some?
    ensures Unpack(Pack(v, depth).value + rest) == Got(v, rest)
    decreases v, 0
  {
    hide Pack, Unpack;
    match v
    case Table(elems, pairs) =>
      PackedTable(v, depth);
      var a, h := PackAll(elems, depth + 1).value, PackPairs(pairs, depth + 1).value;
      RoundTripAll(elems, depth + 1, h + rest);
      RoundTripPairs(pairs, depth + 1, rest);
      TableBack(elems, pairs, a, h, rest);
    case _ => LeafBack(v, depth, rest);
  }

  lemma PackedTable(v: Value, depth: nat)
    requires Good(v) && v.Table? && Pack(v, depth).Some?
    ensures PackAll(v.elems, depth + 1).Some? && PackPairs(v.pairs, depth + 1).Some?
    ensures Pack(v, depth).value == PackTableHead(|v.elems|) + PackAll(v.elems, depth + 1).value + PackPairs(v.pairs, depth + 1).value
  {
  }

  /** values without parts */
  lemma LeafBack(v: Value, depth: nat, rest: Bytes)
    requires Good(v) && !v.Table? && Pack(v, depth).Some?
    ensures Unpack(Pack(v, depth).value + rest) == Got(v, rest)
  {
    hide PackInteger, PackString, GetInteger, GetSize, ToBytes, FromBytes;
    var p := Pack(v, depth).value;
    match v
    case Nil => assert (p + rest)[1..] == rest;
    case Boolean(_) => assert (p + rest)[1..] == rest;
    case Integer(i) => IntegerBack(i, rest);
    case Real(bits) =>
      assert (p + rest)[1..] == bits + rest;
      TakeBack(bits, rest);
    case Pointer(bits) =>
      assert (p + rest)[1..] == bits + rest;
      TakeBack(bits, rest);
    case Str(s) => StringBack(s, rest);
  }

  lemma TableBack(elems: seq<Value>, pairs: seq<Pair>, a: Bytes, h: Bytes, rest: Bytes)
    requires |elems| < 0x8000_0000
    requires UnpackAll(a + (h + rest), |elems|) == Got(elems, h + rest) && UnpackPairs(h + rest) == Got(pairs, rest)
    ensures Unpack(PackTableHead(|elems|) + a + h + rest) == Got(Table(elems, pairs), rest)
  {
    hide PackTableHead, GetSize, UnpackAll, UnpackPairs;
    SizeBack(|elems|, a + (h + rest));
    assert PackTableHead(|elems|) + a + h + rest == PackTableHead(|elems|) + (a + (h + rest));
  }

  lemma UnpackMore(s: Bytes, n: nat, v: Value, s1: Bytes, vs: seq<Value>, rest: Bytes)
    requires n > 0 && Unpack(s) == Got(v, s1) && UnpackAll(s1, n - 1) == Got(vs, rest)
    ensures UnpackAll(s, n) == Got([v] + vs, rest)
  {
    hide Unpack;
  }

  lemma UnpackMorePairs(s: Bytes, k: Value, s1: Bytes, v: Value, s2: Bytes, ps: seq<Pair>, rest: Bytes)
    requires k != Nil && Unpack(s) == Got(k, s1) && Unpack(s1) == Got(v, s2) && UnpackPairs(s2) == Got(ps, rest)
    ensures UnpackPairs(s) == Got([Pair(k, v)] + ps, rest)
  {
    hide Unpack;
  }

  lemma NilBack(rest: Bytes)
    ensures UnpackPairs([TYPE_NIL] + rest) == Got([], rest)
  {
    assert ([TYPE_NIL] + rest)[1..] == rest;
    assert Unpack([TYPE_NIL] + rest) == Got(Nil, rest);
  }

  lemma {:induction false} RoundTripAll(vs: seq<Value>, depth: nat, rest: Bytes)
    requires (forall v :: v in vs ==> Good(v)) && PackAll(vs, depth).Some?
    ensures UnpackAll(PackAll(vs, depth).value + rest, |vs|) == Got(vs, rest)
    decreases vs, 1
  {
    hide Pack, Unpack;
    if vs == [] {
      assert [] + rest == rest;
    } else {
      var a, b := Pack(vs[0], depth).value, PackAll(vs[1..], depth).value;
      RoundTrip(vs[0], depth, b + rest);
      RoundTripAll(vs[1..], depth, rest);
      assert a + b + rest == a + (b + rest);
      UnpackMore(a + b + rest, |vs|, vs[0], b + rest, vs[1..], rest);
      assert [vs[0]] + vs[1..] == vs;
    }
  }

  lemma {:induction false} RoundTripPairs(ps: seq<Pair>, depth: nat, rest: Bytes)
    requires (forall p :: p in ps ==> p.key != Nil && Good(p.key) && Good(p.value)) && PackPairs(ps, depth).Some?
    ensures UnpackPairs(PackPairs(ps, depth).value + rest) == Got(ps, rest)
    decreases ps, 1
  {
    hide Pack, Unpack, UnpackPairs;
    if ps == [] {
      NilBack(rest);
    } else {
      var b := PackPairs(ps[1..], depth).value;
      RoundTripPair(ps[0], depth, b + rest);
      RoundTripPairs(ps[1..], depth, rest);
      var k, v := Pack(ps[0].key, depth).value, Pack(ps[0].value, depth).value;
      assert k + v + b + rest == k + (v + (b + rest));
      UnpackMorePairs(k + v + b + rest, ps[0].key, v + (b + rest), ps[0].value, b + rest, ps[1..], rest);
      assert [Pair(ps[0].key, ps[0].value)] + ps[1..] == ps;
    }
  }

  lemma {:induction false} RoundTripPair(p: Pair, depth: nat, rest: Bytes)
    requires Good(p.key) && Good(p.value) && PackPair(p, depth).Some?
    ensures Unpack(Pack(p.key, depth).value + (Pack(p.value, depth).value + rest)) == Got(p.key, Pack(p.value, depth).value + rest)
    ensures Unpack(Pack(p.value, depth).value + rest) == Got(p.value, rest)
    decreases p, 1
  {
    RoundTrip(p.key, depth, Pack(p.value, depth).value + rest);
    RoundTrip(p.value, depth, rest);
  }

  /** How far below a value its deepest part is; an empty table has nothing below it. */
  function Level(v: Value): nat
    decreases v, 0
  {
    match v
    case Table(elems, pairs) => if elems == [] && pairs == [] then 0 else 1 + Max(LevelAll(elems), LevelPairs(pairs))
    case _ => 0
  }

  function Max(a: nat, b: nat): nat { if a < b then b else a }

  function LevelAll(vs: seq<Value>): nat
    decreases vs, 1
  {
    if vs == [] then 0 else Max(Level(vs[0]), LevelAll(vs[1..]))
  }

  function LevelPairs(ps: seq<Pair>): nat
    decreases ps, 1
  {
    if ps == [] then 0 else Max(LevelPair(ps[0]), LevelPairs(ps[1..]))
  }

  function LevelPair(p: Pair): nat
    decreases p, 1
  {
    Max(Level(p.key), Level(p.value))
  }

  /** A value can be written exactly if nothing in it is more than 32 tables deep. */
  lemma {:induction false} PackableExactly(v: Value, depth: nat)
    requires Good(v) && depth <= MAX_DEPTH + 1
    ensures Pack(v, depth).Some? <==> depth + Level(v) <= MAX_DEPTH
    decreases v, 0
  {
    hide PackAll, PackPairs, LevelAll, LevelPairs, PackInteger, PackString, PackTableHead;
    match v
    case Table(elems, pairs) =>
      NoParts(depth + 1);
      if depth <= MAX_DEPTH {
        PackableAll(elems, depth + 1);
        PackablePairs(pairs, depth + 1);
      }
    case _ =>
  }

  lemma NoParts(depth: nat)
    ensures LevelAll([]) == 0 && LevelPairs([]) == 0
  {
  }

  lemma {:induction false} PackableAll(vs: seq<Value>, depth: nat)
    requires (forall v :: v in vs ==> Good(v)) && depth <= MAX_DEPTH + 1
    ensures PackAll(vs, depth).Some? <==> vs == [] || depth + LevelAll(vs) <= MAX_DEPTH
    decreases vs, 1
  {
    hide Pack, Level;
    if vs == [] {
    } else {
      PackableExactly(vs[0], depth);
      PackableAll(vs[1..], depth);
    }
  }

  /** A message can be written exactly if each of its values can. */
  lemma {:induction false} AllPackable(vs: seq<Value>)
    requires forall v :: v in vs ==> Good(v)
    ensures PackAll(vs, 0).Some? <==> forall v :: v in vs ==> Level(v) <= MAX_DEPTH
  {
    hide Pack, Level;
    if vs == [] {
    } else {
      PackableExactly(vs[0], 0);
      AllPackable(vs[1..]);
      assert forall v :: v in vs <==> v == vs[0] || v in vs[1..];
    }
  }

  lemma {:induction false} PackablePairs(ps: seq<Pair>, depth: nat)
    requires (forall p :: p in ps ==> Good(p.key) && Good(p.value)) && depth <= MAX_DEPTH + 1
    ensures PackPairs(ps, depth).Some? <==> ps == [] || depth + LevelPairs(ps) <= MAX_DEPTH
    decreases ps, 1
  {
    hide Pack, Level;
    if ps == [] {
    } else {
      PackablePair(ps[0], depth);
      PackablePairs(ps[1..], depth);
    }
  }

  lemma {:induction false} PackablePair(p: Pair, depth: nat)
    requires Good(p.key) && Good(p.value) && depth <= MAX_DEPTH + 1
    ensures PackPair(p, depth).Some? <==> depth + LevelPair(p) <= MAX_DEPTH
    decreases p, 1
  {
    PackableExactly(p.key, depth);
    PackableExactly(p.value, depth);
  }

  // ------------------------------------------------------------------ several values

  function UnpackTop(s: Bytes): (r: Read<seq<Value>>)
    decreases |s|
  {
    if s == [] then Got([], [])
    else
      var v := Unpack(s);
      if v.Bad? then Bad
      else
        var vs := UnpackTop(v.rest);
        if vs.Bad? then Bad else Got([v.value] + vs.value, [])
  }

  lemma NothingUnpacked()
    ensures Unpack([]) == Bad
  {
  }

  /** A whole message: all its values come back, in order. */
  lemma {:induction false} MessageRoundTrip(vs: seq<Value>)
    requires (forall v :: v in vs ==> Good(v)) && PackAll(vs, 0).Some?
    ensures UnpackTop(PackAll(vs, 0).value) == Got(vs, [])
    decreases |vs|
  {
    hide Pack, Unpack;
    if vs == [] {
    } else {
      var a, b := Pack(vs[0], 0).value, PackAll(vs[1..], 0).value;
      RoundTrip(vs[0], 0, b);
      MessageRoundTrip(vs[1..]);
      NothingUnpacked();
      assert [vs[0]] + vs[1..] == vs;
    }
  }
}
