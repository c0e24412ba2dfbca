/** Blocks written, cursors read. */
module SeriBlocks {
  // Writing a value into a list of blocks of 128 bytes, joining the blocks, and reading values back
  // through a cursor.

  import opened SeriFormat

  const BLOCK_SIZE := 128

  class WriteBlock {
    /** the list of blocks, the current one last */
    var blocks: seq<array<Byte>>
    var len: int
    var ptr: int
    ghost var content: Bytes

    ghost predicate Valid()
      reads this, blocks
    {
      && |blocks| > 0 && 0 <= ptr <= BLOCK_SIZE && len == |content| == BLOCK_SIZE * (|blocks| - 1) + ptr
      && (forall i :: 0 <= i < |blocks| ==> blocks[i].Length == BLOCK_SIZE)
      && (forall i, j :: 0 <= i < j < |blocks| ==> blocks[i] != blocks[j])
      && forall i :: 0 <= i < |blocks| ==> Holds(i)
    }

    ghost function Cells(): set<array<Byte>>
      reads `blocks
    {
      set b | b in blocks
    }

    /** how far block i is filled */
    ghost function Filled(i: nat): int
      reads `blocks, `ptr
    {
      if i + 1 < |blocks| then BLOCK_SIZE else ptr
    }

    ghost predicate Holds(i: nat)
      requires i < |blocks| && blocks[i].Length == BLOCK_SIZE && 0 <= ptr <= BLOCK_SIZE && |content| == BLOCK_SIZE * (|blocks| - 1) + ptr
      reads this, blocks[i]
    {
      blocks[i][..Filled(i)] == content[BLOCK_SIZE * i..BLOCK_SIZE * i + Filled(i)]
    }

    constructor ()
      ensures Valid() && content == [] && fresh(blocks)
    {
      var b := new Byte[BLOCK_SIZE](_ => 0);
      blocks := [b];
      len, ptr := 0, 0;
      content := [];
    }

    /** A new current block. */
    method NextBlock()
      requires Valid() && ptr == BLOCK_SIZE
      modifies this
      ensures Valid() && ptr == 0 && content == old(content)
      ensures fresh(Cells() - old(Cells()))
    {
      ghost var was := blocks;
      var b := new Byte[BLOCK_SIZE](_ => 0);
      blocks := blocks + [b];
      ptr := 0;
      forall i | 0 <= i < |blocks| ensures Holds(i) {
        if i < |was| { assert old(Holds(i)) && blocks[i] == was[i]; }
      }
    }

    /** Copy into the current block what fits there. */
    method Fill(buffer: Bytes)
      requires Valid() && ptr + |buffer| <= BLOCK_SIZE
      modifies this, Cells()
      ensures Valid() && content == old(content) + buffer && blocks == old(blocks) && ptr == old(ptr) + |buffer|
    {
      var current := blocks[|blocks| - 1];
      ghost var last, p, was := |blocks| - 1, ptr, content;
      assert Holds(last);
      CopyBytes(current, ptr, buffer);
      content := content + buffer;
      ptr := ptr + |buffer|;
      len := len + |buffer|;
      LastSlice(was, buffer, last, p);
      assert Holds(last);
      forall i | 0 <= i < last ensures Holds(i) {
        assert old(Holds(i)) && blocks[i] != current;
        FullSlice(was, buffer, i, last);
      }
    }

    /** Append bytes, over as many blocks as it takes. */
    method Push(buffer0: Bytes)
      requires Valid()
      modifies this, Cells()
      ensures Valid() && content == old(content) + buffer0
      ensures fresh(Cells() - old(Cells()))
    {
      var buffer := buffer0;
      if ptr == BLOCK_SIZE { NextBlock(); }
      assert buffer == buffer0;
      while ptr > BLOCK_SIZE - |buffer|
        invariant Valid() && content + buffer == old(content) + buffer0
        invariant fresh(Cells() - old(Cells()))
        invariant ptr < BLOCK_SIZE || buffer == []
        decreases |buffer|
      {
        var copy := BLOCK_SIZE - ptr;
        ghost var whole := buffer;
        Fill(buffer[..copy]);
        buffer := buffer[copy..];
        assert whole == whole[..copy] + buffer;
        NextBlock();
      }
      Fill(buffer);
    }

    /** One array with the bytes of all blocks. */
    method Seri() returns (buffer: array<Byte>)
      requires Valid()
      ensures fresh(buffer) && buffer[..] == content
    {
      buffer := new Byte[len](_ => 0);
      var left, done, b := len, 0, 0;
      while left > 0
        invariant 0 <= left && done + left == len && done == BLOCK_SIZE * b && b <= |blocks|
        invariant buffer[..done] == content[..done]
        decreases left
      {
        var n := if left >= BLOCK_SIZE then BLOCK_SIZE else left;
        assert b < |blocks| && Holds(b) && n <= Filled(b);
        CopyBlock(buffer, done, b, n);
        if left < BLOCK_SIZE {
          assert done + n == len;
          return;
        }
        done := done + BLOCK_SIZE;
        left := left - BLOCK_SIZE;
        b := b + 1;
      }
    }

    method CopyBlock(buffer: array<Byte>, done: nat, b: nat, n: nat)
      requires Valid() && b < |blocks| && done == BLOCK_SIZE * b && n <= Filled(b) && done + n <= buffer.Length && buffer !in blocks
      requires buffer[..done] == content[..done]
      modifies buffer
      ensures buffer[..done + n] == content[..done + n]
    {
      assert Holds(b);
      ghost var block := blocks[b][..Filled(b)];
      for k := 0 to n
        invariant buffer[..done] == content[..done]
        invariant forall j :: done <= j < done + k ==> buffer[j] == content[j]
        modifies buffer
      {
        assert blocks[b][k] == block[k] == content[done + k];
        buffer[done + k] := blocks[b][k];
      }
      forall j | 0 <= j < done + n ensures buffer[j] == content[j] {
        if j < done { assert buffer[..done][j] == content[..done][j]; }
      }
    }

    // ---------------------------------------------------------------- packing

    method PutInteger(v: int)
      requires Valid() && -0x8000_0000_0000_0000 <= v < 0x8000_0000_0000_0000
      modifies this, Cells()
      ensures Valid() && content == old(content) + PackInteger(v)
      ensures fresh(Cells() - old(Cells()))
    {
      hide Valid;
      if v == 0 {
        Push([Combine(TYPE_NUMBER, 0)]);
      } else if !(-0x8000_0000 <= v < 0x8000_0000) {
        Push2([Combine(TYPE_NUMBER, NUMBER_QWORD)], ToBytes(Wrapped(v, 0x1_0000_0000_0000_0000), 8));
      } else if v < 0 {
        Push2([Combine(TYPE_NUMBER, NUMBER_DWORD)], ToBytes(Wrapped(v, 0x1_0000_0000), 4));
      } else if v < 0x100 {
        Push2([Combine(TYPE_NUMBER, NUMBER_BYTE)], ToBytes(v, 1));
      } else if v < 0x1_0000 {
        Push2([Combine(TYPE_NUMBER, NUMBER_WORD)], ToBytes(v, 2));
      } else {
        Push2([Combine(TYPE_NUMBER, NUMBER_DWORD)], ToBytes(v, 4));
      }
    }

    method Push2(a: Bytes, b: Bytes)
      requires Valid()
      modifies this, Cells()
      ensures Valid() && content == old(content) + (a + b)
      ensures fresh(Cells() - old(Cells()))
    {
      Push(a);
      Push(b);
      assert old(content) + a + b == old(content) + (a + b);
    }

    method PutString(s: Bytes)
      requires Valid() && |s| < 0x8000_0000
      modifies this, Cells()
      ensures Valid() && content == old(content) + PackString(s)
      ensures fresh(Cells() - old(Cells()))
    {
      hide Valid, ToBytes;
      if |s| < MAX_COOKIE {
        Push([Combine(TYPE_SHORT_STRING, |s|)]);
        if |s| > 0 { Push(s); }
        assert content == old(content) + ([Combine(TYPE_SHORT_STRING, |s|)] + s);
      } else {
        if |s| < 0x1_0000 {
          Push2([Combine(TYPE_LONG_STRING, 2)], ToBytes(|s|, 2));
        } else {
          Push2([Combine(TYPE_LONG_STRING, 4)], ToBytes(|s|, 4));
        }
        ghost var head := if |s| < 0x1_0000 then [Combine(TYPE_LONG_STRING, 2)] + ToBytes(|s|, 2) else [Combine(TYPE_LONG_STRING, 4)] + ToBytes(|s|, 4);
        Push(s);
        assert content == old(content) + (head + s);
      }
    }

    /** Append a value; false when it is too deep, and then the content does not matter. */
    method PackOne(v: Value, depth: nat) returns (ok: bool)
      requires Valid() && Good(v)
      modifies this, Cells()
      ensures ok == Pack(v, depth).Some?
      ensures ok ==> Valid() && content == old(content) + Pack(v, depth).value
      ensures fresh(Cells() - old(Cells()))
      decreases v, 2
    {
      hide Valid, PackAll, PackPairs, PackInteger, PackString, PackTableHead;
      if depth > MAX_DEPTH { return false; }
      match v {
      case Nil => Push([TYPE_NIL]);
      case Boolean(b) => Push([Combine(TYPE_BOOLEAN, if b then 1 else 0)]);
      case Integer(i) => PutInteger(i);
      case Real(bits) => Push2([Combine(TYPE_NUMBER, NUMBER_REAL)], bits);
      case Pointer(bits) => Push2([TYPE_USERDATA], bits);
      case Str(s) => PutString(s);
      case Table(elems, pairs) =>
        ok := PutTable(v, elems, pairs, depth + 1);
        return;
      }
      ok := true;
    }

    method PutTable(ghost v: Value, elems: seq<Value>, pairs: seq<Pair>, depth: nat) returns (ok: bool)
      requires Valid() && v == Table(elems, pairs) && Good(v)
      modifies this, Cells()
      ensures ok == (PackAll(elems, depth).Some? && PackPairs(pairs, depth).Some?)
      ensures ok ==> Valid() && content == old(content) + (PackTableHead(|elems|) + PackAll(elems, depth).value + PackPairs(pairs, depth).value)
      ensures fresh(Cells() - old(Cells()))
      decreases v, 1
    {
      hide Valid, Pack, PackInteger, PackAll, PackPairs;
      if |elems| >= MAX_COOKIE - 1 {
        Push([Combine(TYPE_TABLE, MAX_COOKIE - 1)]);
        PutInteger(|elems|);
        assert content == old(content) + PackTableHead(|elems|);
      } else {
        Push([Combine(TYPE_TABLE, |elems|)]);
      }
      ok := PutAll(elems, depth);
      if !ok { return; }
      ok := PutPairs(pairs, depth);
      if ok {
        assert content == old(content) + (PackTableHead(|elems|) + PackAll(elems, depth).value + PackPairs(pairs, depth).value);
      }
    }

    method PutAll(vs: seq<Value>, depth: nat) returns (ok: bool)
      requires Valid() && forall v :: v in vs ==> Good(v)
      modifies this, Cells()
      ensures ok == PackAll(vs, depth).Some?
      ensures ok ==> Valid() && content == old(content) + PackAll(vs, depth).value
      ensures fresh(Cells() - old(Cells()))
      decreases vs, 3
    {
      hide Valid, Pack;
      if vs == [] {
        assert content + [] == content;
        return true;
      }
      ok := PackOne(vs[0], depth);
      if !ok { return; }
      ok := PutAll(vs[1..], depth);
      if ok { assert content == old(content) + (Pack(vs[0], depth).value + PackAll(vs[1..], depth).value); }
    }

    method PutPairs(ps: seq<Pair>, depth: nat) returns (ok: bool)
      requires Valid() && forall p :: p in ps ==> Good(p.key) && Good(p.value)
      modifies this, Cells()
      ensures ok == PackPairs(ps, depth).Some?
      ensures ok ==> Valid() && content == old(content) + PackPairs(ps, depth).value
      ensures fresh(Cells() - old(Cells()))
      decreases ps, 3
    {
      hide Valid, Pack;
      if ps == [] {
        Push([TYPE_NIL]);
        return true;
      }
      ok := PutPair(ps[0], depth);
      if !ok { return; }
      ok := PutPairs(ps[1..], depth);
      if ok { assert content == old(content) + (PackPair(ps[0], depth).value + PackPairs(ps[1..], depth).value); }
    }

    method PutPair(p: Pair, depth: nat) returns (ok: bool)
      requires Valid() && Good(p.key) && Good(p.value)
      modifies this, Cells()
      ensures ok == PackPair(p, depth).Some?
      ensures ok ==> Valid() && content == old(content) + PackPair(p, depth).value
      ensures fresh(Cells() - old(Cells()))
      decreases p, 3
    {
      hide Valid, Pack;
      ok := PackOne(p.key, depth);
      if !ok { return; }
      ok := PackOne(p.value, depth);
      if ok { assert content == old(content) + (Pack(p.key, depth).value + Pack(p.value, depth).value); }
    }
  }

  // ------------------------------------------------------------------ reading

  function Joined<T>(a: seq<T>, r: Read<seq<T>>): Read<seq<T>>
  {
    match r
    case Bad => Bad
    case Got(b, rest) => Got(a + b, rest)
  }

  /** memcpy into a block */
  method CopyBytes(block: array<Byte>, p: nat, buffer: Bytes)
    requires p + |buffer| <= block.Length
    modifies block
    ensures block[..p + |buffer|] == old(block[..p]) + buffer
  {
    for k := 0 to |buffer|
      invariant block[..p] == old(block[..p]) && block[p..p + k] == buffer[..k]
    {
      block[p + k] := buffer[k];
      assert block[p..p + k + 1] == block[p..p + k] + [buffer[k]];
    }
    assert block[..p + |buffer|] == block[..p] + block[p..p + |buffer|];
  }

  lemma FullSlice(a: Bytes, b: Bytes, i: nat, last: nat)
    requires i < last && BLOCK_SIZE * last <= |a|
    ensures (a + b)[BLOCK_SIZE * i..BLOCK_SIZE * i + BLOCK_SIZE] == a[BLOCK_SIZE * i..BLOCK_SIZE * i + BLOCK_SIZE]
  {
  }

  lemma LastSlice(a: Bytes, b: Bytes, last: nat, p: nat)
    requires |a| == BLOCK_SIZE * last + p
    ensures (a + b)[BLOCK_SIZE * last..BLOCK_SIZE * last + (p + |b|)] == a[BLOCK_SIZE * last..BLOCK_SIZE * last + p] + b
  {
  }

  lemma JoinMore(a: seq<Value>, s: Bytes, n: nat)
    requires n > 0
    ensures var v := Unpack(s);
            Joined(a, UnpackAll(s, n)) == if v.Bad? then Bad else Joined(a + [v.value], UnpackAll(v.rest, n - 1))
  {
    hide Unpack;
    var v := Unpack(s);
    if v.Got? && UnpackAll(v.rest, n - 1).Got? {
      assert a + ([v.value] + UnpackAll(v.rest, n - 1).value) == a + [v.value] + UnpackAll(v.rest, n - 1).value;
    }
  }

  lemma JoinMorePairs(a: seq<Pair>, s: Bytes)
    ensures var k := Unpack(s);
            Joined(a, UnpackPairs(s)) ==
              (if k.Bad? then Bad
               else if k.value == Nil then Got(a, k.rest)
               else var v := Unpack(k.rest); if v.Bad? then Bad else Joined(a + [Pair(k.value, v.value)], UnpackPairs(v.rest)))
  {
    hide Unpack;
    var k := Unpack(s);
    if k.Got? {
      if k.value == Nil {
        assert a + [] == a;
      } else {
        var v := Unpack(k.rest);
        if v.Got? && UnpackPairs(v.rest).Got? {
          var ps := UnpackPairs(v.rest).value;
          assert a + ([Pair(k.value, v.value)] + ps) == a + [Pair(k.value, v.value)] + ps;
        }
      }
    }
  }

  class ReadBlock {
    const buffer: Bytes
    var len: int
    var ptr: int

    predicate Valid()
      reads this
    {
      0 <= ptr && 0 <= len && ptr + len == |buffer|
    }

    /** the bytes that are not read yet */
    ghost function Left(): Bytes
      requires Valid()
      reads this
    {
      buffer[ptr..]
    }

    constructor (buffer: Bytes)
      ensures Valid() && Left() == buffer
    {
      this.buffer := buffer;
      len, ptr := |buffer|, 0;
    }

    /** The next bytes, if there are enough. */
    method Read(sz: nat) returns (r: Option<Bytes>)
      requires Valid()
      modifies this
      ensures Valid() && len <= old(len)
      ensures var t := Take(old(Left()), sz);
              if t.Bad? then r == None && Left() == old(Left()) else r == Some(t.value) && Left() == t.rest && len == old(len) - sz
    {
      if len < sz { return None; }
      r := Some(buffer[ptr..ptr + sz]);
      assert Left()[..sz] == buffer[ptr..ptr + sz] && Left()[sz..] == buffer[ptr + sz..];
      ptr := ptr + sz;
      len := len - sz;
    }

    method ReadInteger(cookie: nat) returns (r: Option<int>)
      requires Valid()
      modifies this
      ensures Valid() && len <= old(len)
      ensures var t := GetInteger(old(Left()), cookie); if t.Bad? then r == None else r == Some(t.value) && Left() == t.rest
    {
      hide FromBytes;
      if cookie == 0 { return Some(0); }
      if cookie != NUMBER_BYTE && cookie != NUMBER_WORD && cookie != NUMBER_DWORD && cookie != NUMBER_QWORD { return None; }
      var n := if cookie == NUMBER_QWORD then 8 else cookie;
      var pn := Read(n);
      if pn.None? { return None; }
      var x := FromBytes(pn.value);
      r := Some(if cookie == NUMBER_DWORD then Signed(x, 0x1_0000_0000) else if cookie == NUMBER_QWORD then Signed(x, 0x1_0000_0000_0000_0000) else x);
    }

    /** One value; nothing for an invalid stream. */
    method UnpackOne() returns (r: Option<Value>)
      requires Valid()
      modifies this
      ensures Valid() && len <= old(len) && (r.Some? ==> len < old(len))
      ensures var t := Unpack(old(Left())); if t.Bad? then r == None else r == Some(t.value) && Left() == t.rest
      decreases len, 0
    {
      hide PushValue;
      ghost var s := Left();
      var t := Read(1);
      if t.None? { return None; }
      assert t.value[0] == s[0] && Left() == s[1..];
      r := PushOne(t.value[0] % 8, t.value[0] / 8);
    }

    method PushOne(t: nat, cookie: nat) returns (r: Option<Value>)
      requires Valid()
      modifies this
      ensures Valid() && len <= old(len)
      ensures var p := PushValue(old(Left()), t, cookie); if p.Bad? then r == None else r == Some(p.value) && Left() == p.rest
      decreases len, 3
    {
      hide UnpackAll, UnpackPairs, GetInteger, GetSize, FromBytes, Take;
      if t == TYPE_NIL {
        r := Some(Nil);
      } else if t == TYPE_BOOLEAN {
        r := Some(Boolean(cookie != 0));
      } else if t == TYPE_NUMBER {
        if cookie == NUMBER_REAL {
          var b := Read(8);
          r := if b.Some? then Some(Real(b.value)) else None;
        } else {
          var n := ReadInteger(cookie);
          r := if n.Some? then Some(Integer(n.value)) else None;
        }
      } else if t == TYPE_USERDATA {
        var b := Read(8);
        r := if b.Some? then Some(Pointer(b.value)) else None;
      } else if t == TYPE_SHORT_STRING {
        var b := Read(cookie);
        r := if b.Some? then Some(Str(b.value)) else None;
      } else if t == TYPE_LONG_STRING {
        if cookie != 2 && cookie != 4 { return None; }
        var n := Read(cookie);
        if n.None? { return None; }
        var b := Read(FromBytes(n.value));
        r := if b.Some? then Some(Str(b.value)) else None;
      } else if t == TYPE_TABLE {
        r := UnpackTable(cookie);
      } else {
        r := None;
      }
    }

    method UnpackTable(cookie: nat) returns (r: Option<Value>)
      requires Valid()
      modifies this
      ensures Valid() && len <= old(len)
      ensures var p := PushValue(old(Left()), TYPE_TABLE, cookie); if p.Bad? then r == None else r == Some(p.value) && Left() == p.rest
      decreases len, 2
    {
      hide UnpackAll, UnpackPairs, GetSize, Take;
      var size := ReadSize(cookie);
      if size.None? { return None; }
      var elems := ReadAll(size.value);
      if elems.None? { return None; }
      var pairs := ReadPairs();
      if pairs.None? { return None; }
      r := Some(Table(elems.value, pairs.value));
    }

    method ReadSize(cookie: nat) returns (r: Option<nat>)
      requires Valid()
      modifies this
      ensures Valid() && len <= old(len)
      ensures var t := GetSize(old(Left()), cookie); if t.Bad? then r == None else r == Some(t.value) && Left() == t.rest
    {
      hide GetInteger;
      if cookie != MAX_COOKIE - 1 { return Some(cookie); }
      ghost var s := Left();
      var t := Read(1);
      if t.None? { return None; }
      assert t.value[0] == s[0] && Left() == s[1..];
      if t.value[0] % 8 != TYPE_NUMBER || t.value[0] / 8 == NUMBER_REAL { return None; }
      var n := ReadInteger(t.value[0] / 8);
      if n.None? { return None; }
      r := Some(ArraySize(n.value));
    }

    /** the loop over the array part */
    method ReadAll(n: nat) returns (r: Option<seq<Value>>)
      requires Valid()
      modifies this
      ensures Valid() && len <= old(len)
      ensures var t := UnpackAll(old(Left()), n); if t.Bad? then r == None else r == Some(t.value) && Left() == t.rest
      decreases len, 1
    {
      hide Unpack, UnpackAll;
      ghost var s := Left();
      var elems: seq<Value> := [];
      JoinNone(UnpackAll(s, n));
      for i := 0 to n
        invariant Valid() && len <= old(len) && |elems| == i
        invariant Joined(elems, UnpackAll(Left(), n - i)) == UnpackAll(s, n)
      {
        JoinMore(elems, Left(), n - i);
        var v := UnpackOne();
        if v.None? { return None; }
        elems := elems + [v.value];
      }
      NoMore(elems, Left());
      r := Some(elems);
    }

    /** the loop over the pairs, up to a nil */
    method ReadPairs() returns (r: Option<seq<Pair>>)
      requires Valid()
      modifies this
      ensures Valid() && len <= old(len)
      ensures var t := UnpackPairs(old(Left())); if t.Bad? then r == None else r == Some(t.value) && Left() == t.rest
      decreases len, 1
    {
      hide Unpack, UnpackPairs;
      ghost var s := Left();
      var pairs: seq<Pair> := [];
      JoinNone(UnpackPairs(s));
      while true
        invariant Valid() && len <= old(len) && Joined(pairs, UnpackPairs(Left())) == UnpackPairs(s)
        decreases len
      {
        JoinMorePairs(pairs, Left());
        var k := UnpackOne();
        if k.None? { return None; }
        if k.value == Nil { return Some(pairs); }
        var v := UnpackOne();
        if v.None? { return None; }
        pairs := pairs + [Pair(k.value, v.value)];
      }
    }
  }

  lemma JoinNone<T>(r: Read<seq<T>>)
    ensures Joined([], r) == r
  {
    if r.Got? { assert [] + r.value == r.value; }
  }

  lemma NoMore(elems: seq<Value>, s: Bytes)
    ensures Joined(elems, UnpackAll(s, 0)) == Got(elems, s)
  {
    assert elems + [] == elems;
  }

  // ------------------------------------------------------------------ whole messages

  /** luaseri_pack: the values one after the other, in one array */
  method PackMessage(vs: seq<Value>) returns (buffer: array?<Byte>)
    requires forall v :: v in vs ==> Good(v)
    ensures buffer != null <==> PackAll(vs, 0).Some?
    ensures buffer != null ==> fresh(buffer) && buffer[..] == PackAll(vs, 0).value
  {
    hide PackAll;
    var wb := new WriteBlock();
    var ok := wb.PutAll(vs, 0);
    if !ok { return null; }
    assert [] + PackAll(vs, 0).value == PackAll(vs, 0).value;
    buffer := wb.Seri();
  }

  /** luaseri_unpack: values until nothing is left */
  method UnpackMessage(buffer: Bytes) returns (r: Option<seq<Value>>)
    ensures var t := UnpackTop(buffer); if t.Bad? then r == None else r == Some(t.value)
  {
    hide Unpack, UnpackTop;
    var rb := new ReadBlock(buffer);
    var vs: seq<Value> := [];
    JoinNone(UnpackTop(buffer));
    while rb.len > 0
      invariant rb.Valid() && Joined(vs, UnpackTop(rb.Left())) == UnpackTop(buffer)
      decreases rb.len
    {
      JoinTop(vs, rb.Left());
      var v := rb.UnpackOne();
      if v.None? { return None; }
      vs := vs + [v.value];
    }
    assert rb.Left() == [];
    JoinEnd(vs);
    r := Some(vs);
  }

  /** Through the blocks and back: every message that can be packed comes back as it was. */
  method SendMessage(vs: seq<Value>) returns (r: Option<seq<Value>>)
    requires forall v :: v in vs ==> Good(v)
    ensures r == if forall v :: v in vs ==> Level(v) <= MAX_DEPTH then Some(vs) else None
  {
    hide PackAll, UnpackTop, Level;
    AllPackable(vs);
    var buffer := PackMessage(vs);
    if buffer == null { return None; }
    MessageRoundTrip(vs);
    r := UnpackMessage(buffer[..]);
  }

  lemma JoinTop(a: seq<Value>, s: Bytes)
    requires s != []
    ensures var v := Unpack(s); Joined(a, UnpackTop(s)) == if v.Bad? then Bad else Joined(a + [v.value], UnpackTop(v.rest))
  {
    hide Unpack;
    var v := Unpack(s);
    TopRest(s);
    if v.Got? {
      TopRest(v.rest);
      if UnpackTop(v.rest).Got? {
        var vs := UnpackTop(v.rest).value;
        assert a + ([v.value] + vs) == a + [v.value] + vs;
      }
    }
  }

  lemma {:induction false} TopRest(s: Bytes)
    ensures UnpackTop(s).Got? ==> UnpackTop(s).rest == []
  {
    hide Unpack;
  }

  lemma JoinEnd(a: seq<Value>)
    ensures Joined(a, UnpackTop([])) == Got(a, [])
  {
    assert a + [] == a;
  }
}
