/** The shared, read-only form of a table: an array part, and a hash part with exactly as many
    slots as keys, filled in two passes: the keys whose main slots are free, then the others,
    chained. */
module SharedTable {
  datatype Option<T> = None | Some(value: T)

  type Text = seq<bv8>
  type Value = int

  datatype Key = IntKey(i: int) | StrKey(s: Text)
  datatype Entry = Entry(key: Key, value: Value)

  /** A key as a node stores it: an integer, or the index of a string in the table of strings. */
  datatype Ref = IntRef(i: int) | StrRef(index: nat)

  /** A slot; without a value it is empty. */
  datatype Node = Node(ref: Ref, keyhash: nat, next: int, nocolliding: bool, value: Option<Value>)

  function CalcHash(s: Text): bv32
  {
    HashFrom(s, |s|, |s| / 32 + 1, (|s| % 0x1_0000_0000) as bv32)
  }

  /** one character in 'step', from the end */
  function HashFrom(s: Text, l1: nat, step: nat, h: bv32): bv32
    requires l1 <= |s| && step >= 1
    decreases l1
  {
    if l1 < step then h
    else if l1 == 0 then h
    else HashFrom(s, l1 - step, step, Mix(h, s[l1 - 1]))
  }

  function Mix(h: bv32, c: bv8): bv32
  {
    h ^ ((h << 5) + (h >> 2) + c as bv32)
  }

  /** Every character of a short string counts, the last one first. */
  lemma HashShort(c: bv8, d: bv8)
    ensures CalcHash([]) == 0 && CalcHash([c]) == Mix(1, c) && CalcHash([c, d]) == Mix(Mix(2, d), c)
  {
    hide Mix;
    assert 1 as bv32 == 1 && 2 as bv32 == 2;
    assert HashFrom([c], 0, 1, Mix(1, c)) == Mix(1, c);
    assert HashFrom([c, d], 1, 1, Mix(2, d)) == HashFrom([c, d], 0, 1, Mix(Mix(2, d), c)) == Mix(Mix(2, d), c);
  }

  method HashString(str: Text) returns (h: bv32)
    ensures h == CalcHash(str)
  {
    hide Mix;
    h := (|str| % 0x1_0000_0000) as bv32;
    var step := |str| / 32 + 1;
    var l1 := |str|;
    while l1 >= step
      invariant 0 <= l1 <= |str| && HashFrom(str, l1, step, h) == CalcHash(str)
      decreases l1
    {
      h := Mix(h, str[l1 - 1]);
      l1 := l1 - step;
    }
  }

  function Hash(k: Key): nat
  {
    match k
    case IntKey(i) => i % 0x1_0000_0000
    case StrKey(s) => CalcHash(s) as nat
  }

  predicate InArray(k: Key, sizearray: nat)
  {
    k.IntKey? && 0 < k.i <= sizearray
  }

  predicate Distinct(es: seq<Entry>)
  {
    forall i, j :: 0 <= i < j < |es| ==> es[i].key != es[j].key
  }

  /** the keys that do not fit into the array part */
  function HashKeys(es: seq<Entry>, sizearray: nat): set<Key>
  {
    set e | e in es && !InArray(e.key, sizearray) :: e.key
  }

  // ------------------------------------------------------------------ strings

  predicate Named(names: seq<Text>)
  {
    forall i, j :: 0 <= i < j < |names| ==> names[i] != names[j]
  }

  predicate GoodRef(r: Ref, names: seq<Text>)
  {
    r.StrRef? ==> r.index < |names|
  }

  function KeyOf(r: Ref, names: seq<Text>): Key
    requires GoodRef(r, names)
  {
    match r
    case IntRef(i) => IntKey(i)
    case StrRef(index) => StrKey(names[index])
  }

  lemma SameRef(r: Ref, q: Ref, names: seq<Text>)
    requires Named(names) && GoodRef(r, names) && GoodRef(q, names)
    ensures KeyOf(r, names) == KeyOf(q, names) <==> r == q
  {
  }

  // ------------------------------------------------------------------ chains

  /** chains[m] lists the slots that are reached from main slot m, m first; it is empty where no
      key has that main slot. */
  predicate Linked(h: seq<Node>, chains: seq<seq<int>>, names: seq<Text>)
  {
    && |chains| == |h|
    && (forall i :: 0 <= i < |h| && h[i].value.Some? ==> SlotGood(h, chains, names, i))
    && (forall m :: 0 <= m < |h| ==> ChainGood(h, chains[m], m))
  }

  /** a full slot is on the chain of its main slot */
  predicate SlotGood(h: seq<Node>, chains: seq<seq<int>>, names: seq<Text>, i: nat)
    requires i < |h| == |chains|
  {
    GoodRef(h[i].ref, names) && h[i].keyhash == Hash(KeyOf(h[i].ref, names)) && i in chains[h[i].keyhash % |h|]
  }

  predicate ChainGood(h: seq<Node>, c: seq<int>, m: nat)
    requires m < |h|
  {
    && (forall p :: 0 <= p < |c| ==> LinkGood(h, c, m, p))
    && (c != [] ==> c[0] == m && (h[m].nocolliding ==> |c| == 1))
    && (forall p, q :: 0 <= p < q < |c| ==> c[p] != c[q])
  }

  predicate LinkGood(h: seq<Node>, c: seq<int>, m: nat, p: nat)
    requires p < |c| && m < |h|
  {
    && 0 <= c[p] < |h| && h[c[p]].value.Some? && h[c[p]].keyhash % |h| == m
    && h[c[p]].next == (if p + 1 < |c| then c[p + 1] else -1)
    && (p > 0 ==> !h[c[p]].nocolliding)
  }

  /** Where each stored key is. */
  predicate Placed(h: seq<Node>, names: seq<Text>, place: map<Key, int>)
  {
    && (forall k :: k in place ==> 0 <= place[k] < |h| && h[place[k]].value.Some? && GoodRef(h[place[k]].ref, names) && KeyOf(h[place[k]].ref, names) == k)
    && (forall i :: 0 <= i < |h| && h[i].value.Some? ==> GoodRef(h[i].ref, names) && KeyOf(h[i].ref, names) in place && place[KeyOf(h[i].ref, names)] == i)
  }

  /** The main slot of every stored key is taken by a key with that main slot. */
  lemma HeadOfChain(h: seq<Node>, chains: seq<seq<int>>, names: seq<Text>, i: nat)
    requires Linked(h, chains, names) && i < |h| && h[i].value.Some?
    ensures var m := h[i].keyhash % |h|; chains[m] != [] && chains[m][0] == m && h[m].value.Some? && h[m].keyhash % |h| == m
  {
    var m := h[i].keyhash % |h|;
    assert SlotGood(h, chains, names, i) && ChainGood(h, chains[m], m);
    assert LinkGood(h, chains[m], m, 0);
  }

  // ------------------------------------------------------------------ counting

  function Full(h: seq<Node>): set<int>
  {
    set i | 0 <= i < |h| && h[i].value.Some?
  }

  function Range(n: nat): (r: set<int>)
    ensures |r| == n && forall i :: i in r <==> 0 <= i < n
  {
    if n == 0 then {} else Range(n - 1) + {n - 1}
  }

  lemma {:induction false} Within<T>(a: set<T>, b: set<T>)
    requires a <= b
    ensures |a| <= |b| && (|a| == |b| ==> a == b)
    decreases b
  {
    if a == {} {
    } else {
      var x :| x in a;
      Within(a - {x}, b - {x});
      assert a == a - {x} + {x} && b == b - {x} + {x};
    }
  }

  function Slots(place: map<Key, int>, keys: set<Key>): set<int>
    requires keys <= place.Keys
  {
    set k | k in keys :: place[k]
  }

  lemma {:induction false} Injective(place: map<Key, int>, keys: set<Key>)
    requires keys <= place.Keys && forall k, l :: k in keys && l in keys && place[k] == place[l] ==> k == l
    ensures |Slots(place, keys)| == |keys|
    decreases keys
  {
    if keys == {} {
    } else {
      var k :| k in keys;
      Injective(place, keys - {k});
      assert Slots(place, keys) == Slots(place, keys - {k}) + {place[k]};
    }
  }

  /** as many full slots as stored keys */
  lemma PlacedCount(h: seq<Node>, names: seq<Text>, place: map<Key, int>)
    requires Placed(h, names, place)
    ensures |Full(h)| == |place.Keys|
  {
    forall i | i in Full(h) ensures i in Slots(place, place.Keys) {
      assert KeyOf(h[i].ref, names) in place.Keys;
    }
    assert Full(h) == Slots(place, place.Keys);
    Injective(place, place.Keys);
  }

  /** While a key is missing there is an empty slot. */
  lemma RoomLeft(h: seq<Node>, names: seq<Text>, place: map<Key, int>, keys: set<Key>, k: Key)
    requires Placed(h, names, place) && place.Keys <= keys && k in keys && k !in place && |h| == |keys|
    ensures exists i :: 0 <= i < |h| && h[i].value.None?
  {
    PlacedCount(h, names, place);
    Within(place.Keys, keys);
    if Range(|h|) <= Full(h) { Within(Range(|h|), Full(h)); }
    var i :| i in Range(|h|) && i !in Full(h);
    assert h[i].value.None?;
  }

  /** When all keys are stored, every slot is full. */
  lemma NoRoomLeft(h: seq<Node>, names: seq<Text>, place: map<Key, int>)
    requires Placed(h, names, place) && |h| == |place.Keys|
    ensures forall i :: 0 <= i < |h| ==> h[i].value.Some?
  {
    PlacedCount(h, names, place);
    Within(Full(h), Range(|h|));
    forall i | 0 <= i < |h| ensures h[i].value.Some? { assert i in Full(h); }
  }

  // ------------------------------------------------------------------ what the passes do to the slots

  lemma NamesGrow(h: seq<Node>, chains: seq<seq<int>>, names: seq<Text>, more: seq<Text>, place: map<Key, int>)
    requires Linked(h, chains, names) && Placed(h, names, place) && names <= more
    ensures Linked(h, chains, more) && Placed(h, more, place)
  {
    hide Hash;
    forall i | 0 <= i < |h| && h[i].value.Some?
      ensures SlotGood(h, chains, more, i) && KeyOf(h[i].ref, more) == KeyOf(h[i].ref, names)
    {
      assert SlotGood(h, chains, names, i);
    }
  }

  /** first pass: a key takes its main slot */
  function Head(h: seq<Node>, m: nat, ref: Ref, keyhash: nat, v: Value): seq<Node>
    requires m < |h|
  {
    h[m := Node(ref, keyhash, -1, true, Some(v))]
  }

  lemma HeadKeeps(h: seq<Node>, chains: seq<seq<int>>, names: seq<Text>, place: map<Key, int>, m: nat, ref: Ref, v: Value)
    requires Linked(h, chains, names) && Placed(h, names, place) && m < |h| && h[m].value.None?
    requires GoodRef(ref, names) && KeyOf(ref, names) !in place && m == Hash(KeyOf(ref, names)) % |h|
    ensures |chains| == |h| && Linked(Head(h, m, ref, Hash(KeyOf(ref, names)), v), chains[m := [m]], names)
    ensures Placed(Head(h, m, ref, Hash(KeyOf(ref, names)), v), names, place[KeyOf(ref, names) := m])
  {
    hide Hash;
    var h', cs := Head(h, m, ref, Hash(KeyOf(ref, names)), v), chains[m := [m]];
    assert chains[m] == [] by { EmptySlot(h, chains, names, m, m); }
    forall i | 0 <= i < |h'| && h'[i].value.Some? ensures SlotGood(h', cs, names, i) {
      if i != m { assert SlotGood(h, chains, names, i); }
    }
    forall n | 0 <= n < |h'| ensures ChainGood(h', cs[n], n) {
      if n != m {
        assert ChainGood(h, chains[n], n);
        forall p | 0 <= p < |cs[n]| ensures LinkGood(h', cs[n], n, p) {
          assert LinkGood(h, chains[n], n, p);
        }
      }
    }
  }

  /** an empty slot is on no chain, and if it is a main slot, nothing has that main slot */
  lemma EmptySlot(h: seq<Node>, chains: seq<seq<int>>, names: seq<Text>, i: nat, m: nat)
    requires Linked(h, chains, names) && i < |h| && m < |h| && h[i].value.None?
    ensures i !in chains[m] && chains[i] == []
  {
    assert ChainGood(h, chains[m], m) && ChainGood(h, chains[i], i);
    forall p | 0 <= p < |chains[m]| ensures chains[m][p] != i { assert LinkGood(h, chains[m], m, p); }
    assert chains[i] != [] ==> LinkGood(h, chains[i], i, 0);
  }

  /** second pass: a key takes any empty slot n and becomes the second one on its chain */
  function Second(h: seq<Node>, n: nat, m: nat, ref: Ref, keyhash: nat, v: Value): seq<Node>
    requires n < |h| && m < |h|
  {
    h[n := Node(ref, keyhash, h[m].next, false, Some(v))][m := h[m].(next := n, nocolliding := false)]
  }

  function Inserted(c: seq<int>, n: int): seq<int>
    requires c != []
  {
    [c[0], n] + c[1..]
  }

  lemma SecondKeeps(h: seq<Node>, chains: seq<seq<int>>, names: seq<Text>, place: map<Key, int>, n: nat, m: nat, ref: Ref, v: Value)
    requires Linked(h, chains, names) && Placed(h, names, place) && n < |h| && h[n].value.None? && m < |h|
    requires GoodRef(ref, names) && KeyOf(ref, names) !in place && m == Hash(KeyOf(ref, names)) % |h|
    requires h[m].value.Some? && h[m].keyhash % |h| == m
    ensures |chains| == |h| && chains[m] != []
    ensures Linked(Second(h, n, m, ref, Hash(KeyOf(ref, names)), v), chains[m := Inserted(chains[m], n)], names)
    ensures Placed(Second(h, n, m, ref, Hash(KeyOf(ref, names)), v), names, place[KeyOf(ref, names) := n])
  {
    hide Hash;
    HeadOfChain(h, chains, names, m);
    var h', cs := Second(h, n, m, ref, Hash(KeyOf(ref, names)), v), chains[m := Inserted(chains[m], n)];
    forall i | 0 <= i < |h'| && h'[i].value.Some? ensures SlotGood(h', cs, names, i) {
      if i != n { SlotStays(h, chains, names, n, m, i); }
    }
    forall k | 0 <= k < |h'| ensures ChainGood(h', cs[k], k) {
      EmptySlot(h, chains, names, n, k);
      if k == m {
        LongerChain(h, h', chains[m], n, m);
      } else {
        OtherChain(h, h', chains[k], n, m, k);
      }
    }
  }

  lemma SlotStays(h: seq<Node>, chains: seq<seq<int>>, names: seq<Text>, n: nat, m: nat, i: nat)
    requires Linked(h, chains, names) && i < |h| && h[i].value.Some? && m < |h| && chains[m] != []
    ensures SlotGood(h, chains, names, i)
    ensures i in chains[m] ==> i in Inserted(chains[m], n)
  {
    if i in chains[m] {
      var p :| 0 <= p < |chains[m]| && chains[m][p] == i;
      if p > 0 { assert Inserted(chains[m], n)[p + 1] == i; } else { assert Inserted(chains[m], n)[0] == i; }
    }
  }

  lemma OtherChain(h: seq<Node>, h': seq<Node>, c: seq<int>, n: nat, m: nat, k: nat)
    requires k < |h| == |h'| && m < |h| && k != m && ChainGood(h, c, k) && n !in c && h[m].keyhash % |h| == m
    requires forall i :: 0 <= i < |h| && i != n && i != m ==> h'[i] == h[i]
    ensures ChainGood(h', c, k)
  {
    forall p | 0 <= p < |c| ensures LinkGood(h', c, k, p) {
      assert LinkGood(h, c, k, p) && c[p] in c;
    }
  }

  lemma LongerChain(h: seq<Node>, h': seq<Node>, c: seq<int>, n: nat, m: nat)
    requires m < |h| == |h'| && n < |h| && m != n && c != [] && ChainGood(h, c, m) && n !in c
    requires forall i :: 0 <= i < |h| && i != n && i != m ==> h'[i] == h[i]
    requires h'[m] == h[m].(next := n, nocolliding := false)
    requires h'[n].value.Some? && h'[n].keyhash % |h| == m && h'[n].next == h[m].next && !h'[n].nocolliding
    ensures ChainGood(h', Inserted(c, n), m)
  {
    var d := Inserted(c, n);
    assert LinkGood(h, c, m, 0) && c[0] == m;
    assert d[0] == m && d[1] == n && forall p :: 2 <= p < |d| ==> d[p] == c[p - 1];
    forall p | 0 <= p < |d| ensures LinkGood(h', d, m, p) {
      if p >= 2 { assert LinkGood(h, c, m, p - 1) && c[p - 1] in c && c[p - 1] != c[0]; }
    }
    forall p, q | 0 <= p < q < |d| ensures d[p] != d[q] {
      if q >= 2 { assert c[q - 1] in c; }
    }
  }

  // ------------------------------------------------------------------ the table

  /** what is known after the first n entries: the stored keys with their values */
  predicate Stored(h: seq<Node>, place: map<Key, int>, es: seq<Entry>, sizearray: nat)
  {
    && place.Keys <= HashKeys(es, sizearray)
    && forall e :: e in es && !InArray(e.key, sizearray) && e.key in place ==> 0 <= place[e.key] < |h| && h[place[e.key]].value == Some(e.value)
  }

  /** the array part after the first n entries */
  predicate ArrayPart(a: seq<Option<Value>>, es: seq<Entry>, n: nat)
    requires n <= |es|
  {
    forall i :: 0 <= i < |a| ==> Slot(a[i], es, n, IntKey(i + 1))
  }

  predicate Slot(o: Option<Value>, es: seq<Entry>, n: nat, k: Key)
    requires n <= |es|
  {
    && (o.Some? ==> Entry(k, o.value) in es[..n])
    && (o.None? ==> forall j :: 0 <= j < n ==> es[j].key != k)
  }

  /** every key of the first n entries has a taken main slot, or is stored */
  predicate HeadsTaken(h: seq<Node>, es: seq<Entry>, n: nat, sizearray: nat)
    requires n <= |es|
  {
    h != [] ==> forall j :: 0 <= j < n && !InArray(es[j].key, sizearray) ==> Headed(h, es[j].key)
  }

  /** A stored key is at its main slot, unless the second pass has handled it. */
  predicate AtMain(place: map<Key, int>, es: seq<Entry>, n: nat, sizearray: nat, sizehash: nat)
    requires n <= |es|
  {
    sizehash > 0 ==> forall k :: k in place ==> k in HashKeys(es[..n], sizearray) || place[k] == Hash(k) % sizehash
  }

  predicate Headed(h: seq<Node>, k: Key)
    requires h != []
  {
    var m := Hash(k) % |h|; h[m].value.Some? && h[m].keyhash % |h| == m
  }

  lemma {:induction false} CountKeys(es: seq<Entry>, n: nat, sizearray: nat)
    requires Distinct(es) && n < |es|
    ensures HashKeys(es[..n + 1], sizearray) == HashKeys(es[..n], sizearray) + if InArray(es[n].key, sizearray) then {} else {es[n].key}
    ensures es[n].key !in HashKeys(es[..n], sizearray)
  {
    assert es[..n + 1] == es[..n] + [es[n]];
    forall k | k in HashKeys(es[..n], sizearray) ensures k != es[n].key {
      var e :| e in es[..n] && !InArray(e.key, sizearray) && e.key == k;
      var j :| 0 <= j < n && es[j] == e;
    }
  }

  /** countsize: how many slots the hash part needs */
  method CountSize(es: seq<Entry>, sizearray: nat) returns (n: nat)
    requires Distinct(es)
    ensures n == |HashKeys(es, sizearray)|
  {
    n := 0;
    assert HashKeys(es[..0], sizearray) == {};
    for i := 0 to |es|
      invariant n == |HashKeys(es[..i], sizearray)|
    {
      CountKeys(es, i, sizearray);
      n := n + 1;
      if InArray(es[i].key, sizearray) { n := n - 1; }
    }
    assert es[..|es|] == es;
  }

  lemma NothingLinked(h: seq<Node>)
    requires forall i :: 0 <= i < |h| ==> h[i].value.None?
    ensures Linked(h, seq(|h|, _ => []), []) && Placed(h, [], map[])
  {
  }

  class Table {
    const sizearray: nat
    const sizehash: nat
    const part: array<Option<Value>>
    const hash: array<Node>
    var names: seq<Text>
    ghost var chains: seq<seq<int>>
    ghost var place: map<Key, int>

    ghost predicate Linking()
      reads this, part, hash
    {
      && part.Length == sizearray && hash.Length == sizehash && Named(names)
      && Linked(hash[..], chains, names) && Placed(hash[..], names, place)
    }

    /** the finished table: it holds the entries, and no slot is empty */
    ghost predicate Valid(es: seq<Entry>)
      reads this, part, hash
    {
      && Linking() && Distinct(es)
      && place.Keys == HashKeys(es, sizearray) && Stored(hash[..], place, es, sizearray) && ArrayPart(part[..], es, |es|)
      && (forall i :: 0 <= i < sizehash ==> hash[i].value.Some?) && Readable()
    }

    ghost predicate Readable()
      reads this, part, hash
    {
      && part.Length == sizearray && hash.Length == sizehash
      && (forall i :: 0 <= i < sizehash ==> GoodRef(hash[i].ref, names)) && forall k :: k in place ==> 0 <= place[k] < sizehash
    }

    /** Convert a table, given as its entries in the order of an iteration and its border. */
    constructor (es: seq<Entry>, border: nat)
      requires Distinct(es)
      ensures Valid(es) && sizearray == border && sizehash == |HashKeys(es, border)|
    {
      var n := CountSize(es, border);
      sizearray := border;
      sizehash := n;
      part := new Option<Value>[border](_ => None);
      hash := new Node[n](_ => Node(IntRef(0), 0, 0, false, None));
      names := [];
      chains := seq(n, _ => []);
      place := map[];
      new;
      hide Hash, Linked, Placed, Stored, ArrayPart, HeadsTaken, AtMain;
      NothingLinked(hash[..]);
      FillNoColliding(es);
      FillColliding(es);
      Finished(es);
    }

    lemma Finished(es: seq<Entry>)
      requires Linking() && Distinct(es) && sizehash == |HashKeys(es, sizearray)|
      requires place.Keys == HashKeys(es, sizearray) && Stored(hash[..], place, es, sizearray) && ArrayPart(part[..], es, |es|)
      ensures Valid(es)
    {
      hide Hash, Linked, Stored, ArrayPart;
      NoRoomLeft(hash[..], names, place);
      assert forall i :: 0 <= i < sizehash ==> hash[..][i] == hash[i];
    }

    /** The index of a string, which gets a new one at its first occurrence. */
    method StringIndex(s: Text) returns (index: nat)
      requires Linking()
      modifies `names
      ensures Linking() && old(names) <= names && index < |names| && names[index] == s
    {
      index := 0;
      while index < |names|
        invariant index <= |names| && s !in names[..index]
      {
        if names[index] == s { return; }
        index := index + 1;
      }
      NamesGrow(hash[..], chains, names, names + [s], place);
      names := names + [s];
    }

    /** How a key is stored, if it belongs to the hash part. */
    method MakeRef(k: Key) returns (ref: Ref)
      requires Linking()
      modifies `names
      ensures Linking() && old(names) <= names && GoodRef(ref, names) && KeyOf(ref, names) == k
    {
      match k
      case IntKey(i) => ref := IntRef(i);
      case StrKey(s) =>
        var index := StringIndex(s);
        ref := StrRef(index);
    }

    /** First pass: each key whose main slot is free takes it; the array part is filled. */
    method FillNoColliding(es: seq<Entry>)
      requires Linking() && Distinct(es) && sizehash == |HashKeys(es, sizearray)|
      requires place == map[] && forall i :: 0 <= i < sizearray ==> part[i].None?
      modifies this, part, hash
      ensures Linking() && Stored(hash[..], place, es, sizearray) && ArrayPart(part[..], es, |es|)
      ensures HeadsTaken(hash[..], es, |es|, sizearray) && AtMain(place, es, 0, sizearray, sizehash)
    {
      hide Hash, Linked, Placed;
      for n := 0 to |es|
        invariant Linking() && Stored(hash[..], place, es[..n], sizearray) && AtMain(place, es, 0, sizearray, sizehash)
        invariant ArrayPart(part[..], es, n) && HeadsTaken(hash[..], es, n, sizearray)
      {
        FirstPassStep(es, n);
      }
      assert es[..|es|] == es;
    }

    /** one entry of the first pass */
    method FirstPassStep(es: seq<Entry>, n: nat)
      requires Linking() && Distinct(es) && n < |es| && sizehash == |HashKeys(es, sizearray)|
      requires Stored(hash[..], place, es[..n], sizearray) && ArrayPart(part[..], es, n) && HeadsTaken(hash[..], es, n, sizearray)
      requires AtMain(place, es, 0, sizearray, sizehash)
      modifies this, part, hash
      ensures Linking() && Stored(hash[..], place, es[..n + 1], sizearray) && AtMain(place, es, 0, sizearray, sizehash)
      ensures ArrayPart(part[..], es, n + 1) && HeadsTaken(hash[..], es, n + 1, sizearray)
    {
      hide Hash, Linked, Placed, Stored, ArrayPart, AtMain, HashKeys, Headed;
      var e := es[n];
      if InArray(e.key, sizearray) {
        ghost var before := part[..];
        part[e.key.i - 1] := Some(e.value);
        ArrayStep(before, part[..], es, n);
        StoredMore(hash[..], place, es, n, sizearray);
      } else {
        ArrayStep(part[..], part[..], es, n);
        TakeMain(es, n);
      }
    }

    /** a key of the hash part */
    method TakeMain(es: seq<Entry>, n: nat)
      requires Linking() && Distinct(es) && n < |es| && sizehash == |HashKeys(es, sizearray)| && !InArray(es[n].key, sizearray)
      requires Stored(hash[..], place, es[..n], sizearray) && HeadsTaken(hash[..], es, n, sizearray)
      requires AtMain(place, es, 0, sizearray, sizehash)
      modifies `names, `chains, `place, hash
      ensures Linking() && Stored(hash[..], place, es[..n + 1], sizearray) && AtMain(place, es, 0, sizearray, sizehash)
      ensures HeadsTaken(hash[..], es, n + 1, sizearray)
    {
      hide Hash, Linked, Placed, Stored, HashKeys;
      var e := es[n];
      HasSlots(es, n, sizearray);
      var ref := MakeRef(e.key);
      var keyhash := Hash(e.key);
      var m := keyhash % sizehash;
      if hash[m].value.None? {
        HeadStored(hash[..], place, es, n, sizearray, m, ref);
        HeadKeeps(hash[..], chains, names, place, m, ref, e.value);
        ghost var h := hash[..];
        hash[m] := Node(ref, keyhash, -1, true, Some(e.value));
        assert hash[..] == Head(h, m, ref, keyhash, e.value);
        chains := chains[m := [m]];
        place := place[e.key := m];
      } else {
        StoredMore(hash[..], place, es, n, sizearray);
        TakenMain(hash[..], chains, names, place, es, sizearray, m);
      }
    }

    /** Second pass: every key that did not get its main slot takes an empty one. */
    method FillColliding(es: seq<Entry>)
      requires Linking() && Distinct(es) && sizehash == |HashKeys(es, sizearray)|
      requires Stored(hash[..], place, es, sizearray) && HeadsTaken(hash[..], es, |es|, sizearray) && AtMain(place, es, 0, sizearray, sizehash)
      modifies `names, `chains, `place, hash
      ensures Linking() && Stored(hash[..], place, es, sizearray) && place.Keys == HashKeys(es, sizearray)
    {
      hide Hash, Linked, Placed, Stored;
      assert HashKeys(es[..0], sizearray) == {};
      for n := 0 to |es|
        invariant Linking() && Stored(hash[..], place, es, sizearray) && HeadsTaken(hash[..], es, |es|, sizearray)
        invariant HashKeys(es[..n], sizearray) <= place.Keys && AtMain(place, es, n, sizearray, sizehash)
      {
        CountKeys(es, n, sizearray);
        if !InArray(es[n].key, sizearray) { SecondPassStep(es, n); }
      }
      assert es[..|es|] == es;
      StoredKeys(hash[..], place, es, sizearray);
    }

    /** one key of the second pass; the assertion of the source is that an empty slot is found */
    method SecondPassStep(es: seq<Entry>, n: nat)
      requires Linking() && Distinct(es) && n < |es| && !InArray(es[n].key, sizearray) && sizehash == |HashKeys(es, sizearray)|
      requires Stored(hash[..], place, es, sizearray) && HeadsTaken(hash[..], es, |es|, sizearray) && AtMain(place, es, n, sizearray, sizehash)
      modifies `names, `chains, `place, hash
      ensures Linking() && Stored(hash[..], place, es, sizearray) && HeadsTaken(hash[..], es, |es|, sizearray)
      ensures place.Keys == old(place.Keys) + {es[n].key} && AtMain(place, es, n + 1, sizearray, sizehash)
    {
      hide Hash, Linked, Placed, Stored, HeadsTaken, AtMain, HashKeys;
      var e := es[n];
      HasSlots(es, n, sizearray);
      var ref := MakeRef(e.key);
      var keyhash := Hash(e.key);
      var m := keyhash % sizehash;
      MainSlot(hash[..], names, place, es, n, sizearray, ref);
      SecondAtMain(place, es, n, sizearray, sizehash, 0);
      if hash[m].ref != ref {
        StoredKeys(hash[..], place, es, sizearray);
        var i := FindEmpty(es, e.key);
        InsertSecond(es, n, i, m, ref);
      }
    }

    /** link the key in behind the head of its chain */
    method InsertSecond(es: seq<Entry>, n: nat, i: nat, m: nat, ref: Ref)
      requires Linking() && Distinct(es) && n < |es| && !InArray(es[n].key, sizearray)
      requires Stored(hash[..], place, es, sizearray) && HeadsTaken(hash[..], es, |es|, sizearray) && AtMain(place, es, n, sizearray, sizehash)
      requires i < sizehash && hash[i].value.None? && m < sizehash && hash[m].value.Some? && hash[m].keyhash % sizehash == m
      requires m == Hash(es[n].key) % sizehash && GoodRef(ref, names) && KeyOf(ref, names) == es[n].key && es[n].key !in place
      modifies `chains, `place, hash
      ensures Linking() && Stored(hash[..], place, es, sizearray) && HeadsTaken(hash[..], es, |es|, sizearray)
      ensures place.Keys == old(place.Keys) + {es[n].key} && AtMain(place, es, n + 1, sizearray, sizehash)
    {
      hide Hash, Linked, Placed, Stored, HeadsTaken, AtMain, HashKeys;
      var e, keyhash := es[n], Hash(es[n].key);
      ghost var h := hash[..];
      SecondKeeps(h, chains, names, place, i, m, ref, e.value);
      SecondStored(h, place, es, n, sizearray, i, m, ref);
      SecondHeads(h, es, sizearray, i, m, ref, keyhash, e.value);
      SecondAtMain(place, es, n, sizearray, sizehash, i);
      hash[i] := Node(ref, keyhash, hash[m].next, false, Some(e.value));
      hash[m] := hash[m].(next := i, nocolliding := false);
      assert hash[..] == Second(h, i, m, ref, keyhash, e.value);
      chains := chains[m := Inserted(chains[m], i)];
      place := place[e.key := i];
    }

    /** the search for an empty slot */
    method FindEmpty(es: seq<Entry>, k: Key) returns (i: nat)
      requires Linking() && place.Keys <= HashKeys(es, sizearray) && k in HashKeys(es, sizearray) && k !in place
      requires sizehash == |HashKeys(es, sizearray)|
      ensures i < sizehash && hash[i].value.None?
    {
      hide Linked, Hash;
      RoomLeft(hash[..], names, place, HashKeys(es, sizearray), k);
      i := 0;
      while hash[i].value.Some?
        invariant i < sizehash && exists j :: i <= j < sizehash && hash[j].value.None?
        decreases sizehash - i
      {
        i := i + 1;
      }
    }

    /** The slot of a key, or none: the search follows the chain from the key's main slot, which may
        be a slot in the middle of another chain. */
    method LookupKey(es: seq<Entry>, k: Key) returns (r: Option<nat>)
      requires Valid(es)
      ensures r.Some? ==> r.value < sizehash && k in place && place[k] == r.value
      ensures r.None? ==> k !in place
    {
      hide Hash, Linked, Placed, Stored, ArrayPart;
      if sizehash == 0 {
        if k in place { OnChain(hash[..], chains, names, place, k); }
        return None;
      }
      var keyhash := Hash(k);
      var n := keyhash % sizehash;
      if keyhash != hash[n].keyhash && hash[n].nocolliding {
        Lonely(hash[..], chains, names, place, n, k);
        return None;
      }
      ghost var m := hash[n].keyhash % sizehash;
      ghost var p0 := ChainOf(n);
      ghost var c, p := chains[m], p0;
      while true
        invariant p0 <= p < |c| && c[p] == n < sizehash
        invariant forall q :: p0 <= q < p ==> 0 <= c[q] < sizehash && GoodRef(hash[c[q]].ref, names) && KeyOf(hash[c[q]].ref, names) != k
        decreases |c| - p
      {
        ChainStep(hash[..], chains, names, m, p);
        if keyhash == hash[n].keyhash {
          var found := SameKey(hash[n].ref, k);
          if found {
            FoundAt(hash[..], names, place, n);
            return Some(n);
          }
        }
        if hash[n].next < 0 {
          NotOnChain(hash[..], chains, names, place, keyhash % sizehash, p0, c, k);
          return None;
        }
        n := hash[n].next;
        p := p + 1;
      }
    }

    /** the comparison of a node's key: integers as such, strings by their text */
    method SameKey(ref: Ref, k: Key) returns (same: bool)
      requires GoodRef(ref, names)
      ensures same == (KeyOf(ref, names) == k)
    {
      match ref
      case IntRef(i) => same := k.IntKey? && i == k.i;
      case StrRef(index) => same := k.StrKey? && names[index] == k.s;
    }

    /** The value of a key. */
    method Index(es: seq<Entry>, k: Key) returns (v: Option<Value>)
      requires Valid(es)
      ensures v.Some? ==> Entry(k, v.value) in es
      ensures v.None? ==> forall e :: e in es ==> e.key != k
    {
      hide Hash, Linked, Placed;
      if InArray(k, sizearray) {
        v := part[k.i - 1];
        assert Slot(part[..][k.i - 1], es, |es|, IntKey(k.i - 1 + 1));
        assert es[..|es|] == es;
      } else {
        var n := LookupKey(es, k);
        v := if n.Some? then hash[n.value].value else None;
        AllStored(es, k);
      }
    }

    lemma AllStored(es: seq<Entry>, k: Key)
      requires Valid(es) && !InArray(k, sizearray)
      ensures k in place ==> place[k] < sizehash && hash[place[k]].value.Some? && Entry(k, hash[place[k]].value.value) in es
      ensures k !in place ==> forall e :: e in es ==> e.key != k
    {
      hide Hash, Linked, Placed;
      if k in place {
        assert k in HashKeys(es, sizearray);
      } else {
        forall e | e in es ensures e.key != k { assert InArray(e.key, sizearray) || e.key in HashKeys(es, sizearray); }
      }
    }

    /** The key after k in the order of the slots, the first one after no key at all. */
    method NextKey(es: seq<Entry>, k: Option<Key>) returns (r: Option<Key>)
      requires Valid(es)
      ensures r == FirstOf(Rest(k))
    {
      hide Hash, Linked, Stored, ArrayPart, HashOrder;
      if k.None? || InArray(k.value, sizearray) {
        var i := if k.None? then 0 else k.value.i;
        while i < sizearray
          invariant 0 <= i <= sizearray && FirstOf(Rest(k)) == FirstOf(ArrayKeys(part[..], i) + HashOrder(hash[..], names, 0))
        {
          if part[i].Some? { return Some(IntKey(i + 1)); }
          i := i + 1;
        }
        HashFirst(hash[..], names, 0);
        if sizehash != 0 { return Some(PushKey(hash[0].ref)); }
        return None;
      }
      var n := LookupKey(es, k.value);
      if n.None? { return None; }
      HashFirst(hash[..], names, n.value + 1);
      if n.value + 1 == sizehash { return None; }
      return Some(PushKey(hash[n.value + 1].ref));
    }

    function PushKey(ref: Ref): Key
      requires GoodRef(ref, names)
      reads this
    {
      KeyOf(ref, names)
    }

    /** the keys that come after k */
    ghost function Rest(k: Option<Key>): seq<Key>
      requires Readable()
      reads this, part, hash
    {
      match k
      case None => ArrayKeys(part[..], 0) + HashOrder(hash[..], names, 0)
      case Some(key) =>
        if InArray(key, sizearray) then ArrayKeys(part[..], key.i) + HashOrder(hash[..], names, 0)
        else if key in place then HashOrder(hash[..], names, place[key] + 1)
        else []
    }

    /** Following NextKey from the beginning goes through all keys of the table, each one once. */
    lemma Enumerates(es: seq<Entry>)
      requires Valid(es)
      ensures var order := Rest(None);
              && (forall i :: 0 <= i < |order| ==> Rest(Some(order[i])) == order[i + 1..])
              && (forall i, j :: 0 <= i < j < |order| ==> order[i] != order[j])
              && (forall k :: k in order <==> exists e :: e in es && e.key == k)
    {
      hide Hash, Linked, Stored, ArrayPart, ArrayKeys, HashOrder;
      var order := Rest(None);
      var a, h := ArrayKeys(part[..], 0), HashOrder(hash[..], names, 0);
      HashKeysAre(hash[..], names, 0);
      forall i | 0 <= i < |order| ensures Rest(Some(order[i])) == order[i + 1..] {
        if i < |a| {
          ArrayKeysAre(part[..], 0, i);
          assert order[i + 1..] == a[i + 1..] + h;
        } else {
          HashAt(es, i - |a|);
          assert order[i] == h[i - |a|] && order[i + 1..] == h[i - |a| + 1..];
        }
      }
      forall i, j | 0 <= i < j < |order| ensures order[i] != order[j] {
        if i < |a| {
          ArrayKeysAre(part[..], 0, i);
          if j < |a| { ArrayKeysAre(part[..], 0, j); } else { HashAt(es, j - |a|); }
        } else {
          HashAt(es, i - |a|);
          HashAt(es, j - |a|);
        }
      }
      forall k ensures k in order <==> exists e :: e in es && e.key == k { InOrder(es, k); }
    }

    /** the key in slot j */
    lemma HashAt(es: seq<Entry>, j: nat)
      requires Valid(es) && j < sizehash
      ensures |HashOrder(hash[..], names, 0)| == sizehash
      ensures var k := HashOrder(hash[..], names, 0)[j];
              !InArray(k, sizearray) && k in place && place[k] == j && HashOrder(hash[..], names, j + 1) == HashOrder(hash[..], names, 0)[j + 1..]
    {
      hide Hash, Linked, ArrayPart, HashOrder;
      HashKeysAre(hash[..], names, 0);
      HashKeysAre(hash[..], names, j + 1);
      var k := HashOrder(hash[..], names, 0)[j];
      assert k == KeyOf(hash[j].ref, names) && k in HashKeys(es, sizearray);
      var tail := HashOrder(hash[..], names, 0)[j + 1..];
      assert forall q :: 0 <= q < |tail| ==> tail[q] == HashOrder(hash[..], names, j + 1)[q];
    }

    lemma InOrder(es: seq<Entry>, k: Key)
      requires Valid(es)
      ensures k in Rest(None) <==> exists e :: e in es && e.key == k
    {
      hide Hash, Linked, Stored, ArrayKeys, HashOrder;
      var a, h := ArrayKeys(part[..], 0), HashOrder(hash[..], names, 0);
      if InArray(k, sizearray) {
        ArrayHas(part[..], 0, k.i - 1);
        assert Slot(part[..][k.i - 1], es, |es|, IntKey(k.i - 1 + 1)) && es[..|es|] == es;
        forall q | 0 <= q < |h| ensures h[q] != k { HashKeysAre(hash[..], names, 0); HashAt(es, q); }
        if exists e :: e in es && e.key == k {
          var e :| e in es && e.key == k;
          var j :| 0 <= j < |es| && es[j] == e;
        }
      } else {
        forall q | 0 <= q < |a| ensures a[q] != k { ArrayKeysAre(part[..], 0, q); }
        HashKeysAre(hash[..], names, 0);
        if k in place {
          HashAt(es, place[k]);
          assert h[place[k]] == k;
          assert k in HashKeys(es, sizearray);
        } else {
          forall q | 0 <= q < |h| ensures h[q] != k { HashAt(es, q); }
          forall e | e in es ensures e.key != k { assert InArray(e.key, sizearray) || e.key in HashKeys(es, sizearray); }
        }
      }
    }

    /** where on its chain slot n is */
    ghost method ChainOf(n: nat) returns (p: nat)
      requires Linking() && n < sizehash && hash[n].value.Some?
      ensures |chains| == sizehash && p < |chains[hash[n].keyhash % sizehash]| && chains[hash[n].keyhash % sizehash][p] == n
    {
      hide Hash;
      assert SlotGood(hash[..], chains, names, n);
      p :| 0 <= p < |chains[hash[n].keyhash % sizehash]| && chains[hash[n].keyhash % sizehash][p] == n;
    }
  }

  function FirstOf(ks: seq<Key>): Option<Key>
  {
    if ks == [] then None else Some(ks[0])
  }

  /** the keys of the array part from index i on */
  function ArrayKeys(a: seq<Option<Value>>, i: nat): seq<Key>
    requires i <= |a|
    decreases |a| - i
  {
    if i == |a| then [] else (if a[i].Some? then [IntKey(i + 1)] else []) + ArrayKeys(a, i + 1)
  }

  /** the keys of the hash part from slot i on */
  function HashOrder(h: seq<Node>, names: seq<Text>, i: nat): seq<Key>
    requires i <= |h| && forall j :: 0 <= j < |h| ==> GoodRef(h[j].ref, names)
    decreases |h| - i
  {
    if i == |h| then [] else [KeyOf(h[i].ref, names)] + HashOrder(h, names, i + 1)
  }

  lemma HashFirst(h: seq<Node>, names: seq<Text>, i: nat)
    requires i <= |h| && forall j :: 0 <= j < |h| ==> GoodRef(h[j].ref, names)
    ensures FirstOf(HashOrder(h, names, i)) == if i == |h| then None else Some(KeyOf(h[i].ref, names))
  {
  }

  lemma {:induction false} HashKeysAre(h: seq<Node>, names: seq<Text>, i: nat)
    requires i <= |h| && forall j :: 0 <= j < |h| ==> GoodRef(h[j].ref, names)
    ensures |HashOrder(h, names, i)| == |h| - i
    ensures forall q :: 0 <= q < |h| - i ==> HashOrder(h, names, i)[q] == KeyOf(h[i + q].ref, names)
    decreases |h| - i
  {
    if i < |h| {
      HashKeysAre(h, names, i + 1);
      var rest := HashOrder(h, names, i + 1);
      assert HashOrder(h, names, i) == [KeyOf(h[i].ref, names)] + rest;
      forall q | 0 <= q < |h| - i ensures HashOrder(h, names, i)[q] == KeyOf(h[i + q].ref, names) {
        if q > 0 { assert rest[q - 1] == KeyOf(h[i + 1 + (q - 1)].ref, names); }
      }
    }
  }

  /** Entry q of the array order: its key, and that the rest follows. */
  lemma {:induction false} ArrayKeysAre(a: seq<Option<Value>>, i: nat, q: nat)
    requires i <= |a| && q < |ArrayKeys(a, i)|
    ensures var k := ArrayKeys(a, i)[q];
            && k.IntKey? && i < k.i <= |a| && a[k.i - 1].Some? && ArrayKeys(a, k.i) == ArrayKeys(a, i)[q + 1..]
    ensures forall p :: q < p < |ArrayKeys(a, i)| ==> ArrayKeys(a, i)[p] != ArrayKeys(a, i)[q]
    decreases |a| - i
  {
    if a[i].Some? {
      var all, rest := ArrayKeys(a, i), ArrayKeys(a, i + 1);
      assert all == [IntKey(i + 1)] + rest && all[q + 1..] == rest[q..];
      if q > 0 {
        ArrayKeysAre(a, i + 1, q - 1);
      } else {
        forall p | 0 < p < |all| ensures all[p] != IntKey(i + 1) { ArrayKeysAre(a, i + 1, p - 1); }
      }
    } else {
      assert ArrayKeys(a, i) == ArrayKeys(a, i + 1);
      ArrayKeysAre(a, i + 1, q);
    }
  }

  lemma {:induction false} ArrayHas(a: seq<Option<Value>>, i: nat, j: nat)
    requires i <= j < |a|
    ensures IntKey(j + 1) in ArrayKeys(a, i) <==> a[j].Some?
    decreases |a| - i
  {
    if i < j {
      ArrayHas(a, i + 1, j);
    } else {
      var rest := ArrayKeys(a, i + 1);
      forall q | 0 <= q < |rest| ensures rest[q] != IntKey(j + 1) { ArrayKeysAre(a, i + 1, q); }
    }
  }

  // ------------------------------------------------------------------ the steps on values

  lemma HasSlots(es: seq<Entry>, n: nat, sizearray: nat)
    requires n < |es| && !InArray(es[n].key, sizearray)
    ensures es[n].key in HashKeys(es, sizearray) && |HashKeys(es, sizearray)| > 0
  {
    assert es[n] in es;
  }

  lemma ArrayStep(before: seq<Option<Value>>, after: seq<Option<Value>>, es: seq<Entry>, n: nat)
    requires n < |es| && Distinct(es) && ArrayPart(before, es, n) && |after| == |before|
    requires if InArray(es[n].key, |before|) then after == before[es[n].key.i - 1 := Some(es[n].value)] else after == before
    ensures ArrayPart(after, es, n + 1)
  {
    assert es[..n + 1] == es[..n] + [es[n]];
    forall i | 0 <= i < |after| ensures Slot(after[i], es, n + 1, IntKey(i + 1)) {
      assert Slot(before[i], es, n, IntKey(i + 1));
    }
  }

  lemma StoredMore(h: seq<Node>, place: map<Key, int>, es: seq<Entry>, n: nat, sizearray: nat)
    requires n < |es| && Distinct(es) && Stored(h, place, es[..n], sizearray)
    ensures Stored(h, place, es[..n + 1], sizearray)
  {
    CountKeys(es, n, sizearray);
    assert es[..n + 1] == es[..n] + [es[n]];
  }

  lemma HeadStored(h: seq<Node>, place: map<Key, int>, es: seq<Entry>, n: nat, sizearray: nat, m: nat, ref: Ref)
    requires n < |es| && Distinct(es) && Stored(h, place, es[..n], sizearray) && !InArray(es[n].key, sizearray)
    requires m < |h| && h[m].value.None?
    ensures es[n].key !in place
    ensures Stored(Head(h, m, ref, Hash(es[n].key), es[n].value), place[es[n].key := m], es[..n + 1], sizearray)
  {
    hide Hash;
    CountKeys(es, n, sizearray);
    assert es[..n + 1] == es[..n] + [es[n]];
    forall e | e in es[..n] && !InArray(e.key, sizearray) ensures e.key != es[n].key {
      assert e.key in HashKeys(es[..n], sizearray);
    }
  }

  lemma TakenMain(h: seq<Node>, chains: seq<seq<int>>, names: seq<Text>, place: map<Key, int>, es: seq<Entry>, sizearray: nat, m: nat)
    requires Linked(h, chains, names) && Placed(h, names, place) && m < |h| && h[m].value.Some?
    requires AtMain(place, es, 0, sizearray, |h|)
    ensures h[m].keyhash % |h| == m
  {
    hide Hash;
    assert SlotGood(h, chains, names, m);
    var k := KeyOf(h[m].ref, names);
    assert es[..0] == [] && k !in HashKeys(es[..0], sizearray);
    assert k in place && place[k] == m;
  }

  lemma StoredKeys(h: seq<Node>, place: map<Key, int>, es: seq<Entry>, sizearray: nat)
    requires Stored(h, place, es, sizearray)
    ensures place.Keys <= HashKeys(es, sizearray)
  {
  }

  lemma StoredAt(h: seq<Node>, names: seq<Text>, place: map<Key, int>, m: nat, ref: Ref)
    requires Named(names) && Placed(h, names, place) && m < |h| && h[m].value.Some? && GoodRef(ref, names)
    ensures h[m].ref == ref ==> KeyOf(ref, names) in place
    ensures KeyOf(ref, names) in place && place[KeyOf(ref, names)] == m ==> h[m].ref == ref
  {
    assert GoodRef(h[m].ref, names) && KeyOf(h[m].ref, names) in place;
    SameRef(h[m].ref, ref, names);
  }

  lemma SecondStored(h: seq<Node>, place: map<Key, int>, es: seq<Entry>, n: nat, sizearray: nat, i: nat, m: nat, ref: Ref)
    requires n < |es| && Distinct(es) && Stored(h, place, es, sizearray) && !InArray(es[n].key, sizearray) && es[n].key !in place
    requires i < |h| && h[i].value.None? && m < |h| && h[m].value.Some?
    ensures Stored(Second(h, i, m, ref, Hash(es[n].key), es[n].value), place[es[n].key := i], es, sizearray)
  {
    hide Hash;
    assert es[n] in es;
    forall e | e in es && e.key == es[n].key ensures e == es[n] { var j :| 0 <= j < |es| && es[j] == e; }
  }

  lemma SecondHeads(h: seq<Node>, es: seq<Entry>, sizearray: nat, i: nat, m: nat, ref: Ref, keyhash: nat, v: Value)
    requires i < |h| && h[i].value.None? && m < |h| && HeadsTaken(h, es, |es|, sizearray)
    requires h[m].value.Some?
    ensures HeadsTaken(Second(h, i, m, ref, keyhash, v), es, |es|, sizearray)
  {
    hide Hash;
    forall j | 0 <= j < |es| && !InArray(es[j].key, sizearray) ensures Headed(Second(h, i, m, ref, keyhash, v), es[j].key) {
      assert Headed(h, es[j].key);
    }
  }

  lemma SecondAtMain(place: map<Key, int>, es: seq<Entry>, n: nat, sizearray: nat, sizehash: nat, i: int)
    requires n < |es| && Distinct(es) && !InArray(es[n].key, sizearray) && AtMain(place, es, n, sizearray, sizehash)
    ensures AtMain(place[es[n].key := i], es, n + 1, sizearray, sizehash) && AtMain(place, es, n + 1, sizearray, sizehash)
  {
    hide Hash;
    CountKeys(es, n, sizearray);
  }

  /** A stored key is on the chain of its main slot, and that slot is the head of it. */
  lemma OnChain(h: seq<Node>, chains: seq<seq<int>>, names: seq<Text>, place: map<Key, int>, k: Key)
    requires Linked(h, chains, names) && Placed(h, names, place) && k in place
    ensures var m := Hash(k) % |h|;
            && |h| > 0 && chains[m] != [] && chains[m][0] == m && h[m].value.Some? && h[m].keyhash % |h| == m
            && place[k] in chains[m] && h[place[k]].keyhash == Hash(k) && ChainGood(h, chains[m], m)
  {
    hide Hash;
    assert SlotGood(h, chains, names, place[k]);
    HeadOfChain(h, chains, names, place[k]);
  }

  /** a lone main slot of another hash: the key is not there */
  lemma Lonely(h: seq<Node>, chains: seq<seq<int>>, names: seq<Text>, place: map<Key, int>, n: nat, k: Key)
    requires Linked(h, chains, names) && Placed(h, names, place) && n < |h| && n == Hash(k) % |h|
    requires h[n].value.Some? && h[n].nocolliding && h[n].keyhash != Hash(k)
    ensures k !in place
  {
    hide Hash;
    if k in place { OnChain(h, chains, names, place, k); }
  }

  /** A search that has seen the rest of a chain has seen the whole chain of the key, if there is one. */
  lemma NotOnChain(h: seq<Node>, chains: seq<seq<int>>, names: seq<Text>, place: map<Key, int>, m: nat, p0: nat, c: seq<int>, k: Key)
    requires Linked(h, chains, names) && Placed(h, names, place) && m < |h| && m == Hash(k) % |h| && h[m].value.Some?
    requires c == chains[h[m].keyhash % |h|] && p0 < |c| && c[p0] == m
    requires forall q :: p0 <= q < |c| ==> 0 <= c[q] < |h| && GoodRef(h[c[q]].ref, names) && KeyOf(h[c[q]].ref, names) != k
    ensures k !in place
  {
    hide Hash;
    if k in place { OnChain(h, chains, names, place, k); }
  }

  /** what the search sees at one slot of a chain */
  lemma ChainStep(h: seq<Node>, chains: seq<seq<int>>, names: seq<Text>, m: nat, p: nat)
    requires Linked(h, chains, names) && m < |h| && p < |chains[m]|
    ensures var c := chains[m];
            && 0 <= c[p] < |h| && h[c[p]].value.Some? && GoodRef(h[c[p]].ref, names)
            && h[c[p]].keyhash == Hash(KeyOf(h[c[p]].ref, names))
            && h[c[p]].next == (if p + 1 < |c| then c[p + 1] else -1)
            && (p + 1 < |c| ==> 0 <= c[p + 1] < |h|)
  {
    hide Hash;
    var c := chains[m];
    assert LinkGood(h, c, m, p) && SlotGood(h, chains, names, c[p]);
    assert p + 1 < |c| ==> LinkGood(h, c, m, p + 1);
  }

  lemma FoundAt(h: seq<Node>, names: seq<Text>, place: map<Key, int>, n: nat)
    requires Placed(h, names, place) && n < |h| && h[n].value.Some?
    ensures GoodRef(h[n].ref, names) && KeyOf(h[n].ref, names) in place && place[KeyOf(h[n].ref, names)] == n
  {
  }

  /** the main slot of a key in the second pass */
  lemma MainSlot(h: seq<Node>, names: seq<Text>, place: map<Key, int>, es: seq<Entry>, n: nat, sizearray: nat, ref: Ref)
    requires n < |es| && Distinct(es) && !InArray(es[n].key, sizearray) && h != [] && HeadsTaken(h, es, |es|, sizearray)
    requires Named(names) && Placed(h, names, place) && AtMain(place, es, n, sizearray, |h|) && GoodRef(ref, names) && KeyOf(ref, names) == es[n].key
    ensures var m := Hash(es[n].key) % |h|;
            && h[m].value.Some? && h[m].keyhash % |h| == m
            && (h[m].ref == ref ==> es[n].key in place) && (h[m].ref != ref ==> es[n].key !in place)
  {
    hide Hash;
    CountKeys(es, n, sizearray);
    assert Headed(h, es[n].key);
    StoredAt(h, names, place, Hash(es[n].key) % |h|, ref);
  }
}
