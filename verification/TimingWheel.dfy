/** The hierarchical timing wheel. */
module TimingWheel {
  // 256 near lists, four levels of 64 lists, and a 32-bit clock that wraps. The wheel is compared
  // with a plain list of deadlines that never wraps.

  const WRAP := 0x1_0000_0000
  const HALF := 0x8000_0000
  const TIME_NEAR := 256
  const TIME_LEVEL := 64

  datatype Event = Event(handle: int, session: int)
  datatype Node = Node(expire: nat, event: Event)
  datatype Slot = Near(i: nat) | Level(l: nat, i: nat)
  datatype Option<T> = None | Some(value: T)

  predicate GoodSlot(s: Slot)
  {
    match s
    case Near(i) => i < TIME_NEAR
    case Level(l, i) => l < 4 && i < TIME_LEVEL
  }

  /** 1 << (TIME_NEAR_SHIFT + l * TIME_LEVEL_SHIFT) */
  function Unit(l: nat): (u: nat)
    requires l <= 3
    ensures u > 0
  {
    if l == 0 then 0x100 else if l == 1 then 0x4000 else if l == 2 then 0x10_0000 else 0x400_0000
  }

  /** x >> (TIME_NEAR_SHIFT + l * TIME_LEVEL_SHIFT) */
  function Block(x: nat, l: nat): nat
    requires l <= 3
  {
    x / Unit(l)
  }

  /** x | (mask - 1), for a mask that is a power of two */
  function OrLow(x: nat, mask: nat): nat
    requires mask > 0
  {
    x / mask * mask + (mask - 1)
  }

  /** The lowest level whose range a deadline shares with the clock. */
  function LevelOf(expire: nat, time: nat): (l: nat)
    ensures l <= 3
  {
    if Block(expire, 1) == Block(time, 1) then 0
    else if Block(expire, 2) == Block(time, 2) then 1
    else if Block(expire, 3) == Block(time, 3) then 2
    else 3
  }

  /** The list where a node belongs when the clock shows 'time'. */
  function SlotFor(expire: nat, time: nat): (s: Slot)
    ensures GoodSlot(s)
  {
    if Block(expire, 0) == Block(time, 0) then Near(expire % TIME_NEAR)
    else
      var l := LevelOf(expire, time);
      Level(l, Block(expire, l) % TIME_LEVEL)
  }

  lemma OrLowSame(x: nat, y: nat, mask: nat)
    requires mask > 0
    ensures OrLow(x, mask) == OrLow(y, mask) <==> x / mask == y / mask
  {
    var a, b := x / mask, y / mask;
    assert OrLow(x, mask) - OrLow(y, mask) == (a - b) * mask;
  }

  // ------------------------------------------------------------------ deadlines, no wheel

  /** A pending timer: the update that has to dispatch it, counted without wrapping. */
  datatype Timeout = Timeout(deadline: nat, event: Event)

  function Stored(p: Timeout): Node
  {
    Node(p.deadline % WRAP, p.event)
  }

  /** What update number 'now' dispatches, in the order of the list. */
  function Due(ps: seq<Timeout>, now: nat): (es: seq<Event>)
    ensures |es| <= |ps|
  {
    if ps == [] then []
    else
      var p := ps[|ps| - 1];
      Due(ps[..|ps| - 1], now) + if p.deadline == now then [p.event] else []
  }

  /** What it leaves. */
  function Later(ps: seq<Timeout>, now: nat): (r: seq<Timeout>)
    ensures |r| <= |ps|
    ensures forall p :: p in r <==> p in ps && p.deadline != now
  {
    if ps == [] then []
    else
      var p := ps[|ps| - 1];
      Later(ps[..|ps| - 1], now) + if p.deadline != now then [p] else []
  }

  // ------------------------------------------------------------------ canonical form

  /** The nodes of ps that belong in list s, in the order of ps. */
  function Bucket(ps: seq<Timeout>, time: nat, s: Slot): seq<Node>
  {
    if ps == [] then []
    else
      var p := ps[|ps| - 1];
      Bucket(ps[..|ps| - 1], time, s) + if SlotFor(p.deadline % WRAP, time) == s then [Stored(p)] else []
  }

  /** The nodes of a list that go to list s when they are added again. */
  function Resorted(nodes: seq<Node>, time: nat, s: Slot): seq<Node>
  {
    if nodes == [] then []
    else
      var n := nodes[|nodes| - 1];
      Resorted(nodes[..|nodes| - 1], time, s) + if SlotFor(n.expire, time) == s then [n] else []
  }

  lemma BucketSnoc(ps: seq<Timeout>, p: Timeout, time: nat, s: Slot)
    ensures Bucket(ps + [p], time, s) == Bucket(ps, time, s) + if SlotFor(p.deadline % WRAP, time) == s then [Stored(p)] else []
  {
    assert (ps + [p])[..|ps|] == ps;
  }

  lemma ResortedSnoc(nodes: seq<Node>, n: Node, time: nat, s: Slot)
    ensures Resorted(nodes + [n], time, s) == Resorted(nodes, time, s) + if SlotFor(n.expire, time) == s then [n] else []
  {
    assert (nodes + [n])[..|nodes|] == nodes;
  }

  predicate Coming(ps: seq<Timeout>, now: nat)
  {
    forall p :: p in ps ==> now < p.deadline < now + HALF
  }

  predicate Near32(d: nat, now: nat)
  {
    now <= d < now + HALF
  }

  lemma Quotient(x: nat, u: nat, q: nat, r: nat)
    requires u > 0 && x == q * u + r && r < u
    ensures x / u == q && x % u == r
  {
    var d := x / u - q;
    assert d * u == r - x % u;
    assert d > 0 ==> d * u >= u;
    assert d < 0 ==> d * u <= 0 - u;
  }

  lemma Regroup(q: int, u: int, n: int, a: int)
    ensures q * (u * n) + a * u == (q * n + a) * u
  {
  }

  lemma Smaller(a: int, n: int, u: int)
    requires a * u < n * u && u > 0
    ensures a < n
  {
    assert a >= n ==> a * u >= n * u;
  }

  /** The upper digits of a number do not care where the number wraps. */
  lemma WrapBlock(d: nat, u: nat, n: nat)
    requires u > 0 && n > 0
    ensures u * n > 0 && d % (u * n) / u == d / u % n
  {
    var q, e := d / (u * n), d % (u * n);
    var a, r := e / u, e % u;
    Smaller(a, n, u);
    WrapParts(d, u, n, q, a, r);
  }

  lemma WrapParts(d: nat, u: nat, n: nat, q: nat, a: nat, r: nat)
    requires a < n && r < u && d == q * (u * n) + (a * u + r)
    ensures d / u % n == a
  {
    Regroup(q, u, n, a);
    Quotient(d, u, q * n + a, r);
    Quotient(q * n + a, n, q, a);
  }

  lemma WrapDigit(x: nat, k: nat)
    requires k > 0
    ensures x % (64 * k) % 64 == x % 64
  {
    var q, y := x / (64 * k), x % (64 * k);
    var b, c := y / 64, y % 64;
    assert x == (q * k + b) * 64 + c;
    Quotient(x, 64, q * k + b, c);
  }

  lemma WrapSame(x: nat, y: nat, n: nat)
    requires y <= x < y + n
    ensures x % n == y % n <==> x == y
  {
    var k := x / n - y / n;
    if x % n == y % n {
      assert x - y == k * n;
      Smaller(k, 1, n);
      Smaller(-1, k, n);
    }
  }

  lemma BlockWrapped(d: nat, l: nat)
    requires l <= 3
    ensures Block(d % WRAP, l) == Block(d, l) % (WRAP / Unit(l))
    ensures Block(d % WRAP, l) % 64 == Block(d, l) % 64
  {
    if l == 0 {
      WrapBlock(d, 0x100, 0x100_0000);
      WrapDigit(Block(d, l), 0x4_0000);
    } else if l == 1 {
      WrapBlock(d, 0x4000, 0x4_0000);
      WrapDigit(Block(d, l), 0x1000);
    } else if l == 2 {
      WrapBlock(d, 0x10_0000, 0x1000);
      WrapDigit(Block(d, l), 0x40);
    } else {
      WrapBlock(d, 0x400_0000, 0x40);
      WrapDigit(Block(d, l), 1);
    }
  }

  lemma SameBlock(d: nat, now: nat, l: nat)
    requires Near32(d, now) && l <= 3
    ensures Block(d % WRAP, l) == Block(now % WRAP, l) <==> Block(d, l) == Block(now, l)
    ensures Block(d % WRAP, l) % 64 == Block(d, l) % 64
  {
    BlockWrapped(d, l);
    BlockWrapped(now, l);
    Spread(d, now, l);
    WrapSame(Block(d, l), Block(now, l), WRAP / Unit(l));
  }

  lemma Spread(d: nat, now: nat, l: nat)
    requires Near32(d, now) && l <= 3
    ensures Block(now, l) <= Block(d, l) < Block(now, l) + WRAP / Unit(l)
    ensures l == 3 ==> Block(d, l) <= Block(now, l) + 32
  {
  }

  /** For deadlines less than 2^31 ahead, wrapping both numbers does not change the list. */
  lemma SlotUnwrapped(d: nat, now: nat)
    requires Near32(d, now)
    ensures SlotFor(d % WRAP, now % WRAP) == SlotFor(d, now)
  {
    hide Block;
    SameBlock(d, now, 0);
    SameBlock(d, now, 1);
    SameBlock(d, now, 2);
    SameBlock(d, now, 3);
    WrapByte(d);
  }

  lemma WrapByte(d: nat)
    ensures d % WRAP % 0x100 == d % 0x100
  {
  }

  /** Which list the clock has to move when it reaches ct. */
  function Cascade(ct: nat): (m: Option<Slot>)
    ensures m.Some? ==> m.value.Level? && GoodSlot(m.value)
  {
    if ct == 0 then Some(Level(3, 0))
    else if ct % Unit(0) != 0 then None
    else if Block(ct, 0) % TIME_LEVEL != 0 then Some(Level(0, Block(ct, 0) % TIME_LEVEL))
    else if Block(ct, 1) % TIME_LEVEL != 0 then Some(Level(1, Block(ct, 1) % TIME_LEVEL))
    else if Block(ct, 2) % TIME_LEVEL != 0 then Some(Level(2, Block(ct, 2) % TIME_LEVEL))
    else Some(Level(3, Block(ct, 3) % TIME_LEVEL))
  }

  predicate Below(s: Slot, l: nat)
  {
    s.Near? || s.l < l
  }

  /** One tick of the clock: nothing pending is filed below the list that is moved; the nodes of
      that list go to lower lists; everything else is already where it belongs. */
  lemma TickSlot(d: nat, now: nat)
    requires now < d < now + HALF
    ensures var was, after, m := SlotFor(d % WRAP, now % WRAP), SlotFor(d % WRAP, (now + 1) % WRAP), Cascade((now + 1) % WRAP);
            if m.None? then after == was
            else !Below(was, m.value.l) && (if was == m.value then Below(after, m.value.l) else after == was)
  {
    SlotUnwrapped(d, now);
    SlotUnwrapped(d, now + 1);
    CascadeUnwrapped(now + 1);
    TickUnwrapped(d, now);
  }

  /** the same choice, read off the clock that does not wrap */
  function MovedLevel(ct: nat): (l: nat)
    ensures l <= 3
  {
    if Block(ct, 0) % 64 != 0 then 0 else if Block(ct, 1) % 64 != 0 then 1 else if Block(ct, 2) % 64 != 0 then 2 else 3
  }

  lemma CascadeUnwrapped(ct: nat)
    ensures var m, l := Cascade(ct % WRAP), MovedLevel(ct);
            if ct % 0x100 != 0 then m.None? else m == Some(Level(l, Block(ct, l) % 64))
  {
    BlockWrapped(ct, 0);
    BlockWrapped(ct, 1);
    BlockWrapped(ct, 2);
    BlockWrapped(ct, 3);
    WrapByte(ct);
  }

  lemma TickUnwrapped(d: nat, now: nat)
    requires now < d < now + HALF
    ensures var ct := now + 1; var was, after := SlotFor(d, now), SlotFor(d, ct);
            if ct % 0x100 != 0 then after == was
            else
              var l := MovedLevel(ct);
              !Below(was, l) && (if was == Level(l, Block(ct, l) % 64) then Below(after, l) else after == was)
  {
    if (now + 1) % 0x100 == 0 { TickMoves(d, now); } else { TickQuiet(d, now); }
  }

  lemma TickQuiet(d: nat, now: nat)
    requires (now + 1) % 0x100 != 0
    ensures SlotFor(d, now + 1) == SlotFor(d, now)
  {
    hide Block;
    BlockDigits(now);
    BlockDigits(now + 1);
    NextBlock(now);
  }

  lemma TickMoves(d: nat, now: nat)
    requires now < d < now + HALF && (now + 1) % 0x100 == 0
    ensures var ct := now + 1; var was, after, l := SlotFor(d, now), SlotFor(d, ct), MovedLevel(ct);
            !Below(was, l) && (if was == Level(l, Block(ct, l) % 64) then Below(after, l) else after == was)
  {
    hide Block;
    BlockDigits(d);
    BlockDigits(now);
    BlockDigits(now + 1);
    NextBlock(now);
    NextDigit(Block(now, 0));
    NextDigit(Block(now, 1));
    NextDigit(Block(now, 2));
    Spread(d, now + 1, 0);
    Spread(d, now + 1, 3);
  }

  lemma BlockDigits(d: nat)
    ensures Block(d, 1) == Block(d, 0) / 64 && Block(d, 2) == Block(d, 1) / 64 && Block(d, 3) == Block(d, 2) / 64
  {
  }

  lemma NextBlock(now: nat)
    ensures Block(now + 1, 0) == if (now + 1) % 0x100 == 0 then Block(now, 0) + 1 else Block(now, 0)
  {
  }

  lemma NextDigit(x: nat)
    ensures (x + 1) / 64 == if (x + 1) % 64 == 0 then x / 64 + 1 else x / 64
  {
  }

  // ------------------------------------------------------------------ lists after a tick

  /** A cascade keeps every list in canonical form and in the order of ps: lower lists were
      empty and receive their nodes from the moved one, the other lists stay. */
  lemma {:induction false} TickBuckets(ps: seq<Timeout>, now: nat, s: Slot)
    requires Coming(ps, now)
    ensures var time, next, m := now % WRAP, (now + 1) % WRAP, Cascade((now + 1) % WRAP);
            Bucket(ps, next, s) == (if m == Some(s) then [] else Bucket(ps, time, s)) + if m.None? then [] else Resorted(Bucket(ps, time, m.value), next, s)
    ensures var m := Cascade((now + 1) % WRAP);
            m.Some? ==> if Below(s, m.value.l) then Bucket(ps, now % WRAP, s) == []
                        else Resorted(Bucket(ps, now % WRAP, m.value), (now + 1) % WRAP, s) == []
  {
    hide SlotFor, Cascade, Bucket, Resorted;
    var time, next, m := now % WRAP, (now + 1) % WRAP, Cascade((now + 1) % WRAP);
    if ps == [] {
      EmptyLists(time, s);
      EmptyLists(next, s);
      if m.Some? { EmptyLists(time, m.value); }
    } else {
      var n := |ps| - 1;
      var p := ps[n];
      assert p in ps && ps == ps[..n] + [p];
      TickBuckets(ps[..n], now, s);
      TickSlot(p.deadline, now);
      BucketSnoc(ps[..n], p, time, s);
      BucketSnoc(ps[..n], p, next, s);
      if m.Some? {
        BucketSnoc(ps[..n], p, time, m.value);
        ResortedSnoc(Bucket(ps[..n], time, m.value), Stored(p), next, s);
        var kept := if m == Some(s) then [] else Bucket(ps[..n], time, s);
        var moved := Resorted(Bucket(ps[..n], time, m.value), next, s);
        assert kept + moved + [Stored(p)] == kept + (moved + [Stored(p)]);
        assert Bucket(ps[..n], time, m.value) + [] == Bucket(ps[..n], time, m.value);
      }
    }
  }

  lemma EmptyLists(time: nat, s: Slot)
    ensures Bucket([], time, s) == [] && Resorted([], time, s) == []
  {
  }

  predicate Between(ps: seq<Timeout>, now: nat)
  {
    forall p :: p in ps ==> Near32(p.deadline, now)
  }

  function Events(nodes: seq<Node>): (es: seq<Event>)
    ensures |es| == |nodes|
  {
    if nodes == [] then [] else Events(nodes[..|nodes| - 1]) + [nodes[|nodes| - 1].event]
  }

  /** The near list of the current moment holds exactly what is due. */
  lemma {:induction false} DueBucket(ps: seq<Timeout>, now: nat)
    requires Between(ps, now)
    ensures Events(Bucket(ps, now % WRAP, Near(now % TIME_NEAR))) == Due(ps, now)
  {
    hide SlotFor;
    if ps != [] {
      var n := |ps| - 1;
      assert ps[n] in ps;
      DueBucket(ps[..n], now);
      DueSlot(ps[n].deadline, now);
      var b, c := Bucket(ps[..n], now % WRAP, Near(now % TIME_NEAR)), Bucket(ps, now % WRAP, Near(now % TIME_NEAR));
      assert c == b || (c == b + [Stored(ps[n])] && c[..|c| - 1] == b);
    }
  }

  lemma DueSlot(d: nat, now: nat)
    requires Near32(d, now)
    ensures SlotFor(d % WRAP, now % WRAP) == Near(now % TIME_NEAR) <==> d == now
  {
    SlotUnwrapped(d, now);
  }

  /** Clearing that list is the same as dropping what is due. */
  lemma {:induction false} LaterBuckets(ps: seq<Timeout>, now: nat, s: Slot)
    requires Between(ps, now)
    ensures Bucket(Later(ps, now), now % WRAP, s) == if s == Near(now % TIME_NEAR) then [] else Bucket(ps, now % WRAP, s)
  {
    hide SlotFor, Bucket;
    var time := now % WRAP;
    if ps == [] {
      EmptyLists(time, s);
    } else {
      var n := |ps| - 1;
      var p := ps[n];
      assert p in ps && ps == ps[..n] + [p];
      LaterBuckets(ps[..n], now, s);
      DueSlot(p.deadline, now);
      BucketSnoc(ps[..n], p, time, s);
      BucketSnoc(Later(ps[..n], now), p, time, s);
      assert Later(ps[..n], now) + [] == Later(ps[..n], now);
    }
  }

  lemma {:induction false} NothingDue(ps: seq<Timeout>, now: nat)
    requires Coming(ps, now)
    ensures Due(ps, now) == [] && Later(ps, now) == ps
  {
    if ps != [] {
      var n := |ps| - 1;
      assert ps[n] in ps;
      NothingDue(ps[..n], now);
      assert ps == ps[..n] + [ps[n]];
    }
  }

  /** Timers that other threads add while the lock is released. */
  datatype Request = Request(time: nat, event: Event)

  predicate Positive(rs: seq<Request>)
  {
    forall r :: r in rs ==> 0 < r.time < HALF
  }

  function Requested(rs: seq<Request>, now: nat): (ps: seq<Timeout>)
    ensures |ps| == |rs|
  {
    seq(|rs|, (i: nat) requires i < |rs| => Timeout(now + rs[i].time, rs[i].event))
  }

  // ------------------------------------------------------------------ the wheel

  /** The search for the level in add_node, with its mask of 32 bits. */
  method FindLevel(expire: nat, time: nat) returns (i: nat)
    ensures i == LevelOf(expire, time)
  {
    i := 0;
    var mask := TIME_NEAR * TIME_LEVEL;
    while i < 3
      invariant i <= 3 && mask == if i < 3 then Unit(i + 1) else 0
      invariant forall j :: 1 <= j <= i ==> Block(expire, j) != Block(time, j)
    {
      OrLowSame(expire, time, mask);
      if OrLow(expire, mask) == OrLow(time, mask) { break; }
      mask := mask * TIME_LEVEL % WRAP;
      i := i + 1;
    }
  }

  lemma ResortedNext(was: seq<Node>, nodes: seq<Node>, k: nat, time: nat, s: Slot)
    requires k < |nodes|
    ensures was + Resorted(nodes[..k + 1], time, s) ==
            was + Resorted(nodes[..k], time, s) + if s == SlotFor(nodes[k].expire, time) then [nodes[k]] else []
  {
    hide SlotFor, Resorted;
    assert nodes[..k + 1] == nodes[..k] + [nodes[k]];
    ResortedSnoc(nodes[..k], nodes[k], time, s);
  }

  class Wheel {
    const near: array<seq<Node>>
    const t: array2<seq<Node>>
    var time: nat
    /** the clock without wrapping, and the pending timers in the order they were added */
    ghost var now: nat
    ghost var pending: seq<Timeout>

    predicate Shape()
    {
      near.Length == TIME_NEAR && t.Length0 == 4 && t.Length1 == TIME_LEVEL
    }

    function Get(s: Slot): seq<Node>
      requires Shape() && GoodSlot(s)
      reads near, t
    {
      match s
      case Near(i) => near[i]
      case Level(l, i) => t[l, i]
    }

    /** Every node sits in the list that AddNode would choose for it now, in adding order. */
    ghost predicate Canonical()
      reads this, near, t
    {
      && Shape() && time == now % WRAP
      && forall s :: GoodSlot(s) ==> Get(s) == Bucket(pending, time, s)
    }

    ghost predicate Valid()
      reads this, near, t
    {
      Canonical() && Coming(pending, now)
    }

    constructor (start: nat)
      ensures Valid() && now == start && pending == [] && fresh(near) && fresh(t)
    {
      near := new seq<Node>[TIME_NEAR](_ => []);
      t := new seq<Node>[4, TIME_LEVEL]((_, _) => []);
      time := start % WRAP;
      now := start;
      pending := [];
    }

    /** Append one node to the list that its deadline and the clock select. */
    method AddNode(node: Node)
      requires Shape() && time < WRAP && node.expire < WRAP
      modifies near, t
      ensures var to := SlotFor(node.expire, time);
              forall s :: GoodSlot(s) ==> Get(s) == old(Get(s)) + if s == to then [node] else []
    {
      OrLowSame(node.expire, time, TIME_NEAR);
      if OrLow(node.expire, TIME_NEAR) == OrLow(time, TIME_NEAR) {
        near[node.expire % TIME_NEAR] := near[node.expire % TIME_NEAR] + [node];
      } else {
        var i := FindLevel(node.expire, time);
        var idx := Block(node.expire, i) % TIME_LEVEL;
        t[i, idx] := t[i, idx] + [node];
      }
    }

    /** Start a timer. */
    method TimerAdd(after: nat, event: Event)
      requires Valid() && 0 < after < HALF
      modifies near, t, `pending
      ensures Valid() && pending == old(pending) + [Timeout(now + after, event)]
    {
      hide SlotFor, Bucket;
      var node := Node((after + time) % WRAP, event);
      WrapSum(now, after);
      ghost var p := Timeout(now + after, event);
      AddNode(node);
      forall s | GoodSlot(s)
        ensures Get(s) == Bucket(pending + [p], time, s)
      {
        BucketSnoc(pending, p, time, s);
      }
      pending := pending + [p];
    }

    /** Detach a list and add its nodes again. */
    method MoveList(level: nat, idx: nat)
      requires Shape() && level < 4 && idx < TIME_LEVEL && time < WRAP
      requires forall n :: n in Get(Level(level, idx)) ==> n.expire < WRAP
      modifies near, t
      ensures forall s :: GoodSlot(s) ==>
        Get(s) == (if s == Level(level, idx) then [] else old(Get(s))) + Resorted(old(Get(Level(level, idx))), time, s)
    {
      hide SlotFor, Resorted;
      var current := t[level, idx];
      t[level, idx] := [];
      label cleared:
      forall s { EmptyLists(time, s); }
      for k := 0 to |current|
        invariant forall s :: GoodSlot(s) ==> Get(s) == old@cleared(Get(s)) + Resorted(current[..k], time, s)
      {
        label before:
        AddNode(current[k]);
        forall s | GoodSlot(s) ensures Get(s) == old@cleared(Get(s)) + Resorted(current[..k + 1], time, s) {
          ResortedNext(old@cleared(Get(s)), current, k, time, s);
        }
      }
      assert current[..|current|] == current;
    }

    /** Advance the clock, and move the list whose turn has come. */
    method TimerShift()
      requires Valid()
      modifies this, near, t
      ensures Canonical() && Between(pending, now) && now == old(now) + 1 && pending == old(pending)
    {
      hide SlotFor, Bucket, Resorted;
      var mask := TIME_NEAR;
      time := (time + 1) % WRAP;
      now := now + 1;
      ghost var was := old(now) % WRAP;
      WrapSum(old(now), 1);
      ghost var m := Cascade(time);
      forall s | GoodSlot(s)
        ensures Bucket(pending, time, s) == (if m == Some(s) then [] else old(Get(s))) + if m.None? then [] else Resorted(old(Get(m.value)), time, s)
      {
        TickBuckets(pending, old(now), s);
      }
      forall s | GoodSlot(s)
        ensures forall n :: n in old(Get(s)) ==> n.expire < WRAP
      {
        BucketExpire(pending, was, s);
      }
      var ct := time;
      if ct == 0 {
        MoveList(3, 0);
      } else {
        var left := ct / TIME_NEAR;
        var i := 0;
        while ct % mask == 0
          invariant 0 <= i <= 3 && mask == Unit(i) && left == Block(ct, i)
          invariant forall j :: 0 <= j < i ==> ct % Unit(j) == 0 && Block(ct, j) % TIME_LEVEL == 0
          invariant i > 0 ==> ct % mask == 0
          invariant time == ct && now == old(now) + 1 && pending == old(pending)
          invariant forall s :: GoodSlot(s) ==> Get(s) == old(Get(s))
          decreases 4 - i
        {
          var idx := left % TIME_LEVEL;
          CascadeAt(ct, i);
          if idx != 0 {
            MoveList(i, idx);
            break;
          }
          mask := mask * TIME_LEVEL;
          left := left / TIME_LEVEL;
          i := i + 1;
        }
      }
    }

    /** Dispatch what is due now. The lock is released while a list is dispatched, and other
        threads may then add the timers in 'waiting'; the loop looks at the list again. */
    method TimerExecute(waiting: seq<Request>) returns (fired: seq<Event>, left: seq<Request>)
      requires Canonical() && Between(pending, now) && Positive(waiting)
      modifies near, t, `pending
      ensures Valid() && fired == Due(old(pending), now)
      ensures left == (if fired == [] then waiting else [])
      ensures pending == Later(old(pending), now) + if fired == [] then [] else Requested(waiting, now)
    {
      hide Canonical, Due, Later, Events;
      fired, left := [], waiting;
      var idx := time % TIME_NEAR;
      NearNow();
      NothingDueEmpty(pending, now);
      while near[idx] != []
        invariant Shape() && idx == time % TIME_NEAR
        invariant fired == [] ==> left == waiting && pending == old(pending) && Canonical()
        invariant fired == [] && near[idx] == [] ==> Due(pending, now) == []
        invariant fired != [] ==> Valid() && near[idx] == [] && left == []
        invariant fired != [] ==> fired == Due(old(pending), now) && pending == Later(old(pending), now) + Requested(waiting, now)
        decreases if fired == [] then 1 else 0
      {
        var current := ClearNow(idx);
        var out := DispatchList(current);
        fired := fired + out;
        AddAll(left);
        left := [];
        NearNow();
        NothingDue(pending, now);
      }
    }

    /** What the list of the current moment has to do with the deadlines. */
    lemma NearNow()
      requires Canonical() && Between(pending, now)
      ensures Shape() && Events(near[time % TIME_NEAR]) == Due(pending, now)
    {
      hide SlotFor, Bucket;
      WrapByte(now);
      DueBucket(pending, now);
      assert Get(Near(time % TIME_NEAR)) == near[time % TIME_NEAR];
    }

    /** Detach that list. */
    method ClearNow(idx: nat) returns (current: seq<Node>)
      requires Canonical() && Between(pending, now) && idx == time % TIME_NEAR
      modifies near, `pending
      ensures Valid() && current == old(near[idx]) && Events(current) == Due(old(pending), now)
      ensures pending == Later(old(pending), now)
    {
      hide SlotFor, Bucket, Due, Later;
      NearNow();
      WrapByte(now);
      LaterComing(pending, now);
      forall s | GoodSlot(s)
        ensures Bucket(Later(pending, now), time, s) == if s == Near(idx) then [] else old(Get(s))
      {
        LaterBuckets(pending, now, s);
      }
      current := near[idx];
      near[idx] := [];
      pending := Later(pending, now);
    }

    /** The other threads' calls of TimerAdd. */
    method AddAll(requests: seq<Request>)
      requires Valid() && Positive(requests)
      modifies near, t, `pending
      ensures Valid() && pending == old(pending) + Requested(requests, now)
    {
      hide Canonical;
      for k := 0 to |requests|
        invariant Valid() && pending == old(pending) + Requested(requests[..k], now)
      {
        TimerAdd(requests[k].time, requests[k].event);
        assert requests[..k + 1] == requests[..k] + [requests[k]];
      }
      assert requests[..|requests|] == requests;
    }

    /** One tick. Exactly the timers whose deadline is this tick are dispatched, in the order
        they were added; the look at the list before the clock advances never finds any. */
    method TimerUpdate(waiting: seq<Request>) returns (fired: seq<Event>, left: seq<Request>)
      requires Valid() && Positive(waiting)
      modifies this, near, t
      ensures Valid() && now == old(now) + 1 && fired == Due(old(pending), now)
      ensures left == (if fired == [] then waiting else [])
      ensures pending == Later(old(pending), now) + if fired == [] then [] else Requested(waiting, now)
    {
      hide Canonical, Due, Later;
      NothingDue(pending, now);
      var early, rest := TimerExecute(waiting);
      assert early == [] && rest == waiting && pending == old(pending);
      TimerShift();
      fired, left := TimerExecute(rest);
      assert early + fired == fired;
      fired := early + fired;
    }

    /** A request for a timeout: at once when the time is not positive. The message for a
        dead service cannot be delivered. */
    method RequestTimeout(handle: int, after: int, session: int, alive: bool) returns (r: int, sent: Option<Event>)
      requires Valid() && after < HALF
      modifies near, t, `pending
      ensures Valid()
      ensures after <= 0 ==> pending == old(pending) && sent == Some(Event(handle, session)) && r == (if alive then session else -1)
      ensures after > 0 ==> pending == old(pending) + [Timeout(now + after, Event(handle, session))] && sent == None && r == session
    {
      sent := None;
      if after <= 0 {
        sent := Some(Event(handle, session));
        if !alive { return -1, sent; }
      } else {
        TimerAdd(after, Event(handle, session));
      }
      r := session;
    }
  }

  method DispatchList(nodes: seq<Node>) returns (out: seq<Event>)
    ensures out == Events(nodes)
  {
    out := [];
    for k := 0 to |nodes|
      invariant out == Events(nodes[..k])
    {
      assert nodes[..k + 1][..k] == nodes[..k];
      out := out + [nodes[k].event];
    }
    assert nodes[..|nodes|] == nodes;
  }

  lemma LaterComing(ps: seq<Timeout>, now: nat)
    requires Between(ps, now)
    ensures Coming(Later(ps, now), now)
  {
  }

  lemma DueSnoc(ps: seq<Timeout>, p: Timeout, now: nat)
    ensures Due(ps + [p], now) == Due(ps, now) + if p.deadline == now then [p.event] else []
    ensures Later(ps + [p], now) == Later(ps, now) + if p.deadline != now then [p] else []
  {
    assert (ps + [p])[..|ps|] == ps;
  }

  lemma {:induction false} NothingDueEmpty(ps: seq<Timeout>, now: nat)
    ensures Due(ps, now) == [] ==> Later(ps, now) == ps
  {
    hide Due, Later;
    if ps != [] {
      var front, p := ps[..|ps| - 1], ps[|ps| - 1];
      assert ps == front + [p];
      DueSnoc(front, p, now);
      NothingDueEmpty(front, now);
    }
  }

  lemma WrapSum(now: nat, x: nat)
    ensures (x + now % WRAP) % WRAP == (now + x) % WRAP
  {
  }

  lemma {:induction false} BucketExpire(ps: seq<Timeout>, time: nat, s: Slot)
    ensures forall n :: n in Bucket(ps, time, s) ==> n.expire < WRAP
  {
    hide SlotFor;
    if ps != [] { BucketExpire(ps[..|ps| - 1], time, s); }
  }

  /** When all lower digits of the clock are zero, digit i decides. */
  lemma CascadeAt(ct: nat, i: nat)
    requires 0 < ct < WRAP && i <= 3 && ct % Unit(i) == 0
    requires forall j :: 0 <= j < i ==> ct % Unit(j) == 0 && Block(ct, j) % TIME_LEVEL == 0
    ensures Block(ct, i) % TIME_LEVEL != 0 ==> Cascade(ct) == Some(Level(i, Block(ct, i) % TIME_LEVEL))
    ensures Block(ct, i) % TIME_LEVEL == 0 ==> i < 3 && ct % Unit(i + 1) == 0 && Block(ct, i) / TIME_LEVEL == Block(ct, i + 1)
  {
    BlockDigits(ct);
  }

  // ------------------------------------------------------------------ whole runs

  /** What happens to the wheel, one call after the other. During an update other threads wait to
      add timers; they get the lock while a list is dispatched, or else after the update. */
  datatype Op = Add(time: nat, event: Event) | Update(waiting: seq<Request>)

  datatype Clock = Clock(now: nat, pending: seq<Timeout>)

  predicate GoodOp(op: Op)
  {
    match op
    case Add(time, _) => 0 < time < HALF
    case Update(waiting) => Positive(waiting)
  }

  predicate GoodRun(ops: seq<Op>)
  {
    forall op :: op in ops ==> GoodOp(op)
  }

  function Updates(ops: seq<Op>): nat
  {
    if ops == [] then 0 else Updates(ops[..|ops| - 1]) + if ops[|ops| - 1].Update? then 1 else 0
  }

  /** what an operation adds when the clock shows 'now' at its end */
  function Adds(op: Op, now: nat): seq<Timeout>
  {
    match op
    case Add(time, event) => [Timeout(now + time, event)]
    case Update(waiting) => Requested(waiting, now)
  }

  /** the state after one more operation */
  function Next(c: Clock, op: Op): Clock
  {
    match op
    case Add(_, _) => Clock(c.now, c.pending + Adds(op, c.now))
    case Update(_) => Clock(c.now + 1, Later(c.pending, c.now + 1) + Adds(op, c.now + 1))
  }

  /** The state after a run that starts at 'start'. */
  function After(start: nat, ops: seq<Op>): Clock
  {
    if ops == [] then Clock(start, []) else Next(After(start, ops[..|ops| - 1]), ops[|ops| - 1])
  }

  /** What each update of the run dispatches. */
  function Fires(start: nat, ops: seq<Op>): seq<seq<Event>>
  {
    if ops == [] then []
    else
      var c := After(start, ops[..|ops| - 1]);
      var before := Fires(start, ops[..|ops| - 1]);
      if ops[|ops| - 1].Add? then before else before + [Due(c.pending, c.now + 1)]
  }

  /** Every timer of the run with its deadline, in adding order. */
  function Added(start: nat, ops: seq<Op>): seq<Timeout>
  {
    if ops == [] then [] else Added(start, ops[..|ops| - 1]) + Adds(ops[|ops| - 1], start + Updates(ops))
  }

  /** A run of calls on one wheel, from any start of its clock: update number k dispatches exactly
      the timers, of all that were added at whatever time by whomever, whose deadline is k. */
  method PlayRun(start: nat, ops: seq<Op>) returns (fires: seq<seq<Event>>)
    requires GoodRun(ops)
    ensures fires == Fires(start, ops) && |fires| == Updates(ops)
    ensures forall k :: 0 <= k < Updates(ops) ==> fires[k] == Due(Added(start, ops), start + k + 1)
  {
    hide Due, Later, Added, Fires, After, Next, Updates;
    var w := new Wheel(start);
    fires := [];
    NoOps(start);
    for k := 0 to |ops|
      invariant w.Valid() && Clock(w.now, w.pending) == After(start, ops[..k]) && fires == Fires(start, ops[..k])
      invariant fresh(w) && fresh(w.near) && fresh(w.t)
    {
      OneMore(start, ops, k);
      var fired := Play(w, ops[k]);
      if ops[k].Update? { fires := fires + [fired]; }
    }
    assert ops[..|ops|] == ops;
    FiresAtDeadline(start, ops);
  }

  /** One operation on the wheel. */
  method Play(w: Wheel, op: Op) returns (fired: seq<Event>)
    requires w.Valid() && GoodOp(op)
    modifies w, w.near, w.t
    ensures w.Valid() && Clock(w.now, w.pending) == Next(Clock(old(w.now), old(w.pending)), op)
    ensures op.Update? ==> fired == Due(old(w.pending), old(w.now) + 1)
  {
    hide Due, Later, w.Valid;
    fired := [];
    match op
    case Add(time, event) => w.TimerAdd(time, event);
    case Update(waiting) =>
      var left;
      fired, left := w.TimerUpdate(waiting);
      ghost var between := w.pending;
      w.AddAll(left);
      assert left == [] ==> Requested(left, w.now) == [] && between + [] == between;
      assert left != [] ==> between == Later(old(w.pending), w.now);
      assert Later(old(w.pending), w.now) + [] == Later(old(w.pending), w.now);
  }

  lemma NoOps(start: nat)
    ensures After(start, []) == Clock(start, []) && Fires(start, []) == []
  {
  }

  lemma OneMore(start: nat, ops: seq<Op>, k: nat)
    requires k < |ops|
    ensures var c, op := After(start, ops[..k]), ops[k];
            && op in ops && After(start, ops[..k + 1]) == Next(c, op)
            && Fires(start, ops[..k + 1]) == if op.Add? then Fires(start, ops[..k]) else Fires(start, ops[..k]) + [Due(c.pending, c.now + 1)]
  {
    hide Due, Next;
    assert ops[..k + 1][..k] == ops[..k];
  }

  lemma {:induction false} DueAppend(ps: seq<Timeout>, qs: seq<Timeout>, now: nat)
    ensures Due(ps + qs, now) == Due(ps, now) + Due(qs, now)
  {
    if qs == [] {
      assert ps + qs == ps;
    } else {
      var n := |qs| - 1;
      assert (ps + qs)[..|ps| + n] == ps + qs[..n];
      DueAppend(ps, qs[..n], now);
    }
  }

  /** Filters for different moments do not disturb each other. */
  lemma {:induction false} DueLater(ps: seq<Timeout>, now: nat, other: nat)
    requires now != other
    ensures Due(Later(ps, now), other) == Due(ps, other)
  {
    if ps != [] {
      var n := |ps| - 1;
      DueLater(ps[..n], now, other);
      DueAppend(Later(ps[..n], now), [ps[n]], other);
      assert Later(ps[..n], now) + [] == Later(ps[..n], now);
    }
  }

  /** The state of a run remembers of every later moment all that was added for it. */
  lemma {:induction false} Remembered(start: nat, ops: seq<Op>, k: nat)
    requires k > start + Updates(ops)
    ensures After(start, ops).now == start + Updates(ops)
    ensures Due(After(start, ops).pending, k) == Due(Added(start, ops), k)
  {
    hide Due, Later, Adds;
    if ops != [] {
      var before, op := ops[..|ops| - 1], ops[|ops| - 1];
      var c := After(start, before);
      Remembered(start, before, k);
      var now := start + Updates(ops);
      DueAppend(Added(start, before), Adds(op, now), k);
      if op.Add? {
        DueAppend(c.pending, Adds(op, now), k);
      } else {
        DueAppend(Later(c.pending, now), Adds(op, now), k);
        DueLater(c.pending, now, k);
      }
    }
  }

  /** Timers added later are never due in the past. */
  lemma {:induction false} NotRetroactive(start: nat, ops: seq<Op>, op: Op, k: nat)
    requires GoodOp(op) && k <= start + Updates(ops)
    ensures Due(Added(start, ops + [op]), k) == Due(Added(start, ops), k)
  {
    hide Due, Adds;
    assert (ops + [op])[..|ops|] == ops;
    var now := start + Updates(ops + [op]);
    DueAppend(Added(start, ops), Adds(op, now), k);
    AddsLater(op, now);
    NoneDue(Adds(op, now), k);
  }

  /** what is added now is due later */
  lemma AddsLater(op: Op, now: nat)
    requires GoodOp(op)
    ensures forall p :: p in Adds(op, now) ==> p.deadline > now
  {
  }

  lemma {:induction false} NoneDue(ps: seq<Timeout>, k: nat)
    requires forall p :: p in ps ==> p.deadline != k
    ensures Due(ps, k) == []
  {
    if ps != [] {
      assert ps[|ps| - 1] in ps;
      NoneDue(ps[..|ps| - 1], k);
    }
  }

  /** Over a whole run update number k dispatches exactly the timers whose deadline is k, no
      matter how adding and updating were interleaved, and in the order they were added. */
  lemma {:induction false} FiresAtDeadline(start: nat, ops: seq<Op>)
    requires GoodRun(ops)
    ensures |Fires(start, ops)| == Updates(ops)
    ensures forall k :: 0 <= k < Updates(ops) ==> Fires(start, ops)[k] == Due(Added(start, ops), start + k + 1)
  {
    hide Due, Later, Added, GoodOp, Next, After;
    if ops != [] {
      var before, op := ops[..|ops| - 1], ops[|ops| - 1];
      assert ops == before + [op] && op in ops;
      FiresAtDeadline(start, before);
      FiresNext(start, before, op);
    }
  }

  lemma FiresSnoc(start: nat, before: seq<Op>, op: Op)
    ensures var ops, c := before + [op], After(start, before);
            && Updates(ops) == Updates(before) + (if op.Update? then 1 else 0)
            && Fires(start, ops) == Fires(start, before) + if op.Update? then [Due(c.pending, c.now + 1)] else []
  {
    hide Due, Later, Next, After;
    assert (before + [op])[..|before|] == before;
    assert Fires(start, before) + [] == Fires(start, before);
  }

  lemma FiresNext(start: nat, before: seq<Op>, op: Op)
    requires GoodOp(op) && |Fires(start, before)| == Updates(before)
    requires forall k :: 0 <= k < Updates(before) ==> Fires(start, before)[k] == Due(Added(start, before), start + k + 1)
    ensures var ops := before + [op];
            && |Fires(start, ops)| == Updates(ops)
            && forall k :: 0 <= k < Updates(ops) ==> Fires(start, ops)[k] == Due(Added(start, ops), start + k + 1)
  {
    hide Due, Later, Added, GoodOp, Next, After, Fires, Updates;
    var ops, n := before + [op], Updates(before);
    FiresSnoc(start, before, op);
    forall k | 0 <= k < Updates(ops) ensures Fires(start, ops)[k] == Due(Added(start, ops), start + k + 1) {
      if k < n {
        NotRetroactive(start, before, op, start + k + 1);
      } else {
        Remembered(start, before, start + k + 1);
        AddedByUpdate(start, before, op);
      }
    }
  }

  /** What is added during an update is not due in it. */
  lemma AddedByUpdate(start: nat, ops: seq<Op>, op: Op)
    requires GoodOp(op) && op.Update?
    ensures var now := start + Updates(ops) + 1; Due(Added(start, ops + [op]), now) == Due(Added(start, ops), now)
  {
    hide Due, Adds;
    assert (ops + [op])[..|ops|] == ops;
    var now := start + Updates(ops) + 1;
    DueAppend(Added(start, ops), Adds(op, now), now);
    AddsLater(op, now);
    NoneDue(Adds(op, now), now);
  }

  predicate OpMentions(op: Op, e: Event)
  {
    match op
    case Add(_, event) => event == e
    case Update(waiting) => exists r :: r in waiting && r.event == e
  }

  predicate Mentions(ops: seq<Op>, e: Event)
  {
    exists op :: op in ops && OpMentions(op, e)
  }

  /** Request number i of the operation, the only one for e, is for a time from now. */
  predicate AddsOnce(op: Op, i: nat, time: nat, e: Event)
  {
    match op
    case Add(t, event) => t == time && event == e
    case Update(waiting) => i < |waiting| && waiting[i] == Request(time, e) && forall j :: 0 <= j < |waiting| && j != i ==> waiting[j].event != e
  }

  lemma {:induction false} CountDue(ps: seq<Timeout>, now: nat, e: Event)
    ensures multiset(Due(ps, now))[e] == multiset(ps)[Timeout(now, e)]
  {
    if ps != [] {
      var front, p := ps[..|ps| - 1], ps[|ps| - 1];
      assert ps == front + [p];
      hide Due;
      DueSnoc(front, p, now);
      CountDue(front, now, e);
    }
  }

  lemma NotMentioned(op: Op, now: nat, d: nat, e: Event)
    requires !OpMentions(op, e)
    ensures multiset(Adds(op, now))[Timeout(d, e)] == 0
  {
    if op.Update? {
      forall i | 0 <= i < |op.waiting| ensures Adds(op, now)[i].event != e { assert op.waiting[i] in op.waiting; }
    }
  }

  lemma {:induction false} NeverAdded(start: nat, ops: seq<Op>, d: nat, e: Event)
    requires !Mentions(ops, e)
    ensures multiset(Added(start, ops))[Timeout(d, e)] == 0
  {
    hide Adds, OpMentions;
    if ops != [] {
      var op := ops[|ops| - 1];
      assert op in ops;
      NeverAdded(start, ops[..|ops| - 1], d, e);
      NotMentioned(op, start + Updates(ops), d, e);
    }
  }

  lemma OnceInAdds(op: Op, i: nat, time: nat, now: nat, d: nat, e: Event)
    requires AddsOnce(op, i, time, e)
    ensures multiset(Adds(op, now))[Timeout(d, e)] == if d == now + time then 1 else 0
  {
    if op.Update? {
      var ps := Adds(op, now);
      assert ps == ps[..i] + [ps[i]] + ps[i + 1..];
      assert Timeout(d, e) !in ps[..i] && Timeout(d, e) !in ps[i + 1..];
      assert ps[i] == Timeout(now + time, e);
    }
  }

  lemma {:induction false} AddedOnce(start: nat, a: seq<Op>, op: Op, i: nat, time: nat, e: Event, b: seq<Op>, d: nat)
    requires !Mentions(a, e) && !Mentions(b, e) && AddsOnce(op, i, time, e)
    ensures multiset(Added(start, a + [op] + b))[Timeout(d, e)] == if d == start + Updates(a + [op]) + time then 1 else 0
  {
    hide Adds, Updates, AddsOnce, Mentions, OpMentions;
    if b == [] {
      assert a + [op] + b == a + [op] && (a + [op])[..|a|] == a;
      NeverAdded(start, a, d, e);
      OnceInAdds(op, i, time, start + Updates(a + [op]), d, e);
    } else {
      var n := |b| - 1;
      assert (a + [op] + b)[..|a| + 1 + n] == a + [op] + b[..n];
      Unmentioned(b, e);
      AddedOnce(start, a, op, i, time, e, b[..n], d);
      NotMentioned(b[n], start + Updates(a + [op] + b), d, e);
    }
  }

  lemma Unmentioned(b: seq<Op>, e: Event)
    requires b != [] && !Mentions(b, e)
    ensures !Mentions(b[..|b| - 1], e) && !OpMentions(b[|b| - 1], e)
  {
    hide OpMentions;
    assert b[|b| - 1] in b;
  }

  /** A timer added once with 0 < time < 2^31, at rest or during an update, is dispatched once, by
      the time-th update after it was added, and by no other update; whatever else the run does. */
  lemma FiresExactlyOnce(start: nat, a: seq<Op>, op: Op, i: nat, time: nat, e: Event, b: seq<Op>, k: nat)
    requires GoodRun(a) && GoodOp(op) && GoodRun(b)
    requires !Mentions(a, e) && !Mentions(b, e) && AddsOnce(op, i, time, e)
    requires k < Updates(a + [op] + b)
    ensures var fires := Fires(start, a + [op] + b);
            && |fires| == Updates(a + [op] + b)
            && multiset(fires[k])[e] == if k + 1 == Updates(a + [op]) + time then 1 else 0
  {
    hide Added, Fires, Due, Updates, Mentions, AddsOnce;
    var ops := a + [op] + b;
    FiresAtDeadline(start, ops);
    CountDue(Added(start, ops), start + k + 1, e);
    AddedOnce(start, a, op, i, time, e, b, start + k + 1);
  }
}
