/** Packages cut out of streams. */
module Netpack {
  // Packages with a length in front, in the byte streams of many connections, which arrive in
  // arbitrary pieces.

  type Byte = b: int | 0 <= b < 256
  type Bytes = seq<Byte>

  datatype Option<T> = None | Some(value: T)

  const QUEUESIZE := 1024
  const HASHSIZE := 4096

  // ------------------------------------------------------------------ the meaning of a stream

  function ReadSize(hi: Byte, lo: Byte): (n: nat)
    ensures n < 0x1_0000
  {
    hi * 256 + lo
  }

  /** A length and its two bytes determine each other. */
  lemma SizeBytes(n: nat)
    requires n < 0x1_0000
    ensures ReadSize(n / 256, n % 256) == n
    ensures forall hi: Byte, lo: Byte :: ReadSize(hi, lo) == n <==> hi == n / 256 && lo == n % 256
  {
  }

  /** the complete packages of a stream */
  function Packages(s: Bytes): seq<Bytes>
    decreases |s|
  {
    if |s| < 2 then []
    else
      var n := ReadSize(s[0], s[1]);
      if |s| < 2 + n then [] else [s[2..2 + n]] + Packages(s[2 + n..])
  }

  /** and the bytes after them */
  function Tail(s: Bytes): Bytes
    decreases |s|
  {
    if |s| < 2 then s
    else
      var n := ReadSize(s[0], s[1]);
      if |s| < 2 + n then s else Tail(s[2 + n..])
  }

  /** A stream may be cut anywhere: what is left of the first piece goes in front of the second. */
  lemma {:induction false} CutAnywhere(a: Bytes, b: Bytes)
    ensures Packages(a + b) == Packages(a) + Packages(Tail(a) + b)
    ensures Tail(a + b) == Tail(Tail(a) + b)
    decreases |a|
  {
    if |a| >= 2 {
      var n := ReadSize(a[0], a[1]);
      if |a| >= 2 + n {
        assert (a + b)[2..2 + n] == a[2..2 + n] && (a + b)[2 + n..] == a[2 + n..] + b;
        CutAnywhere(a[2 + n..], b);
        assert [a[2..2 + n]] + (Packages(a[2 + n..]) + Packages(Tail(a[2 + n..]) + b)) == [a[2..2 + n]] + Packages(a[2 + n..]) + Packages(Tail(a[2 + n..]) + b);
      }
    }
  }

  lemma {:induction false} TailIncomplete(s: Bytes)
    ensures Packages(Tail(s)) == [] && Tail(Tail(s)) == Tail(s)
    decreases |s|
  {
    if |s| >= 2 {
      var n := ReadSize(s[0], s[1]);
      if |s| >= 2 + n { TailIncomplete(s[2 + n..]); }
    }
  }

  // ------------------------------------------------------------------ unfinished packages

  /** 'read' bytes of a package of 'size' bytes; -1 means that only half of the length is there. */
  datatype Uncomplete = Uncomplete(id: nat, size: nat, read: int, data: Bytes, header: Byte)

  predicate Unfinished(u: Uncomplete)
  {
    if u.read < 0 then u.read == -1 else u.read == |u.data| < u.size < 0x1_0000
  }

  /** the bytes of the stream that an unfinished package stands for */
  function Left(u: Uncomplete): (s: Bytes)
    requires Unfinished(u)
    ensures s != []
  {
    if u.read < 0 then [u.header] else [u.size / 256, u.size % 256] + u.data
  }

  function HashFd(fd: nat): (h: nat)
    ensures h < HASHSIZE
  {
    (fd / 0x100_0000 + fd / 0x1000 + fd) % 0x1_0000_0000 % HASHSIZE
  }

  function Lookup(us: seq<Uncomplete>, fd: nat): Option<Uncomplete>
  {
    if us == [] then None else if us[0].id == fd then Some(us[0]) else Lookup(us[1..], fd)
  }

  /** one unfinished package per connection */
  predicate Bucket(us: seq<Uncomplete>, h: nat)
  {
    && (forall i :: 0 <= i < |us| ==> Unfinished(us[i]) && HashFd(us[i].id) == h)
    && (forall i, j :: 0 <= i < j < |us| ==> us[i].id != us[j].id)
  }

  lemma {:induction false} LookupAt(us: seq<Uncomplete>, i: nat, fd: nat)
    requires i <= |us| && forall j :: 0 <= j < i ==> us[j].id != fd
    ensures Lookup(us, fd) == Lookup(us[i..], fd)
  {
    if i > 0 {
      assert us[1..][i - 1..] == us[i..];
      LookupAt(us[1..], i - 1, fd);
    } else {
      assert us[0..] == us;
    }
  }

  lemma {:induction false} LookupNone(us: seq<Uncomplete>, fd: nat)
    requires forall i :: 0 <= i < |us| ==> us[i].id != fd
    ensures Lookup(us, fd) == None
  {
    LookupAt(us, |us|, fd);
  }

  lemma {:induction false} LookupRemoved(us: seq<Uncomplete>, i: nat, fd: nat)
    requires i < |us| && us[i].id != fd
    ensures Lookup(us[..i] + us[i + 1..], fd) == Lookup(us, fd)
  {
    var vs := us[..i] + us[i + 1..];
    if i == 0 {
      assert vs == us[1..];
    } else {
      assert vs[0] == us[0] && vs[1..] == us[1..][..i - 1] + us[1..][i..];
      LookupRemoved(us[1..], i - 1, fd);
    }
  }

  /** Entry i leaves its list; the other connections keep theirs. */
  lemma Removed(us: seq<Uncomplete>, i: nat, h: nat)
    requires Bucket(us, h) && i < |us|
    ensures var vs := us[..i] + us[i + 1..];
            && Bucket(vs, h) && Unfinished(us[i]) && Lookup(us, us[i].id) == Some(us[i]) && Lookup(vs, us[i].id) == None
            && forall fd :: fd != us[i].id ==> Lookup(vs, fd) == Lookup(us, fd)
  {
    var vs, fd := us[..i] + us[i + 1..], us[i].id;
    LookupAt(us, i, fd);
    LookupNone(vs, fd);
    forall g | g != fd ensures Lookup(vs, g) == Lookup(us, g) { LookupRemoved(us, i, g); }
  }

  lemma {:induction false} LookupIn(us: seq<Uncomplete>, fd: nat)
    ensures var o := Lookup(us, fd); o.Some? ==> o.value in us && o.value.id == fd
  {
    if us != [] { LookupIn(us[1..], fd); }
  }

  // ------------------------------------------------------------------ the queue

  datatype Pack = Pack(id: nat, data: Bytes)

  function Packs(fd: nat, ps: seq<Bytes>): (r: seq<Pack>)
    ensures |r| == |ps|
  {
    seq(|ps|, (i: nat) requires i < |ps| => Pack(fd, ps[i]))
  }

  /** what the caller is told: nothing complete, one package, or that the queue has packages */
  datatype Result = Nothing | Data(fd: nat, data: Bytes) | More

  class Queue {
    var cap: int
    var head: int
    var tail: int
    var queue: array<Pack>
    const hash: array<seq<Uncomplete>>

    ghost predicate Ring()
      reads `cap, `head, `tail, `queue, queue
    {
      queue.Length == cap && 0 <= head < cap && 0 <= tail < cap
    }

    ghost predicate Table()
      reads hash
    {
      hash.Length == HASHSIZE && forall h :: 0 <= h < HASHSIZE ==> Bucket(hash[h], h)
    }

    ghost predicate Valid()
      reads `cap, `head, `tail, `queue, queue, hash
    {
      Ring() && Table()
    }

    /** the packages in the queue, oldest first */
    ghost function Contents(): (s: seq<Pack>)
      requires Ring()
      reads `cap, `head, `tail, `queue, queue
      ensures |s| == if head <= tail then tail - head else tail + cap - head
    {
      RingOf(queue[..], head, tail)
    }

    /** the bytes of a connection's stream that no package has been made of yet */
    ghost function Pending(fd: nat): Bytes
      requires Table()
      reads hash
    {
      LookupIn(hash[HashFd(fd)], fd);
      match Lookup(hash[HashFd(fd)], fd)
      case None => []
      case Some(u) => Left(u)
    }

    constructor ()
      ensures Valid() && Contents() == [] && forall fd :: Pending(fd) == []
      ensures fresh(queue) && fresh(hash)
    {
      cap, head, tail := QUEUESIZE, 0, 0;
      queue := new Pack[QUEUESIZE](_ => Pack(0, []));
      hash := new seq<Uncomplete>[HASHSIZE](_ => []);
    }

    /** Take the unfinished package of a connection out of its list. */
    method FindUncomplete(fd: nat) returns (uc: Option<Uncomplete>)
      requires Table()
      modifies hash
      ensures Table() && Pending(fd) == []
      ensures forall g :: g != fd ==> Pending(g) == old(Pending(g))
      ensures uc.None? ==> old(Pending(fd)) == []
      ensures uc.Some? ==> uc.value.id == fd && Unfinished(uc.value) && old(Pending(fd)) == Left(uc.value)
    {
      hide Lookup, Bucket, Left, HashFd;
      var h := HashFd(fd);
      var us := hash[h];
      var i := 0;
      while i < |us|
        invariant 0 <= i <= |us| && hash[h] == us
        invariant forall j :: 0 <= j < i ==> us[j].id != fd
        invariant forall k :: 0 <= k < HASHSIZE ==> hash[k] == old(hash[k])
      {
        if us[i].id == fd {
          Removed(us, i, h);
          uc := Some(us[i]);
          hash[h] := us[..i] + us[i + 1..];
          return;
        }
        i := i + 1;
      }
      LookupNone(us, fd);
      uc := None;
    }

    /** Put an unfinished package at the front of its list. */
    method SaveUncomplete(uc: Uncomplete)
      requires Table() && Unfinished(uc) && Pending(uc.id) == []
      modifies hash
      ensures Table() && Pending(uc.id) == Left(uc)
      ensures forall g :: g != uc.id ==> Pending(g) == old(Pending(g))
    {
      var h := HashFd(uc.id);
      NotIn(hash[h], uc.id);
      ghost var us := hash[h];
      hash[h] := [uc] + hash[h];
      assert ([uc] + us)[1..] == us;
    }

    /** All packages move to an array with room for 1024 more. */
    method ExpandQueue(ghost all: seq<Pack>)
      requires queue.Length == cap && 0 <= head < cap
      requires |all| == cap && forall k :: 0 <= k < cap ==> all[k] == queue[(head + k) % cap]
      modifies `cap, `head, `tail, `queue
      ensures Ring() && fresh(queue) && Contents() == all && cap == old(cap) + QUEUESIZE
    {
      var nq := new Pack[cap + QUEUESIZE](_ => Pack(0, []));
      for i := 0 to cap
        invariant queue == old(queue) && cap == old(cap) && head == old(head)
        invariant forall k :: 0 <= k < i ==> nq[k] == all[k]
        invariant forall k :: 0 <= k < cap ==> all[k] == queue[(head + k) % cap]
        modifies nq
      {
        nq[i] := queue[(head + i) % cap];
      }
      head := 0;
      tail := cap;
      cap := cap + QUEUESIZE;
      queue := nq;
      assert queue[0..tail] == all;
    }

    method PushData(fd: nat, data: Bytes)
      requires Ring()
      modifies `cap, `head, `tail, `queue, queue
      ensures Ring() && (queue == old(queue) || fresh(queue)) && Contents() == old(Contents()) + [Pack(fd, data)]
    {
      ghost var was := Contents();
      queue[tail] := Pack(fd, data);
      tail := tail + 1;
      if tail >= cap { tail := tail - cap; }
      if head == tail {
        FullRing(was + [Pack(fd, data)]);
        ExpandQueue(was + [Pack(fd, data)]);
      } else {
        assert |Contents()| == |was| + 1;
        assert forall k :: 0 <= k < |was| ==> Contents()[k] == was[k];
      }
    }

    lemma FullRing(all: seq<Pack>)
      requires queue.Length == cap && 0 <= head < cap && |all| == cap
      requires all == queue[head..] + queue[..head]
      ensures forall k :: 0 <= k < cap ==> all[k] == queue[(head + k) % cap]
    {
      forall k | 0 <= k < cap ensures all[k] == queue[(head + k) % cap] { WrapMod(head + k, cap); }
    }

    /** The oldest package. */
    method Pop() returns (p: Option<Pack>)
      requires Ring()
      modifies `head
      ensures Ring()
      ensures p == if old(Contents()) == [] then None else Some(old(Contents())[0])
      ensures Contents() == if old(Contents()) == [] then [] else old(Contents())[1..]
    {
      if head == tail { return None; }
      RingTail(queue[..], head, tail);
      p := Some(queue[head]);
      head := head + 1;
      if head >= cap { head := 0; }
    }

    /** Everything that is complete in a piece of a stream goes to the queue. */
    method PushMore(fd: nat, buffer: Bytes)
      requires Valid() && buffer != [] && Pending(fd) == []
      modifies `cap, `head, `tail, `queue, queue, hash
      ensures Valid() && (queue == old(queue) || fresh(queue))
      ensures Contents() == old(Contents()) + Packs(fd, Packages(buffer)) && Pending(fd) == Tail(buffer)
      ensures forall g :: g != fd ==> Pending(g) == old(Pending(g))
      decreases |buffer|
    {
      hide Bucket, Contents, Pending, Packages, Tail, Packs, HashFd, ReadSize;
      NonePacked(fd);
      if |buffer| == 1 {
        Incomplete(buffer);
        SaveUncomplete(Uncomplete(fd, 0, -1, [], buffer[0]));
        assert buffer == [buffer[0]] && Contents() + [] == Contents();
        return;
      }
      var packSize := ReadSize(buffer[0], buffer[1]);
      SizeBytes(packSize);
      var rest := buffer[2..];
      if |rest| < packSize {
        Incomplete(buffer);
        SaveUncomplete(Uncomplete(fd, packSize, |rest|, rest, 0));
        assert [packSize / 256, packSize % 256] + rest == buffer && Contents() + [] == Contents();
        return;
      }
      FirstPackage(fd, buffer);
      assert rest[..packSize] == buffer[2..2 + packSize] && rest[packSize..] == buffer[2 + packSize..];
      PushData(fd, rest[..packSize]);
      rest := rest[packSize..];
      if |rest| > 0 {
        PushMore(fd, rest);
      } else {
        Incomplete(rest);
      }
      assert Contents() == old(Contents()) + ([Pack(fd, buffer[2..2 + packSize])] + Packs(fd, Packages(rest)));
    }

    /** One piece of a connection's stream. What is told, what goes to the queue and what stays
        pending depends on the stream only, not on how it was cut. */
    method FilterData(fd: nat, buffer: Bytes) returns (r: Result)
      requires Valid() && buffer != []
      modifies `cap, `head, `tail, `queue, queue, hash
      ensures Valid() && (queue == old(queue) || fresh(queue))
      ensures Pending(fd) == Tail(old(Pending(fd)) + buffer)
      ensures forall g :: g != fd ==> Pending(g) == old(Pending(g))
      ensures r == Told(fd, old(Pending(fd)) + buffer)
      ensures Contents() == old(Contents()) + if r.More? then Packs(fd, Packages(old(Pending(fd)) + buffer)) else []
    {
      hide Bucket, Contents, Pending, Packages, Tail, Packs, HashFd, Left;
      var uc := FindUncomplete(fd);
      assert Contents() + [] == Contents();
      if uc.Some? {
        r := FillUncomplete(fd, uc.value, buffer);
        return;
      }
      assert [] + buffer == buffer;
      r := FirstPiece(fd, buffer);
    }

    /** a piece that continues an unfinished package */
    method FillUncomplete(fd: nat, uc0: Uncomplete, buffer0: Bytes) returns (r: Result)
      requires Valid() && buffer0 != [] && Pending(fd) == [] && uc0.id == fd && Unfinished(uc0)
      modifies `cap, `head, `tail, `queue, queue, hash
      ensures Valid() && (queue == old(queue) || fresh(queue))
      ensures Pending(fd) == Tail(Left(uc0) + buffer0) && r == Told(fd, Left(uc0) + buffer0)
      ensures forall g :: g != fd ==> Pending(g) == old(Pending(g))
      ensures Contents() == old(Contents()) + if r.More? then Packs(fd, Packages(Left(uc0) + buffer0)) else []
    {
      hide Bucket, Contents, Pending, Packages, Tail, Packs, HashFd, Left, ReadSize;
      var uc, buffer := uc0, buffer0;
      ghost var s := Left(uc0) + buffer0;
      assert Contents() + [] == Contents();
      if uc.read < 0 {
        uc := Uncomplete(fd, ReadSize(uc.header, buffer[0]), 0, [], 0);
        buffer := buffer[1..];
      }
      Refill(uc0, buffer0, uc, buffer);
      Filled(s, uc, buffer);
      var need := uc.size - uc.read;
      if |buffer| < need {
        uc := uc.(data := uc.data + buffer, read := uc.read + |buffer|);
        Incomplete(s);
        SaveUncomplete(uc);
        return Nothing;
      }
      var data := uc.data + buffer[..need];
      buffer := buffer[need..];
      FirstPackage(fd, s);
      if |buffer| == 0 {
        Incomplete(buffer);
        return Data(fd, data);
      }
      NoPackage(buffer);
      PushData(fd, data);
      PushMore(fd, buffer);
      assert Contents() == old(Contents()) + ([Pack(fd, data)] + Packs(fd, Packages(buffer)));
      r := More;
    }

    /** a piece that starts with a length */
    method FirstPiece(fd: nat, buffer0: Bytes) returns (r: Result)
      requires Valid() && buffer0 != [] && Pending(fd) == []
      modifies `cap, `head, `tail, `queue, queue, hash
      ensures Valid() && (queue == old(queue) || fresh(queue))
      ensures Pending(fd) == Tail(buffer0) && r == Told(fd, buffer0)
      ensures forall g :: g != fd ==> Pending(g) == old(Pending(g))
      ensures Contents() == old(Contents()) + if r.More? then Packs(fd, Packages(buffer0)) else []
    {
      hide Bucket, Contents, Pending, Packages, Tail, Packs, HashFd, ReadSize;
      assert Contents() + [] == Contents();
      if |buffer0| == 1 {
        Incomplete(buffer0);
        SaveUncomplete(Uncomplete(fd, 0, -1, [], buffer0[0]));
        assert buffer0 == [buffer0[0]];
        return Nothing;
      }
      var packSize := ReadSize(buffer0[0], buffer0[1]);
      SizeBytes(packSize);
      var buffer := buffer0[2..];
      if |buffer| < packSize {
        Incomplete(buffer0);
        SaveUncomplete(Uncomplete(fd, packSize, |buffer|, buffer, 0));
        assert [packSize / 256, packSize % 256] + buffer == buffer0;
        return Nothing;
      }
      FirstPackage(fd, buffer0);
      assert buffer[..packSize] == buffer0[2..2 + packSize] && buffer[packSize..] == buffer0[2 + packSize..];
      if |buffer| == packSize {
        Incomplete(buffer[packSize..]);
        assert buffer[..packSize] == buffer;
        return Data(fd, buffer);
      }
      NoPackage(buffer[packSize..]);
      PushData(fd, buffer[..packSize]);
      PushMore(fd, buffer[packSize..]);
      assert Contents() == old(Contents()) + ([Pack(fd, buffer0[2..2 + packSize])] + Packs(fd, Packages(buffer0[2 + packSize..])));
      r := More;
    }

    /** The connection is gone: its unfinished package is freed. */
    method CloseUncomplete(fd: nat)
      requires Valid()
      modifies hash
      ensures Valid() && Pending(fd) == [] && forall g :: g != fd ==> Pending(g) == old(Pending(g))
    {
      var uc := FindUncomplete(fd);
    }
  }

  /** A piece completes nothing, or exactly one package without anything behind it, or more. */
  function Told(fd: nat, s: Bytes): Result
  {
    var ps := Packages(s);
    if ps == [] then Nothing
    else if |ps| == 1 && Tail(s) == [] then Data(fd, ps[0])
    else More
  }

  /** what a ring holds between its head and its tail */
  function RingOf(q: seq<Pack>, head: nat, tail: nat): seq<Pack>
    requires head <= |q| && tail <= |q|
  {
    if head <= tail then q[head..tail] else q[head..] + q[..tail]
  }

  lemma RingTail(q: seq<Pack>, head: nat, tail: nat)
    requires head < |q| && tail < |q| && head != tail
    ensures RingOf(q, head, tail) == [q[head]] + RingOf(q, if head + 1 >= |q| then 0 else head + 1, tail)
  {
    if head < tail {
      assert q[head..tail] == [q[head]] + q[head + 1..tail];
    } else if head + 1 < |q| {
      assert q[head..] == [q[head]] + q[head + 1..];
      assert q[head..] + q[..tail] == [q[head]] + (q[head + 1..] + q[..tail]);
    } else {
      assert q[head..] == [q[head]] && q[0..tail] == q[..tail];
    }
  }

  lemma NoPackage(s: Bytes)
    ensures Packages(s) == [] ==> Tail(s) == s
  {
  }

  lemma NonePacked(fd: nat)
    ensures Packs(fd, []) == []
  {
  }

  lemma Incomplete(s: Bytes)
    requires |s| < 2 || |s| < 2 + ReadSize(s[0], s[1])
    ensures Packages(s) == [] && Tail(s) == s
  {
  }

  lemma FirstPackage(fd: nat, s: Bytes)
    requires |s| >= 2 && |s| >= 2 + ReadSize(s[0], s[1])
    ensures var n := ReadSize(s[0], s[1]);
            && Packages(s) == [s[2..2 + n]] + Packages(s[2 + n..]) && Tail(s) == Tail(s[2 + n..])
            && Packs(fd, Packages(s)) == [Pack(fd, s[2..2 + n])] + Packs(fd, Packages(s[2 + n..]))
  {
    hide Packs;
    var n := ReadSize(s[0], s[1]);
    PacksCons(fd, s[2..2 + n], Packages(s[2 + n..]));
  }

  lemma PacksCons(fd: nat, p: Bytes, ps: seq<Bytes>)
    ensures Packs(fd, [p] + ps) == [Pack(fd, p)] + Packs(fd, ps)
  {
    var a, b := Packs(fd, [p] + ps), [Pack(fd, p)] + Packs(fd, ps);
    assert |a| == |b| && forall i :: 0 <= i < |a| ==> a[i] == b[i];
  }

  lemma Refill(uc0: Uncomplete, buffer0: Bytes, uc: Uncomplete, buffer: Bytes)
    requires Unfinished(uc0) && buffer0 != []
    requires if uc0.read < 0 then uc == Uncomplete(uc0.id, ReadSize(uc0.header, buffer0[0]), 0, [], 0) && buffer == buffer0[1..]
             else uc == uc0 && buffer == buffer0
    ensures 0 <= uc.read == |uc.data| <= uc.size < 0x1_0000 && Left(uc0) + buffer0 == [uc.size / 256, uc.size % 256] + (uc.data + buffer)
  {
    hide ReadSize;
    if uc0.read < 0 {
      SizeBytes(uc.size);
      assert uc.size / 256 == uc0.header && uc.size % 256 == buffer0[0];
      assert [uc0.header] + buffer0 == [uc0.header, buffer0[0]] + ([] + buffer);
    } else {
      assert [uc.size / 256, uc.size % 256] + uc.data + buffer == [uc.size / 256, uc.size % 256] + (uc.data + buffer);
    }
  }

  /** The piece fills the package, or becomes part of it. */
  lemma Filled(s: Bytes, uc: Uncomplete, buffer: Bytes)
    requires 0 <= uc.read == |uc.data| <= uc.size < 0x1_0000 && s == [uc.size / 256, uc.size % 256] + (uc.data + buffer)
    ensures |s| >= 2 && ReadSize(s[0], s[1]) == uc.size
    ensures var need := uc.size - uc.read;
            if |buffer| < need then |s| < 2 + uc.size && Left(uc.(data := uc.data + buffer, read := uc.read + |buffer|)) == s
            else |s| >= 2 + uc.size && s[2..2 + uc.size] == uc.data + buffer[..need] && s[2 + uc.size..] == buffer[need..]
  {
    SizeBytes(uc.size);
  }

  lemma WrapMod(i: int, cap: int)
    requires 0 <= i < 2 * cap
    ensures i % cap == if i < cap then i else i - cap
  {
  }

  lemma {:induction false} NotIn(us: seq<Uncomplete>, fd: nat)
    ensures Lookup(us, fd).None? ==> forall i :: 0 <= i < |us| ==> us[i].id != fd
  {
    if us != [] && Lookup(us, fd).None? {
      NotIn(us[1..], fd);
      forall i | 0 <= i < |us| ensures us[i].id != fd { if i > 0 { assert us[1..][i - 1] == us[i]; } }
    }
  }

  // ------------------------------------------------------------------ whole streams

  /** one call of the filter: data of a connection, or its end; a later connection may get the
      same descriptor again */
  datatype Input = Piece(fd: nat, piece: Bytes) | Closed(fd: nat)

  /** what arrived on the present connection of a descriptor, all in all */
  function Stream(inputs: seq<Input>, fd: nat): Bytes
  {
    if inputs == [] then []
    else
      var i, s := inputs[|inputs| - 1], Stream(inputs[..|inputs| - 1], fd);
      if i.fd != fd then s else if i.Closed? then [] else s + i.piece
  }

  /** the packages of its earlier connections */
  function Earlier(inputs: seq<Input>, fd: nat): seq<Bytes>
  {
    if inputs == [] then []
    else
      var before := inputs[..|inputs| - 1];
      Earlier(before, fd) + if inputs[|inputs| - 1] == Closed(fd) then Packages(Stream(before, fd)) else []
  }

  /** the pending bytes of a connection after some calls, and the packages they have given out for
      it, call by call */
  function PendingAfter(inputs: seq<Input>, fd: nat): Bytes
  {
    if inputs == [] then []
    else
      var i, p := inputs[|inputs| - 1], PendingAfter(inputs[..|inputs| - 1], fd);
      if i.fd != fd then p else if i.Closed? then [] else Tail(p + i.piece)
  }

  function Given(inputs: seq<Input>, fd: nat): seq<Bytes>
  {
    if inputs == [] then []
    else
      var i, p := inputs[|inputs| - 1], PendingAfter(inputs[..|inputs| - 1], fd);
      Given(inputs[..|inputs| - 1], fd) + if i.Piece? && i.fd == fd then Packages(p + i.piece) else []
  }

  /** However the stream of a connection is cut into pieces, and whatever arrives on other
      connections in between: the packages are those of the whole stream. */
  lemma {:induction false} ChunkingIndependent(inputs: seq<Input>, fd: nat)
    ensures Given(inputs, fd) == Earlier(inputs, fd) + Packages(Stream(inputs, fd))
    ensures PendingAfter(inputs, fd) == Tail(Stream(inputs, fd))
  {
    hide Packages, Tail;
    NoBytes();
    if inputs == [] {
    } else {
      var before, i := inputs[..|inputs| - 1], inputs[|inputs| - 1];
      ChunkingIndependent(before, fd);
      var earlier, s := Earlier(before, fd), Stream(before, fd);
      if i == Closed(fd) {
        assert earlier + Packages(s) + [] == earlier + Packages(s);
      } else if i.fd == fd {
        CutAnywhere(s, i.piece);
        assert earlier + [] == earlier;
        assert earlier + Packages(s) + Packages(Tail(s) + i.piece) == earlier + (Packages(s) + Packages(Tail(s) + i.piece));
      } else {
        assert earlier + [] == earlier && Given(before, fd) + [] == Given(before, fd);
      }
    }
  }

  lemma NoBytes()
    ensures Packages([]) == [] && Tail([]) == []
  {
  }

  /** the packages of one connection, out of those of all */
  function Of(ps: seq<Pack>, fd: nat): seq<Bytes>
  {
    if ps == [] then [] else Of(ps[..|ps| - 1], fd) + if ps[|ps| - 1].id == fd then [ps[|ps| - 1].data] else []
  }

  lemma {:induction false} OfPacks(given: seq<Pack>, fd: nat, ps: seq<Bytes>, g: nat)
    ensures Of(given + Packs(fd, ps), g) == Of(given, g) + if g == fd then ps else []
  {
    if ps == [] {
      assert given + Packs(fd, ps) == given;
    } else {
      var n := |ps| - 1;
      assert (given + Packs(fd, ps))[..|given| + n] == given + Packs(fd, ps[..n]);
      OfPacks(given, fd, ps[..n], g);
    }
  }

  /** Any run of calls on one queue, emptied whenever it has packages: what is delivered for each
      connection are the packages of its stream, in order, and the rest of the stream is pending. */
  method Deliver(inputs: seq<Input>) returns (q: Queue, given: seq<Pack>)
    requires forall i :: i in inputs && i.Piece? ==> i.piece != []
    ensures q.Valid() && q.Contents() == []
    ensures forall fd :: Of(given, fd) == Earlier(inputs, fd) + Packages(Stream(inputs, fd))
    ensures forall fd :: q.Pending(fd) == Tail(Stream(inputs, fd))
  {
    hide Of, Packs, Packages, Tail, PendingAfter, Given;
    q := new Queue();
    given := [];
    forall fd: nat ensures Of([], fd) == Given([], fd) && PendingAfter([], fd) == [] { NoInput(fd); }
    for k := 0 to |inputs|
      invariant q.Valid() && q.Contents() == [] && fresh(q) && fresh(q.queue) && fresh(q.hash)
      invariant forall fd :: Of(given, fd) == Given(inputs[..k], fd) && q.Pending(fd) == PendingAfter(inputs[..k], fd)
    {
      var i := inputs[k];
      assert i in inputs;
      ghost var p := q.Pending(i.fd);
      var out := Feed(q, i);
      forall fd: nat
        ensures Of(given + out, fd) == Given(inputs[..k + 1], fd) && q.Pending(fd) == PendingAfter(inputs[..k + 1], fd)
      {
        OneInput(inputs, k, fd);
        OfPacks(given, i.fd, if i.Piece? then Packages(p + i.piece) else [], fd);
      }
      given := given + out;
    }
    assert inputs[..|inputs|] == inputs;
    forall fd: nat { ChunkingIndependent(inputs, fd); }
  }

  /** one call of the filter, and the calls that empty the queue after it */
  method Feed(q: Queue, i: Input) returns (out: seq<Pack>)
    requires q.Valid() && q.Contents() == [] && (i.Piece? ==> i.piece != [])
    modifies q, q.queue, q.hash
    ensures q.Valid() && q.Contents() == [] && (q.queue == old(q.queue) || fresh(q.queue))
    ensures out == Packs(i.fd, if i.Piece? then Packages(old(q.Pending(i.fd)) + i.piece) else [])
    ensures q.Pending(i.fd) == if i.Piece? then Tail(old(q.Pending(i.fd)) + i.piece) else []
    ensures forall g :: g != i.fd ==> q.Pending(g) == old(q.Pending(g))
  {
    hide Packages, Tail, Packs, q.Contents, q.Pending;
    NonePacked(i.fd);
    out := [];
    if i.Closed? {
      q.CloseUncomplete(i.fd);
    } else {
      ghost var s := q.Pending(i.fd) + i.piece;
      var r := q.FilterData(i.fd, i.piece);
      OnePacked(i.fd, s);
      assert [] + Packs(i.fd, Packages(s)) == Packs(i.fd, Packages(s)) && q.Contents() + [] == q.Contents();
      match r
      case Nothing =>
      case Data(_, data) => out := [Pack(i.fd, data)];
      case More => out := Drain(q);
    }
  }

  method Drain(q: Queue) returns (out: seq<Pack>)
    requires q.Valid()
    modifies q`head
    ensures q.Valid() && out == old(q.Contents()) && q.Contents() == []
    ensures forall g :: q.Pending(g) == old(q.Pending(g))
  {
    hide q.Contents, q.Pending, q.Table;
    out := [];
    var p := q.Pop();
    while p.Some?
      invariant q.Ring()
      invariant if p.Some? then out + ([p.value] + q.Contents()) == old(q.Contents()) else out == old(q.Contents()) && q.Contents() == []
      decreases p.Some?, |q.Contents()|
    {
      ghost var left := q.Contents();
      assert out + ([p.value] + left) == out + [p.value] + left;
      out := out + [p.value];
      p := q.Pop();
      assert left == [] ==> out + left == out;
    }
  }

  lemma NoInput(fd: nat)
    ensures Of([], fd) == Given([], fd) == [] && PendingAfter([], fd) == []
  {
  }

  lemma OneInput(inputs: seq<Input>, k: nat, fd: nat)
    requires k < |inputs|
    ensures var i, p := inputs[k], PendingAfter(inputs[..k], fd);
            && PendingAfter(inputs[..k + 1], fd) == (if i.fd != fd then p else if i.Closed? then [] else Tail(p + i.piece))
            && Given(inputs[..k + 1], fd) == Given(inputs[..k], fd) + if i.Piece? && i.fd == fd then Packages(p + i.piece) else []
  {
    hide Packages, Tail;
    assert inputs[..k + 1][..k] == inputs[..k];
  }

  /** what is told is what would be queued */
  lemma OnePacked(fd: nat, s: Bytes)
    ensures Told(fd, s).Nothing? ==> Packs(fd, Packages(s)) == []
    ensures Told(fd, s).Data? ==> Packs(fd, Packages(s)) == [Pack(fd, Told(fd, s).data)]
  {
    hide Packages, Tail;
  }

  /** A package as the sender writes it. */
  function Framed(p: Bytes): Bytes
    requires |p| < 0x1_0000
  {
    [|p| / 256, |p| % 256] + p
  }

  function FramedAll(ps: seq<Bytes>): Bytes
    requires forall p :: p in ps ==> |p| < 0x1_0000
  {
    if ps == [] then [] else Framed(ps[0]) + FramedAll(ps[1..])
  }

  /** The packages of a stream of packages are these packages, also the empty ones. */
  lemma {:induction false} RoundTrip(ps: seq<Bytes>)
    requires forall p :: p in ps ==> |p| < 0x1_0000
    ensures Packages(FramedAll(ps)) == ps && Tail(FramedAll(ps)) == []
  {
    if ps == [] {
    } else {
      var p, s := ps[0], FramedAll(ps);
      assert ReadSize(s[0], s[1]) == |p| && s[2..2 + |p|] == p && s[2 + |p|..] == FramedAll(ps[1..]);
      RoundTrip(ps[1..]);
    }
  }

  /** The high byte of a length comes first, in what is written and in what is read. */
  lemma HighFirst(p: Bytes)
    requires |p| == 0x0102
    ensures Framed(p)[0] == 0x01 && Framed(p)[1] == 0x02 && ReadSize(0x01, 0x02) == 0x0102
  {
  }

  /** What the caller is told of a piece of whole packages on a connection with nothing pending: the
      one package itself, or that there are more; and of less than a package nothing. */
  lemma ToldFramed(fd: nat, ps: seq<Bytes>, p: Bytes, cut: nat)
    requires (forall q :: q in ps ==> |q| < 0x1_0000) && |p| < 0x1_0000 && cut < 2 + |p|
    ensures |ps| == 1 ==> Told(fd, FramedAll(ps)) == Data(fd, ps[0])
    ensures |ps| > 1 ==> Told(fd, FramedAll(ps)) == More
    ensures ps != [] && cut > 0 ==> Told(fd, FramedAll(ps) + Framed(p)[..cut]) == More
    ensures Told(fd, Framed(p)[..cut]) == Nothing
  {
    hide FramedAll, ReadSize;
    RoundTrip(ps);
    var half := Framed(p)[..cut];
    HalfPackage(p, cut);
    CutAnywhere(FramedAll(ps), half);
    assert [] + half == half && ps + [] == ps;
  }

  lemma HalfPackage(p: Bytes, cut: nat)
    requires |p| < 0x1_0000 && cut < 2 + |p|
    ensures Packages(Framed(p)[..cut]) == [] && Tail(Framed(p)[..cut]) == Framed(p)[..cut]
  {
    var s := Framed(p)[..cut];
    if |s| >= 2 { assert ReadSize(s[0], s[1]) == |p|; }
  }
}
