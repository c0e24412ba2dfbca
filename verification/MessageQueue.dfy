/** Message queues and their list. */
module MessageQueue {
  // A service's queue, a ring buffer that doubles when it is full, and the global list that links
  // the queues which have work.

  const DEFAULT_QUEUE_SIZE := 64
  const MQ_OVERLOAD := 1024

  datatype Message = Message(source: int, session: int, data: int)
  datatype Option<T> = None | Some(value: T)

  /** What the rest of the program can tell about a queue: the stored messages, oldest first,
      and the two flags that decide who has to put the queue on the global list. */
  datatype View = View(msgs: seq<Message>, inGlobal: bool, release: bool)

  function Created(): View { View([], true, false) }

  function Pushed(v: View, m: Message): View { v.(msgs := v.msgs + [m], inGlobal := true) }

  function Popped(v: View): View
  {
    if v.msgs == [] then v.(inGlobal := false) else v.(msgs := v.msgs[1..])
  }

  function First(v: View): Option<Message>
  {
    if v.msgs == [] then None else Some(v.msgs[0])
  }

  function Marked(v: View): View { v.(release := true) }

  function Two(k: nat): (p: nat)
    ensures p > 0
  {
    if k == 0 then 1 else 2 * Two(k - 1)
  }

  /** what repeated doubling makes of x until it reaches n */
  function Doubled(x: nat, n: nat): (y: nat)
    requires x > 0
    ensures y >= n && y >= x && (x >= n ==> y == x) && (x < n ==> y < 2 * n)
    decreases if x < n then n - x else 0
  {
    if x < n then Doubled(2 * x, n) else x
  }

  /** It is x * 2^k for the least k that reaches n. */
  lemma {:induction false} DoubledIs(x: nat, n: nat) returns (k: nat)
    requires x > 0
    ensures Doubled(x, n) == x * Two(k) >= n
    ensures forall j :: 0 <= j < k ==> x * Two(j) < n
    decreases if x < n then n - x else 0
  {
    hide Two;
    assert Two(0) == 1 by { OneTwo(); }
    k := 0;
    if x < n {
      var m := DoubledIs(2 * x, n);
      k := m + 1;
      TwiceTwo(x, m);
      forall j | 0 <= j < k ensures x * Two(j) < n {
        if j > 0 { TwiceTwo(x, j - 1); }
      }
    }
  }

  lemma OneTwo()
    ensures Two(0) == 1
  {
  }

  lemma TwiceTwo(x: nat, k: nat)
    ensures x * Two(k + 1) == 2 * x * Two(k)
  {
    var t, u := Two(k), Two(k + 1);
    assert u == 2 * t;
    assert x * (2 * t) == 2 * x * t;
  }

  /** The messages 'all' are the dropped ones, the one in hand, and the stored ones. */
  predicate Drained(all: seq<Message>, dropped: seq<Message>, m: Option<Message>, stored: seq<Message>)
  {
    if m.Some? then all == dropped + ([m.value] + stored) else all == dropped && stored == []
  }

  lemma DrainStart(v: View)
    ensures Drained(v.msgs, [], First(v), Popped(v).msgs)
  {
  }

  lemma DrainStep(all: seq<Message>, dropped: seq<Message>, m: Message, v: View)
    requires Drained(all, dropped, Some(m), v.msgs)
    ensures Drained(all, dropped + [m], First(v), Popped(v).msgs)
  {
    if v.msgs != [] { assert v.msgs == [v.msgs[0]] + v.msgs[1..]; }
    assert dropped + ([m] + v.msgs) == dropped + [m] + v.msgs;
  }

  lemma DrainEnd(all: seq<Message>, dropped: seq<Message>, stored: seq<Message>)
    requires Drained(all, dropped, None, stored)
    ensures all == dropped && stored == []
  {
  }

  /** what a ring holds between its head and its tail */
  function RingOf(q: seq<Message>, head: nat, tail: nat): seq<Message>
    requires head <= |q| && tail <= |q|
  {
    if head <= tail then q[head..tail] else q[head..] + q[..tail]
  }

  lemma RingTail(q: seq<Message>, head: nat, tail: nat)
    requires head < |q| && tail < |q| && head != tail
    ensures RingOf(q, head, tail) == [q[head]] + RingOf(q, if head + 1 >= |q| then 0 else head + 1, tail)
  {
    if head < tail {
      assert q[head..tail] == [q[head]] + q[head + 1..tail];
    } else if head + 1 < |q| {
      assert q[head..] == [q[head]] + q[head + 1..];
      assert q[head..] + q[..tail] == [q[head]] + (q[head + 1..] + q[..tail]);
    } else {
      assert q[head..] == [q[head]] && q[0..tail] == q[..tail];
    }
  }

  lemma WrapMod(i: int, cap: int)
    requires 0 <= i < 2 * cap
    ensures i % cap == if i < cap then i else i - cap
  {
  }

  class Queue {
    const handle: int
    var cap: int
    var head: int
    var tail: int
    var release: bool
    var inGlobal: bool
    var overload: int
    var threshold: int
    var queue: array<Message>
    var next: Queue?

    /** The ring: never full, so head == tail means empty. */
    ghost predicate Valid()
      reads `cap, `head, `tail, `threshold, `overload, `queue, queue
    {
      queue.Length == cap && 0 <= head < cap && 0 <= tail < cap && threshold > 0 && 0 <= overload
    }

    ghost function Len(): nat
      requires Valid()
      reads `cap, `head, `tail, `threshold, `overload, `queue, queue
    {
      if head <= tail then tail - head else tail + cap - head
    }

    ghost function Contents(): (s: seq<Message>)
      requires Valid()
      reads `cap, `head, `tail, `threshold, `overload, `queue, queue
      ensures |s| == Len() && forall k :: 0 <= k < |s| ==> s[k] == queue[Wrapped(head + k)]
    {
      RingOf(queue[..], head, tail)
    }

    /** an index past the end of the array starts again at its beginning */
    ghost function Wrapped(i: int): int
      reads `cap
    {
      if i < cap then i else i - cap
    }

    ghost function Look(): View
      requires Valid()
      reads this, queue
    {
      View(Contents(), inGlobal, release)
    }

    constructor (h: int)
      ensures Valid() && fresh(queue) && Look() == Created() && handle == h && next == null
      ensures overload == 0 && threshold == MQ_OVERLOAD
    {
      handle := h;
      cap := DEFAULT_QUEUE_SIZE;
      head, tail := 0, 0;
      inGlobal, release := true, false;
      overload, threshold := 0, MQ_OVERLOAD;
      queue := new Message[DEFAULT_QUEUE_SIZE](_ => Message(0, 0, 0));
      next := null;
    }

    method Length() returns (n: int)
      requires Valid()
      ensures n == |Contents()|
    {
      if head <= tail { return tail - head; }
      return tail + cap - head;
    }

    /** Read and clear the overload mark. */
    method Overload() returns (n: int)
      requires Valid()
      modifies `overload
      ensures Valid() && n == old(overload) && overload == 0
    {
      if overload != 0 {
        n := overload;
        overload := 0;
        return n;
      }
      return 0;
    }

    /** Take the oldest message. On an empty queue the queue leaves the global list's books.
        The overload threshold follows the length in powers of two. */
    method Pop() returns (message: Option<Message>)
      requires Valid()
      modifies this
      ensures Valid() && queue == old(queue) && cap == old(cap) && next == old(next)
      ensures message == First(old(Look())) && Look() == Popped(old(Look()))
      ensures message == None ==> threshold == MQ_OVERLOAD && overload == old(overload)
      ensures message != None ==> threshold == Doubled(old(threshold), |Contents()|)
      ensures message != None ==> overload == (if |Contents()| > old(threshold) then |Contents()| else old(overload))
    {
      hide Contents, Doubled;
      message := None;
      if head != tail {
        var m := Take();
        message := Some(m);
        var length := tail - head;
        if length < 0 { length := length + cap; }
        Watch(length);
      } else {
        threshold := MQ_OVERLOAD;
      }
      if message == None { inGlobal := false; }
    }

    /** The ring part: read at the head, advance it around the end of the array. */
    method Take() returns (m: Message)
      requires Valid() && head != tail
      modifies `head
      ensures Valid() && old(Contents()) == [m] + Contents()
    {
      RingTail(queue[..], head, tail);
      m := queue[head];
      head := head + 1;
      if head >= cap { head := 0; }
    }

    /** Note a length above the threshold, and double the threshold until it is not. */
    method Watch(length: int)
      requires threshold > 0
      modifies `overload, `threshold
      ensures length <= 0 ==> threshold == old(threshold) && overload == old(overload)
      ensures length > 0 ==> threshold == Doubled(old(threshold), length)
      ensures length > 0 ==> overload == (if length > old(threshold) then length else old(overload))
    {
      while length > threshold
        invariant threshold > 0 && (length > 0 ==> Doubled(threshold, length) == Doubled(old(threshold), length))
        invariant overload == if threshold == old(threshold) then old(overload) else length
        invariant threshold >= old(threshold) && (threshold > old(threshold) ==> length > old(threshold))
        decreases length - threshold
      {
        overload := length;
        threshold := threshold * 2;
      }
    }

    /** Move everything to an array of twice the size, oldest message first. */
    method ExpandQueue(ghost all: seq<Message>)
      requires queue.Length == cap && 0 <= head < cap && threshold > 0 && 0 <= overload
      requires |all| == cap && forall k :: 0 <= k < cap ==> all[k] == queue[(head + k) % cap]
      modifies `head, `tail, `cap, `queue
      ensures Valid() && fresh(queue) && Contents() == all
      ensures cap == 2 * old(cap)
    {
      var newQueue := new Message[cap * 2](_ => Message(0, 0, 0));
      for i := 0 to cap
        invariant queue == old(queue) && cap == old(cap) && head == old(head)
        invariant forall k :: 0 <= k < i ==> newQueue[k] == all[k]
        invariant forall k :: 0 <= k < cap ==> all[k] == queue[(head + k) % cap]
        modifies newQueue
      {
        newQueue[i] := queue[(head + i) % cap];
      }
      head := 0;
      tail := cap;
      cap := cap * 2;
      queue := newQueue;
      assert queue[0..tail] == all;
    }

    /** Append a message; a queue that is not on the global list goes there. */
    method Push(message: Message, q: GlobalQueue)
      requires Valid() && q.Valid() && (!inGlobal ==> this !in q.list && next == null)
      modifies this, queue, q, q.Last()`next
      ensures Valid() && q.Valid() && (queue == old(queue) || fresh(queue))
      ensures Look() == Pushed(old(Look()), message)
      ensures q.list == if old(inGlobal) then old(q.list) else old(q.list) + [this]
    {
      hide Valid, Contents, GlobalQueue.Valid;
      Append(message);
      if !inGlobal {
        inGlobal := true;
        q.Push(this);
      }
    }

    /** The ring part: write at the tail, advance it, and make room when it meets the head. */
    method Append(message: Message)
      requires Valid()
      modifies `head, `tail, `cap, `queue, queue
      ensures Valid() && (queue == old(queue) || fresh(queue))
      ensures Contents() == old(Contents()) + [message]
    {
      ghost var was := Contents();
      queue[tail] := message;
      tail := tail + 1;
      if tail >= cap { tail := 0; }
      if head == tail {
        FullRing(was + [message]);
        ExpandQueue(was + [message]);
      } else {
        assert |Contents()| == |was| + 1;
        assert forall k :: 0 <= k < |was| ==> Contents()[k] == was[k];
      }
    }

    lemma FullRing(all: seq<Message>)
      requires queue.Length == cap && 0 <= head < cap && |all| == cap
      requires forall k :: 0 <= k < cap ==> all[k] == queue[Wrapped(head + k)]
      ensures forall k :: 0 <= k < cap ==> all[k] == queue[(head + k) % cap]
    {
      forall k | 0 <= k < cap ensures all[k] == queue[(head + k) % cap] { WrapMod(head + k, cap); }
    }

    /** The context is gone. Nobody else will put the queue on the global list any more. */
    method MarkRelease(q: GlobalQueue)
      requires Valid() && q.Valid() && (!inGlobal ==> this !in q.list && next == null) && !release
      modifies this, q, q.Last()`next
      ensures Valid() && q.Valid() && queue == old(queue) && Look() == Marked(old(Look()))
      ensures q.list == if old(inGlobal) then old(q.list) else old(q.list) + [this]
    {
      release := true;
      if !inGlobal { q.Push(this); }
    }

    /** Empty the queue, in order. */
    method DropAll() returns (dropped: seq<Message>)
      requires Valid()
      modifies this
      ensures Valid() && dropped == old(Contents()) && Contents() == [] && !inGlobal
      ensures release == old(release) && next == old(next) && queue == old(queue)
    {
      hide Valid, Contents, Doubled, Drained;
      dropped := [];
      ghost var v := Look();
      var m := Pop();
      DrainStart(v);
      while m.Some?
        invariant Valid() && queue == old(queue) && release == old(release) && next == old(next)
        invariant Drained(old(Contents()), dropped, m, Look().msgs) && (m.None? ==> !inGlobal)
        decreases m.Some?, |Look().msgs|
      {
        v := Look();
        DrainStep(old(Contents()), dropped, m.value, v);
        dropped := dropped + [m.value];
        m := Pop();
      }
      DrainEnd(old(Contents()), dropped, Look().msgs);
    }

    /** Called by an owner whose lookup of the context failed: drop everything if the context is
        gone for good, else keep the queue going around. */
    method Release(q: GlobalQueue) returns (freed: bool, dropped: seq<Message>)
      requires Valid() && q.Valid() && this !in q.list && next == null
      modifies this, q, q.Last()`next
      ensures Valid() && q.Valid() && freed == old(release)
      ensures freed ==> dropped == old(Contents()) && Contents() == [] && q.list == old(q.list) && next == null
      ensures !freed ==> dropped == [] && Look() == old(Look()) && q.list == old(q.list) + [this]
    {
      dropped := [];
      freed := release;
      if release {
        dropped := DropAll();
      } else {
        q.Push(this);
      }
    }
  }

  /** The list of queues with work, linked through their 'next' fields. */
  class GlobalQueue {
    var head: Queue?
    var tail: Queue?
    ghost var list: seq<Queue>

    ghost predicate Valid()
      reads this, list`next
    {
      && (forall i, j :: 0 <= i < j < |list| ==> list[i] != list[j])
      && (forall i :: 0 <= i < |list| ==> list[i].next == Follower(i))
      && head == (if list == [] then null else list[0])
      && tail == (if list == [] then null else list[|list| - 1])
    }

    ghost function Follower(i: nat): Queue?
      reads this
    {
      if i + 1 < |list| then list[i + 1] else null
    }

    ghost function Last(): set<Queue>
      reads this
    {
      if tail == null then {} else {tail}
    }

    constructor ()
      ensures Valid() && list == []
    {
      head, tail := null, null;
      list := [];
    }

    method Push(queue: Queue)
      requires Valid() && queue !in list && queue.next == null
      modifies this, Last()`next
      ensures Valid() && list == old(list) + [queue]
    {
      if tail != null {
        tail.next := queue;
        tail := queue;
      } else {
        head, tail := queue, queue;
      }
      list := list + [queue];
    }

    method Pop() returns (mq: Queue?)
      requires Valid()
      modifies this, (if head == null then {} else {head})`next
      ensures Valid()
      ensures mq == (if old(list) == [] then null else old(list)[0])
      ensures list == if old(list) == [] then [] else old(list)[1..]
      ensures mq != null ==> mq.next == null
    {
      mq := head;
      ghost var was := list;
      if mq != null {
        head := mq.next;
        if head == null {
          assert mq == tail;
          tail := null;
        }
        mq.next := null;
        list := list[1..];
        assert forall i :: 0 <= i < |list| ==> list[i] == was[i + 1];
      }
    }
  }
}
