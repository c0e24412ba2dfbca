/** When a flush may close a socket, how far it gets, and where messages queue. */
module SocketFlush {
  import opened SocketWrite

  // ------------------------------------------------------------------ who closes

  /** Sending a list closes the socket only when a write fails; otherwise nothing is dropped. */
  lemma {:induction false} SendListCloses(s: Sock, high: bool, outs: seq<Outcome>)
    ensures var r := SendList(s, high, outs);
            && (r.2 ==> Fail in outs)
            && (!r.2 ==> r.0.kind == s.kind && r.0.dropped == s.dropped && r.0.dw == s.dw && r.0.hand == s.hand)
            && (!r.2 ==> if high then r.0.low == s.low else r.0.high == s.high)
            && forall o :: o in r.1 ==> o in outs
    decreases |outs|
  {
    var bufs := List(s, high);
    if bufs != [] && outs != [] {
      assert outs[0] in outs && forall o :: o in outs[1..] ==> o in outs;
      hide ForceClose;
      match outs[0]
      case Interrupted => SendListCloses(s, high, outs[1..]);
      case Accept(k) =>
        if k >= Size(bufs[0]) >= 0 {
          CompleteFields(s, high);
          SendListCloses(Complete(s, high), high, outs[1..]);
        }
      case _ =>
    }
  }

  lemma CompleteFields(s: Sock, high: bool)
    requires List(s, high) != [] && Size(List(s, high)[0]) >= 0
    ensures var s' := Complete(s, high);
            && s'.kind == s.kind && s'.dropped == s.dropped && s'.dw == s.dw && s'.hand == s.hand
            && if high then s'.low == s.low else s'.high == s.high
  {
  }

  /** A flush closes a socket only when a write fails, or when the socket is half closed and has
      nothing left to send; as long as it does not close, nothing is dropped. And a half-closed
      socket with nothing left does not stay open. */
  lemma FlushCloses(s: Sock, outs: seq<Outcome>)
    requires Sound(s) && s.kind != Invalid && s.hand.None?
    ensures var r := Flush(s, outs);
            && (r.1 ==> Fail in outs || (s.kind == HalfClose && r.0.sent == s.sent + Held(s.dw) + Msgs(Queue(s)) && r.0.dropped == s.dropped))
            && (!r.1 ==> r.0.kind == s.kind && r.0.dropped == s.dropped)
            && (!r.1 && s.kind == HalfClose ==> Queue(r.0) != [])
  {
    hide Sound, SendList, Order, Lists, OnWire, Base, TakeDirect;
    TakeDirectSound(s);
    TakeDirectDropped(s);
    FlushListsCloses(TakeDirect(s), outs);
    Ordered(s, TakeDirect(s));
  }

  lemma TakeDirectDropped(s: Sock)
    ensures TakeDirect(s).dropped == s.dropped
  {
  }

  lemma Ordered(s: Sock, t: Sock)
    requires Order(t) == s.sent + Held(s.dw) + Msgs(Queue(s))
    ensures t.sent + Msgs(Queue(t)) == s.sent + Held(s.dw) + Msgs(Queue(s))
  {
  }

  lemma FlushListsCloses(s: Sock, outs: seq<Outcome>)
    requires Sound(s) && s.kind != Invalid && s.dw.None? && s.hand.None?
    ensures var r := FlushLists(s, outs);
            && (r.1 ==> Fail in outs || (s.kind == HalfClose && r.0.sent == s.sent + Msgs(Queue(s)) && r.0.dropped == s.dropped))
            && (!r.1 ==> r.0.kind == s.kind && r.0.dropped == s.dropped)
            && (!r.1 && s.kind == HalfClose ==> Queue(r.0) != [])
  {
    hide Sound, SendList, Base, Lists, OnWire, ForceClose;
    SoundSends(s);
    SendListBase(s, true, outs);
    SendListCloses(s, true, outs);
    var (s1, outs1, closed1) := SendList(s, true, outs);
    if !closed1 && s1.high == [] {
      SendListBase(s1, false, outs1) by { LowSends(s1); }
      SendListCloses(s1, false, outs1);
      var (s2, outs2, closed2) := SendList(s1, false, outs1);
      if s1.low == [] {
        NothingCloses(s1);
        assert s1.sent + [] == s1.sent;
      } else if !closed2 && s2.low == [] {
        NothingCloses(s2);
        assert s2.sent + [] == s2.sent;
      }
    }
  }

  lemma SoundSends(s: Sock)
    requires Sound(s) && s.kind != Invalid && s.dw.None? && s.hand.None?
    ensures Sending(s, true)
  {
  }

  lemma LowSends(s: Sock)
    requires Sending(s, true) && s.high == []
    ensures Sending(s, false)
  {
  }

  lemma NothingCloses(s: Sock)
    requires s.high == [] && s.low == [] && s.dw.None?
    ensures Queue(s) == [] && Msgs(Queue(s)) == []
    ensures ForceClose(s).sent == s.sent && ForceClose(s).dropped == s.dropped
  {
    assert s.dropped + [] + [] == s.dropped && s.dropped + [] == s.dropped;
  }

  /** So a full kernel buffer, an interruption or a partial write never closes a connection. */
  lemma FlushKeepsOpen(s: Sock, outs: seq<Outcome>)
    requires Sound(s) && s.kind == Connected && s.hand.None? && Fail !in outs
    ensures var r := Flush(s, outs); !r.1 && r.0.kind == Connected && r.0.dropped == s.dropped
  {
    hide Sound, Flush;
    FlushCloses(s, outs);
  }

  // ------------------------------------------------------------------ how far it gets

  /** Interruptions are tried again, the end of the kernel's room and failures end the list; and if
      the list is not sent to its end, the last outcome was one of these, or the kernel took a part
      of the buffer that is now first, all that it said it took. */
  lemma {:induction false} SendListUses(s: Sock, high: bool, outs: seq<Outcome>) returns (n: nat)
    requires forall b :: b in List(s, high) ==> Size(b) >= 0
    ensures var r := SendList(s, high, outs);
            && n <= |outs| && r.1 == outs[n..]
            && (r.2 ==> n > 0 && outs[n - 1] == Fail)
            && (forall i :: 0 <= i < n - 1 ==> outs[i] == Interrupted || outs[i].Accept?)
            && (!r.2 && List(r.0, high) != [] ==>
                  n == |outs| || (n > 0 && (outs[n - 1] == Again || (outs[n - 1].Accept? && outs[n - 1].n <= List(r.0, high)[0].off))))
    decreases |outs|
  {
    n := 0;
    var bufs := List(s, high);
    if bufs != [] && outs != [] {
      var rest := outs[1..];
      hide ForceClose;
      match outs[0]
      case Interrupted =>
        var m := SendListUses(s, high, rest);
        n := m + 1;
        assert rest[m..] == outs[n..];
      case Accept(k) =>
        assert Size(bufs[0]) >= 0;
        if k >= Size(bufs[0]) {
          CompleteFields(s, high);
          assert List(Complete(s, high), high) == bufs[1..];
          var m := SendListUses(Complete(s, high), high, rest);
          n := m + 1;
          assert rest[m..] == outs[n..];
        } else {
          n := 1;
        }
      case _ => n := 1;
    }
  }

  /** the kernel takes whatever it is given */
  predicate Greedy(outs: seq<Outcome>, bufs: seq<Buf>)
  {
    |outs| >= |bufs| && forall i :: 0 <= i < |outs| ==> outs[i].Accept? && forall b :: b in bufs ==> outs[i].n >= Size(b)
  }

  lemma {:induction false} SendListDrains(s: Sock, high: bool, outs: seq<Outcome>)
    requires (forall b :: b in List(s, high) ==> Size(b) >= 0) && Greedy(outs, List(s, high))
    ensures var r := SendList(s, high, outs);
            && !r.2 && List(r.0, high) == [] && r.1 == outs[|List(s, high)|..] && r.0.sent == s.sent + Msgs(List(s, high))
    decreases |List(s, high)|
  {
    var bufs := List(s, high);
    if bufs != [] {
      hide ForceClose, Advance, Complete, Msgs;
      var s', rest := Complete(s, high), outs[1..];
      assert bufs[0] in bufs && outs[0].Accept?;
      Completed(s, high);
      assert Greedy(rest, bufs[1..]);
      SendListDrains(s', high, rest);
      MsgsFirst(s.sent, bufs);
      assert rest[|bufs| - 1..] == outs[|bufs|..];
    } else {
      assert s.sent + [] == s.sent;
    }
  }

  lemma Completed(s: Sock, high: bool)
    requires List(s, high) != [] && Size(List(s, high)[0]) >= 0
    ensures List(Complete(s, high), high) == List(s, high)[1..] && Complete(s, high).sent == s.sent + [List(s, high)[0].msg]
  {
  }

  lemma MsgsFirst(sent: seq<Bytes>, bufs: seq<Buf>)
    requires bufs != []
    ensures sent + [bufs[0].msg] + Msgs(bufs[1..]) == sent + Msgs(bufs)
  {
  }

  /** And then everything that waits goes out, in its order. */
  lemma FlushDrains(s: Sock, outs: seq<Outcome>)
    requires Sound(s) && s.kind == Connected && s.hand.None? && Greedy(outs, Queue(TakeDirect(s)))
    ensures var r := Flush(s, outs); !r.1 && Queue(r.0) == [] && r.0.sent == s.sent + Held(s.dw) + Msgs(Queue(s))
  {
    hide Sound, SendList, Order, Base, TakeDirect, ForceClose;
    TakeDirectSound(s);
    var t := TakeDirect(s);
    Ordered(s, t);
    SoundSizes(t);
    assert Greedy(outs, t.high) by { assert forall b :: b in t.high ==> b in Queue(t); }
    SendListDrains(t, true, outs);
    SendListCloses(t, true, outs);
    var (s1, outs1, _) := SendList(t, true, outs);
    assert Greedy(outs1, t.low) by { assert forall b :: b in t.low ==> b in Queue(t); }
    SendListDrains(s1, false, outs1);
    SendListCloses(s1, false, outs1);
    MsgsConcat(t.high, t.low);
    assert t.sent + Msgs(t.high) + Msgs(t.low) == t.sent + (Msgs(t.high) + Msgs(t.low));
  }

  lemma SoundSizes(s: Sock)
    requires Sound(s)
    ensures (forall b :: b in s.high ==> Size(b) >= 0) && forall b :: b in s.low ==> Size(b) >= 0
  {
    Sizes(s);
  }

  lemma MsgsConcat(a: seq<Buf>, b: seq<Buf>)
    ensures Msgs(a + b) == Msgs(a) + Msgs(b)
  {
  }

  // ------------------------------------------------------------------ where a message queues

  /** On the way to the wire a low message comes after everything that waits, a normal one after
      the high list only; in front of nothing they are the same. */
  lemma SendSocketOrder(s: Sock, msg: Bytes, low: bool)
    requires s.kind == Connected
    ensures var s' := SendSocket(s, msg, low);
            && Msgs(Queue(s')) == (if low then Msgs(Queue(s)) + [msg] else Msgs(s.high) + [msg] + Msgs(s.low))
            && s'.sent == s.sent && s'.dropped == s.dropped && s'.kind == Connected
            && (low && Queue(s) != [] ==> s'.high == s.high)
            && (low && Queue(s) == [] ==> s'.low == [])
            && (!low ==> s'.low == s.low)
  {
    MsgsConcat(s.high, s.low);
    MsgsConcat(s.high + [Buf(msg, 0)], s.low);
    MsgsConcat(s.high, [Buf(msg, 0)]);
    MsgsConcat(Queue(s), [Buf(msg, 0)]);
    assert s.high + (s.low + [Buf(msg, 0)]) == Queue(s) + [Buf(msg, 0)];
  }
}
