/** The write path of one TCP socket, as the socket thread runs it. */
module SocketWrite {
  // Two lists of buffers, a buffer left over from a direct write, partial writes, and closing.

  type Bytes = seq<int>

  datatype Option<T> = None | Some(value: T)

  /** A buffer whose first 'off' bytes are already on the wire. */
  datatype Buf = Buf(msg: Bytes, off: nat)

  datatype Kind = Connected | HalfClose | Invalid

  /** What write() does: accept some bytes, get interrupted, accept none for now, or fail for good. */
  datatype Outcome = Accept(n: nat) | Interrupted | Again | Fail

  /** One successful write: the bytes from..to of a message. */
  datatype Chunk = Chunk(msg: Bytes, from: nat, to: nat)

  /** The socket's fields; then what the kernel accepted, write by write, the messages that are
      completely sent, the messages freed unsent, and the buffer whose sending was cut short by
      closing. 'hand' is the unsent rest that a direct writer has not stored in dw yet. */
  datatype Sock = Sock(kind: Kind, high: seq<Buf>, low: seq<Buf>, wbSize: int, dw: Option<Buf>, hand: Option<Buf>,
    log: seq<Chunk>, sent: seq<Bytes>, dropped: seq<Bytes>, torn: Option<Buf>)

  function Size(b: Buf): int { |b.msg| - b.off }

  function Remaining(bufs: seq<Buf>): int
  {
    if bufs == [] then 0 else Size(bufs[0]) + Remaining(bufs[1..])
  }

  function Flat(msgs: seq<Bytes>): Bytes
  {
    if msgs == [] then [] else Flat(msgs[..|msgs| - 1]) + msgs[|msgs| - 1]
  }

  function Taken(c: Chunk): Bytes
  {
    if c.from <= c.to <= |c.msg| then c.msg[c.from..c.to] else []
  }

  /** the bytes on the wire */
  function Wire(log: seq<Chunk>): Bytes
  {
    if log == [] then [] else Wire(log[..|log| - 1]) + Taken(log[|log| - 1])
  }

  function Emit(log: seq<Chunk>, msg: Bytes, from: nat, to: nat): seq<Chunk>
  {
    if from < to then log + [Chunk(msg, from, to)] else log
  }

  /** the last write ended a message */
  predicate Clean(log: seq<Chunk>)
  {
    log == [] || log[|log| - 1].to == |log[|log| - 1].msg|
  }

  predicate EndsIn(log: seq<Chunk>, msg: Bytes, off: nat)
  {
    log != [] && log[|log| - 1].msg == msg && log[|log| - 1].to == off
  }

  /** A write either begins a message where the one before is complete, or continues exactly
      where the write before stopped. */
  predicate Follows(log: seq<Chunk>, i: nat)
    requires i < |log|
  {
    if log[i].from == 0 then Clean(log[..i]) else EndsIn(log[..i], log[i].msg, log[i].from)
  }

  /** No message on the wire is interrupted by another one. */
  predicate Intact(log: seq<Chunk>)
  {
    forall i :: 0 <= i < |log| ==> Follows(log, i)
  }

  function Msgs(bufs: seq<Buf>): (m: seq<Bytes>)
    ensures |m| == |bufs|
  {
    seq(|bufs|, (i: nat) requires i < |bufs| => bufs[i].msg)
  }

  function Held(o: Option<Buf>): seq<Bytes>
  {
    match o
    case None => []
    case Some(b) => [b.msg]
  }

  // ------------------------------------------------------------------ the invariant

  /** no byte of any of them was sent */
  predicate Whole(bufs: seq<Buf>)
  {
    forall b :: b in bufs ==> b.off == 0
  }

  predicate Proper(o: Option<Buf>)
  {
    o.Some? ==> o.value.off < |o.value.msg|
  }

  function Queue(s: Sock): seq<Buf> { s.high + s.low }

  /** The one message of which a part may be on the wire. */
  function Current(s: Sock): Option<Buf>
  {
    if s.torn.Some? then s.torn
    else if s.hand.Some? then s.hand
    else if s.dw.Some? then s.dw
    else if Queue(s) != [] then Some(Queue(s)[0])
    else None
  }

  function Begun(o: Option<Buf>): Bytes
    requires o.Some? ==> o.value.off <= |o.value.msg|
  {
    match o
    case None => []
    case Some(b) => b.msg[..b.off]
  }

  predicate Untouched(o: Option<Buf>)
  {
    o.Some? ==> o.value.off == 0
  }

  /** At most the very first buffer is begun, and only if no direct write and no closing left a
      begun message behind. */
  predicate Lists(s: Sock)
  {
    var q := Queue(s);
    && (q != [] ==> Whole(q[1..]) && (q[0].off == 0 || q[0].off < |q[0].msg|))
    && (s.dw.Some? || s.hand.Some? || s.torn.Some? ==> Whole(q))
    && Proper(s.dw) && Proper(s.hand) && Proper(s.torn)
    && (s.hand.Some? ==> s.dw.None?)
    && (s.torn.Some? ==> s.torn.value.off > 0 && Untouched(s.hand) && Untouched(s.dw))
  }

  /** Whole messages back to back, then at most the beginning of one more. */
  predicate OnWire(s: Sock)
    requires Lists(s)
  {
    var c := Current(s);
    && Wire(s.log) == Flat(s.sent) + Begun(c) && Intact(s.log)
    && (if c.Some? && c.value.off > 0 then EndsIn(s.log, c.value.msg, c.value.off) else Clean(s.log))
  }

  predicate Counted(s: Sock)
  {
    s.wbSize == Remaining(s.high) + Remaining(s.low)
  }

  /** what holds even in the middle of a flush */
  predicate Base(s: Sock)
  {
    && Lists(s) && OnWire(s)
    && (s.kind != Invalid ==> Counted(s) && s.torn.None?)
    && (s.kind == Invalid ==> s.high == [] && s.low == [] && s.dw.None? && s.hand.None?)
  }

  /** between two steps: the low list is never begun */
  predicate Sound(s: Sock)
  {
    Base(s) && Whole(s.low)
  }

  // ------------------------------------------------------------------ operations

  /** close the socket and free what it still holds */
  function FreeLists(s: Sock): Sock
  {
    var q := Queue(s);
    var torn := if q != [] && q[0].off > 0 then Some(q[0]) else s.torn;
    s.(high := [], low := [], dropped := s.dropped + Msgs(s.high) + Msgs(s.low), torn := torn)
  }

  function CloseFd(s: Sock): Sock
  {
    var torn := if s.dw.Some? && s.dw.value.off > 0 then s.dw else s.torn;
    s.(kind := Invalid, dw := None, dropped := s.dropped + Held(s.dw), torn := torn)
  }

  function ForceClose(s: Sock): Sock
  {
    if s.kind == Invalid then s else CloseFd(FreeLists(s))
  }

  function List(s: Sock, high: bool): seq<Buf> { if high then s.high else s.low }

  function SetList(s: Sock, high: bool, bufs: seq<Buf>): Sock
  {
    if high then s.(high := bufs) else s.(low := bufs)
  }

  /** send_list_tcp: write from the front until the kernel stops accepting. */
  function SendList(s: Sock, high: bool, outs: seq<Outcome>): (r: (Sock, seq<Outcome>, bool))
    decreases |outs|
  {
    var bufs := List(s, high);
    if bufs == [] then (s, outs, false)
    else if outs == [] then (s, outs, false)
    else
      match outs[0]
      case Interrupted => SendList(s, high, outs[1..])
      case Again => (s, outs[1..], false)
      case Fail => (ForceClose(s), outs[1..], true)
      case Accept(k) =>
        var b := bufs[0];
        var n := if k < Size(b) then k else Size(b);
        if n < 0 then (s, outs, false)
        else if n != Size(b) then (Advance(s, high, n), outs[1..], false)
        else SendList(Complete(s, high), high, outs[1..])
  }

  /** a partial write of the first buffer */
  function Advance(s: Sock, high: bool, n: nat): Sock
    requires List(s, high) != [] && n <= Size(List(s, high)[0])
  {
    var bufs := List(s, high);
    var b := bufs[0];
    SetList(s, high, [b.(off := b.off + n)] + bufs[1..]).(wbSize := s.wbSize - n, log := Emit(s.log, b.msg, b.off, b.off + n))
  }

  /** the rest of the first buffer is accepted */
  function Complete(s: Sock, high: bool): Sock
    requires List(s, high) != [] && Size(List(s, high)[0]) >= 0
  {
    var bufs := List(s, high);
    var b := bufs[0];
    SetList(s, high, bufs[1..]).(wbSize := s.wbSize - Size(b), log := Emit(s.log, b.msg, b.off, |b.msg|), sent := s.sent + [b.msg])
  }

  predicate Uncomplete(bufs: seq<Buf>) { bufs != [] && bufs[0].off != 0 }

  /** The begun head of the low list becomes the high list. */
  function Raise(s: Sock): Sock
    requires s.low != []
  {
    s.(high := [s.low[0]], low := s.low[1..])
  }

  /** send_buffer_ */
  function FlushLists(s: Sock, outs: seq<Outcome>): (Sock, bool)
  {
    var (s1, outs1, closed1) := SendList(s, true, outs);
    if closed1 then (s1, true)
    else if s1.high != [] then (s1, false)
    else if s1.low != [] then
      var (s2, outs2, closed2) := SendList(s1, false, outs1);
      if closed2 then (s2, true)
      else if Uncomplete(s2.low) then (Raise(s2), false)
      else if s2.low != [] then (s2, false)
      else Drained(s2)
    else Drained(s1)
  }

  /** Everything is sent: a half-closed socket may now go. */
  function Drained(s: Sock): (Sock, bool)
  {
    if s.kind == HalfClose then (ForceClose(s), true) else (s, false)
  }

  /** the rest of a direct write goes in front of everything else */
  function TakeDirect(s: Sock): Sock
  {
    match s.dw
    case None => s
    case Some(b) => s.(wbSize := s.wbSize + Size(b), high := [b] + s.high, dw := None)
  }

  /** send_buffer, when the lock is free */
  function Flush(s: Sock, outs: seq<Outcome>): (Sock, bool)
  {
    FlushLists(TakeDirect(s), outs)
  }

  /** send_socket: a message from the pipe */
  function SendSocket(s: Sock, msg: Bytes, low: bool): Sock
  {
    if s.kind == Invalid || s.kind == HalfClose then s.(dropped := s.dropped + [msg])
    else
      var b := Buf(msg, 0);
      var s' := s.(wbSize := s.wbSize + |msg|);
      if (s.high == [] && s.low == [] && s.kind == Connected) || !low then s'.(high := s.high + [b]) else s'.(low := s.low + [b])
  }

  // ------------------------------------------------------------------ every operation keeps the wire intact

  lemma FlatSnoc(msgs: seq<Bytes>, m: Bytes)
    ensures Flat(msgs + [m]) == Flat(msgs) + m
  {
    assert (msgs + [m])[..|msgs|] == msgs;
  }

  lemma {:induction false} RemainingConcat(a: seq<Buf>, b: seq<Buf>)
    ensures Remaining(a + b) == Remaining(a) + Remaining(b)
  {
    if a == [] {
      assert a + b == b;
    } else {
      assert (a + b)[1..] == a[1..] + b;
      RemainingConcat(a[1..], b);
    }
  }

  /** the list that is being sent comes first */
  predicate Sending(s: Sock, high: bool)
  {
    Base(s) && s.kind != Invalid && s.dw.None? && s.hand.None? && (!high ==> s.high == [])
  }

  /** all messages that are sent or wait in the lists, in the order they will be on the wire */
  function Order(s: Sock): seq<Bytes>
  {
    s.sent + Msgs(Queue(s))
  }

  lemma QueueFront(s: Sock, high: bool)
    requires List(s, high) != [] && (!high ==> s.high == [])
    ensures Queue(s) != [] && Queue(s)[0] == List(s, high)[0]
    ensures forall bufs :: Queue(SetList(s, high, bufs)) == bufs + Queue(s)[|List(s, high)|..]
    ensures Queue(SetList(s, high, List(s, high)[1..])) == Queue(s)[1..]
  {
    forall bufs ensures Queue(SetList(s, high, bufs)) == bufs + Queue(s)[|List(s, high)|..] { }
  }

  lemma WireSnoc(log: seq<Chunk>, c: Chunk)
    ensures Wire(log + [c]) == Wire(log) + Taken(c)
  {
    assert (log + [c])[..|log|] == log;
  }

  lemma EmitIntact(log: seq<Chunk>, msg: Bytes, from: nat, to: nat)
    requires Intact(log) && from <= to <= |msg|
    requires if from == 0 then Clean(log) else EndsIn(log, msg, from)
    ensures var log' := Emit(log, msg, from, to);
            && Intact(log') && Wire(log') == Wire(log) + msg[from..to]
            && (if 0 < to then EndsIn(log', msg, to) else Clean(log'))
            && (to == |msg| ==> Clean(log'))
  {
    hide Wire;
    WireSnoc(log, Chunk(msg, from, to));
    if from < to {
      var log' := Emit(log, msg, from, to);
      assert log'[..|log|] == log;
      forall i | 0 <= i < |log'| ensures Follows(log', i) {
        if i < |log| { assert log'[..i] == log[..i] && Follows(log, i); }
      }
    }
  }

  lemma AdvanceBase(s: Sock, high: bool, n: nat)
    requires Sending(s, high) && List(s, high) != [] && n < Size(List(s, high)[0])
    ensures Sending(Advance(s, high, n), high) && Order(Advance(s, high, n)) == Order(s)
  {
    hide Lists, OnWire, Remaining;
    var bufs := List(s, high);
    AdvanceWire(s, high, n);
    FrontRemaining(bufs, bufs[0].(off := bufs[0].off + n));
  }

  lemma AdvanceWire(s: Sock, high: bool, n: nat)
    requires Sending(s, high) && List(s, high) != [] && n < Size(List(s, high)[0])
    ensures Lists(Advance(s, high, n)) && OnWire(Advance(s, high, n)) && Order(Advance(s, high, n)) == Order(s)
  {
    hide Lists, OnWire, Sending, Order, Current, Advance, Emit, Intact, Wire, Flat, Clean, EndsIn, Remaining;
    AdvanceLists(s, high, n);
    SendingParts(s, high);
    var b := List(s, high)[0];
    Emitted(s, b, b.off + n);
    WireBegun(Advance(s, high, n), b.(off := b.off + n));
  }

  /** More bytes of the current message. */
  lemma Emitted(s: Sock, b: Buf, to: nat)
    requires Lists(s) && OnWire(s) && Current(s) == Some(b) && b.off <= to <= |b.msg|
    ensures var log' := Emit(s.log, b.msg, b.off, to);
            && Intact(log') && Wire(log') == Flat(s.sent) + b.msg[..to]
            && (if 0 < to then EndsIn(log', b.msg, to) else Clean(log'))
            && (to == |b.msg| ==> Clean(log'))
  {
    hide Lists, Current, Flat, Wire, Intact, Emit, Clean, EndsIn;
    EmitIntact(s.log, b.msg, b.off, to);
    assert b.msg[..b.off] + b.msg[b.off..to] == b.msg[..to];
    assert Flat(s.sent) + b.msg[..b.off] + b.msg[b.off..to] == Flat(s.sent) + (b.msg[..b.off] + b.msg[b.off..to]);
  }

  lemma WireBegun(s: Sock, b: Buf)
    requires Lists(s) && Current(s) == Some(b) && b.off <= |b.msg|
    requires Intact(s.log) && Wire(s.log) == Flat(s.sent) + b.msg[..b.off] && if 0 < b.off then EndsIn(s.log, b.msg, b.off) else Clean(s.log)
    ensures OnWire(s)
  {
    hide Lists, Current, Flat, Wire, Intact, Clean, EndsIn;
  }

  lemma AdvanceLists(s: Sock, high: bool, n: nat)
    requires Sending(s, high) && List(s, high) != [] && n < Size(List(s, high)[0])
    ensures var s', b := Advance(s, high, n), List(s, high)[0];
            && Lists(s') && Order(s') == Order(s)
            && Current(s) == Some(b) && Current(s') == Some(b.(off := b.off + n))
            && s'.log == Emit(s.log, b.msg, b.off, b.off + n) && s'.sent == s.sent
  {
    hide Base, Advance, Emit;
    AdvanceQueue(s, high, n);
    SendingParts(s, high);
    assert Msgs(Queue(Advance(s, high, n))) == Msgs(Queue(s));
  }

  lemma SendingParts(s: Sock, high: bool)
    requires Sending(s, high)
    ensures Lists(s) && OnWire(s) && s.torn.None? && s.dw.None? && s.hand.None?
  {
  }

  /** the front of the queue is the buffer that is written */
  lemma AdvanceQueue(s: Sock, high: bool, n: nat)
    requires (!high ==> s.high == []) && List(s, high) != [] && n < Size(List(s, high)[0])
    ensures var s', b := Advance(s, high, n), List(s, high)[0];
            && Queue(s) != [] && Queue(s)[0] == b && Queue(s') == [b.(off := b.off + n)] + Queue(s)[1..]
            && s' == s.(high := s'.high, low := s'.low, wbSize := s'.wbSize, log := Emit(s.log, b.msg, b.off, b.off + n))
  {
    hide Emit;
    QueueFront(s, high);
    var b, bufs := List(s, high)[0], List(s, high);
    var b' := b.(off := b.off + n);
    assert [b'] + bufs[1..] + Queue(s)[|bufs|..] == [b'] + Queue(s)[1..];
  }

  lemma CompleteQueue(s: Sock, high: bool)
    requires (!high ==> s.high == []) && List(s, high) != [] && Size(List(s, high)[0]) >= 0
    ensures var s', b := Complete(s, high), List(s, high)[0];
            && Queue(s) != [] && Queue(s)[0] == b && Queue(s') == Queue(s)[1..] && s'.sent == s.sent + [b.msg]
            && s' == s.(high := s'.high, low := s'.low, wbSize := s'.wbSize, log := Emit(s.log, b.msg, b.off, |b.msg|), sent := s'.sent)
  {
    hide Emit;
    QueueFront(s, high);
  }

  lemma FrontRemaining(bufs: seq<Buf>, b: Buf)
    requires bufs != []
    ensures Remaining(bufs) == Size(bufs[0]) + Remaining(bufs[1..])
    ensures Remaining([b] + bufs[1..]) == Size(b) + Remaining(bufs[1..])
  {
    assert ([b] + bufs[1..])[1..] == bufs[1..];
  }

  lemma CompleteBase(s: Sock, high: bool)
    requires Sending(s, high) && List(s, high) != []
    ensures Size(List(s, high)[0]) >= 0
    ensures Sending(Complete(s, high), high) && Order(Complete(s, high)) == Order(s)
  {
    hide Lists, OnWire, Remaining;
    var bufs := List(s, high);
    CompleteWire(s, high);
    assert s.kind != Invalid;
    FrontRemaining(bufs, bufs[0]);
  }

  lemma CompleteWire(s: Sock, high: bool)
    requires Sending(s, high) && List(s, high) != []
    ensures Size(List(s, high)[0]) >= 0
    ensures Lists(Complete(s, high)) && OnWire(Complete(s, high)) && Order(Complete(s, high)) == Order(s)
  {
    hide Lists, OnWire, Sending, Order, Current, Complete, Emit, Queue, Intact, Wire, Clean, EndsIn, Remaining;
    SendingParts(s, high);
    FirstSize(s, high);
    CompleteLists(s, high);
    var s', b := Complete(s, high), List(s, high)[0];
    Emitted(s, b, |b.msg|);
    assert b.msg[..|b.msg|] == b.msg;
    FlatSnoc(s.sent, b.msg);
    CurrentWhole(s');
    WireClean(s');
  }

  lemma CompleteLists(s: Sock, high: bool)
    requires Sending(s, high) && List(s, high) != [] && Size(List(s, high)[0]) >= 0
    ensures var s', b := Complete(s, high), List(s, high)[0];
            && Lists(s') && Order(s') == Order(s) && Current(s) == Some(b)
            && s'.log == Emit(s.log, b.msg, b.off, |b.msg|) && s'.sent == s.sent + [b.msg]
            && Whole(Queue(s')) && s'.torn.None? && s'.hand.None? && s'.dw.None?
  {
    hide OnWire, Complete, Emit;
    CompleteQueue(s, high);
    SendingParts(s, high);
    assert s.sent + [List(s, high)[0].msg] + Msgs(Queue(s)[1..]) == s.sent + Msgs(Queue(s));
  }

  lemma WireClean(s: Sock)
    requires Lists(s) && Intact(s.log) && Clean(s.log) && Wire(s.log) == Flat(s.sent)
    requires Current(s).Some? ==> Current(s).value.off == 0
    ensures OnWire(s)
  {
    hide Lists, Current, Flat, Wire, Intact, Clean, EndsIn;
    assert Flat(s.sent) + [] == Flat(s.sent);
  }

  lemma FirstSize(s: Sock, high: bool)
    requires Sending(s, high) && List(s, high) != []
    ensures Size(List(s, high)[0]) >= 0
  {
    Sizes(s);
  }

  lemma CurrentWhole(s: Sock)
    requires Whole(Queue(s)) && s.torn.None? && s.hand.None? && s.dw.None?
    ensures Current(s).Some? ==> Current(s).value.off == 0
  {
    if Queue(s) != [] { assert Queue(s)[0] in Queue(s); }
  }

  lemma ForceCloseSound(s: Sock)
    requires Base(s) && s.hand.None?
    ensures Sound(ForceClose(s)) && ForceClose(s).kind == Invalid && ForceClose(s).sent == s.sent
  {
  }

  /** Sending from the front keeps the wire intact, and the order. */
  lemma {:induction false} SendListBase(s: Sock, high: bool, outs: seq<Outcome>)
    requires Sending(s, high)
    ensures var r := SendList(s, high, outs);
            if r.2 then Sound(r.0) && r.0.kind == Invalid
            else Sending(r.0, high) && r.0.kind == s.kind && Order(r.0) == Order(s) && (high ==> r.0.low == s.low)
    decreases |outs|
  {
    hide Base, Order, Advance, Complete;
    var bufs := List(s, high);
    if bufs != [] && outs != [] {
      match outs[0]
      case Interrupted => SendListBase(s, high, outs[1..]);
      case Again =>
      case Fail => ForceCloseSound(s);
      case Accept(k) =>
        var b := bufs[0];
        CompleteBase(s, high);
        var n := if k < Size(b) then k else Size(b);
        if n != Size(b) {
          AdvanceBase(s, high, n);
          OtherFields(s, high, n);
        } else {
          OtherFields(s, high, n);
          SendListBase(Complete(s, high), high, outs[1..]);
        }
    }
  }

  lemma OtherFields(s: Sock, high: bool, n: nat)
    requires List(s, high) != [] && 0 <= n <= Size(List(s, high)[0])
    ensures Advance(s, high, n).kind == s.kind && Complete(s, high).kind == s.kind
    ensures high ==> Advance(s, high, n).low == s.low && Complete(s, high).low == s.low
  {
  }

  /** send_buffer_: its assertions hold, the wire stays intact, and unless it closes the socket
      no message overtakes another. */
  lemma FlushListsSound(s: Sock, outs: seq<Outcome>)
    requires Sound(s) && s.kind != Invalid && s.dw.None? && s.hand.None?
    ensures var r := FlushLists(s, outs);
            && Sound(r.0) && (r.1 ==> r.0.kind == Invalid)
            && (!r.1 ==> r.0.kind == s.kind && r.0.dw.None? && r.0.hand.None? && Order(r.0) == Order(s))
  {
    hide Order, SendList;
    SendListBase(s, true, outs);
    var (s1, outs1, closed1) := SendList(s, true, outs);
    if !closed1 && s1.high == [] {
      if s1.low != [] {
        SendListBase(s1, false, outs1);
        var (s2, _, closed2) := SendList(s1, false, outs1);
        if !closed2 {
          if Uncomplete(s2.low) { RaiseSound(s2); } else { LowWhole(s2); ForceCloseSound(s2); }
        }
      } else {
        ForceCloseSound(s1);
      }
    }
  }

  lemma LowWhole(s: Sock)
    requires Base(s) && s.high == [] && !Uncomplete(s.low)
    ensures Sound(s)
  {
    assert Queue(s) == s.low;
    if s.low != [] { assert s.low == [s.low[0]] + s.low[1..]; }
  }

  lemma RaiseSound(s: Sock)
    requires Base(s) && s.high == [] && s.low != []
    ensures Sound(Raise(s)) && Order(Raise(s)) == Order(s)
  {
    hide Wire, Flat, Intact, Clean, EndsIn, Remaining;
    assert Queue(s) == s.low && [s.low[0]] + s.low[1..] == s.low;
    assert Queue(Raise(s)) == Queue(s);
    FrontRemaining(s.low, s.low[0]);
    FrontRemaining([s.low[0]], s.low[0]);
    assert [s.low[0]][1..] == [];
    NoneRemaining();
  }

  lemma TakeDirectSound(s: Sock)
    requires Sound(s) && s.kind != Invalid && s.hand.None?
    ensures Sound(TakeDirect(s)) && TakeDirect(s).dw.None? && TakeDirect(s).kind == s.kind && TakeDirect(s).hand.None?
    ensures Order(TakeDirect(s)) == s.sent + Held(s.dw) + Msgs(Queue(s))
  {
    hide Wire, Flat, Intact, Remaining;
    if s.dw.Some? {
      var s', b := TakeDirect(s), s.dw.value;
      assert Queue(s') == [b] + Queue(s) && Queue(s')[1..] == Queue(s);
      assert Current(s) == Some(b) && Current(s') == Some(b);
      assert Msgs(Queue(s')) == [b.msg] + Msgs(Queue(s));
      RemainingConcat([b], s.high);
      FrontRemaining([b], b);
      assert [b][1..] == [];
      NoneRemaining();
    }
  }

  lemma NoneRemaining()
    ensures Remaining([]) == 0
  {
  }

  /** send_buffer */
  lemma FlushSound(s: Sock, outs: seq<Outcome>)
    requires Sound(s) && s.kind != Invalid && s.hand.None?
    ensures var r := Flush(s, outs);
            && Sound(r.0) && r.0.dw.None? && r.0.hand.None? && (r.1 ==> r.0.kind == Invalid)
            && (!r.1 ==> r.0.kind == s.kind && Order(r.0) == s.sent + Held(s.dw) + Msgs(Queue(s)))
  {
    hide Sound, Order;
    TakeDirectSound(s);
    FlushListsSound(TakeDirect(s), outs);
    InvalidEmpty(Flush(s, outs).0);
  }

  lemma InvalidEmpty(s: Sock)
    requires Sound(s)
    ensures s.kind == Invalid ==> s.high == [] && s.low == [] && s.dw.None? && s.hand.None?
  {
  }

  lemma SendSocketSound(s: Sock, msg: Bytes, low: bool)
    requires Sound(s)
    ensures Sound(SendSocket(s, msg, low)) && SendSocket(s, msg, low).kind == s.kind && SendSocket(s, msg, low).dw == s.dw
    ensures Whole(s.high) ==> Whole(SendSocket(s, msg, low).high)
  {
    hide Sound, Remaining, Flat, Wire, Intact;
    if s.kind == Connected {
      if SendSocket(s, msg, low).low == s.low { AppendHigh(s, Buf(msg, 0)); } else { AppendLow(s, Buf(msg, 0)); }
    } else {
      DroppedSound(s, msg);
    }
  }

  lemma DroppedSound(s: Sock, msg: Bytes)
    requires Sound(s)
    ensures Sound(s.(dropped := s.dropped + [msg]))
  {
  }

  lemma AppendHigh(s: Sock, b: Buf)
    requires Sound(s) && s.kind == Connected && b.off == 0
    ensures Sound(s.(high := s.high + [b], wbSize := s.wbSize + |b.msg|))
  {
    hide Flat, Wire, Intact;
    var s' := s.(high := s.high + [b], wbSize := s.wbSize + |b.msg|);
    RemainingConcat(s.high, [b]);
    assert Queue(s') == s.high + [b] + s.low;
    assert s.high != [] ==> Queue(s')[1..] == s.high[1..] + [b] + s.low && Queue(s)[1..] == s.high[1..] + s.low;
  }

  lemma AppendLow(s: Sock, b: Buf)
    requires Sound(s) && s.kind == Connected && b.off == 0
    ensures Sound(s.(low := s.low + [b], wbSize := s.wbSize + |b.msg|))
  {
    hide Flat, Wire, Intact;
    var s' := s.(low := s.low + [b], wbSize := s.wbSize + |b.msg|);
    RemainingConcat(s.low, [b]);
    assert Queue(s') == Queue(s) + [b];
    assert Queue(s) != [] ==> Queue(s')[1..] == Queue(s)[1..] + [b];
  }

  // ------------------------------------------------------------------ the socket thread's code

  class Socket {
    var kind: Kind
    var high: seq<Buf>
    var low: seq<Buf>
    var wbSize: int
    var dwBuffer: Option<Bytes>
    var dwOffset: nat
    ghost var hand: Option<Buf>
    ghost var log: seq<Chunk>
    ghost var sent: seq<Bytes>
    ghost var dropped: seq<Bytes>
    ghost var torn: Option<Buf>

    ghost function Look(): Sock
      reads this
    {
      Sock(kind, high, low, wbSize, if dwBuffer.Some? then Some(Buf(dwBuffer.value, dwOffset)) else None, hand, log, sent, dropped, torn)
    }

    /** Free everything that waits and close the descriptor. */
    method Close()
      modifies this
      ensures Look() == ForceClose(old(Look()))
    {
      if kind == Invalid { return; }
      ghost var q := Queue(Look());
      if q != [] && q[0].off > 0 { torn := Some(q[0]); }
      dropped := dropped + Msgs(high) + Msgs(low);
      high, low := [], [];
      kind := Invalid;
      if dwBuffer.Some? {
        if dwOffset > 0 { torn := Some(Buf(dwBuffer.value, dwOffset)); }
        dropped := dropped + [dwBuffer.value];
        dwBuffer := None;
      }
    }

    method SendListTcp(isHigh: bool, outs: seq<Outcome>) returns (rest: seq<Outcome>, closed: bool)
      requires forall b :: b in List(Look(), isHigh) ==> Size(b) >= 0
      modifies this
      ensures (Look(), rest, closed) == SendList(old(Look()), isHigh, outs)
    {
      hide ForceClose, Queue, Advance, Complete;
      rest := outs;
      while (if isHigh then high else low) != []
        invariant forall b :: b in List(Look(), isHigh) ==> Size(b) >= 0
        invariant SendList(Look(), isHigh, rest) == SendList(old(Look()), isHigh, outs)
        decreases |if isHigh then high else low|
      {
        var tmp := (if isHigh then high else low)[0];
        label write:
        while true
          invariant Look() == old@write(Look())
          invariant SendList(Look(), isHigh, rest) == SendList(old(Look()), isHigh, outs)
          decreases |rest|
        {
          if rest == [] { return rest, false; }
          var out := rest[0];
          rest := rest[1..];
          match out
          case Interrupted => continue;
          case Again => return rest, false;
          case Fail =>
            Close();
            return rest, true;
          case Accept(k) =>
            var n := if k < Size(tmp) then k else Size(tmp);
            Wrote(isHigh, n);
            if n != Size(tmp) { return rest, false; }
            assert SendList(Complete(old@write(Look()), isHigh), isHigh, rest) == SendList(old(Look()), isHigh, outs);
            break;
        }
        if isHigh { high := high[1..]; } else { low := low[1..]; }
        assert Look() == Complete(old@write(Look()), isHigh);
      }
      closed := false;
    }

    /** Account for n accepted bytes of the first buffer, and step over them. */
    method Wrote(isHigh: bool, n: nat)
      requires List(Look(), isHigh) != [] && n <= Size(List(Look(), isHigh)[0])
      modifies this
      ensures List(Look(), isHigh) != [] && forall b :: b in List(Look(), isHigh)[1..] ==> b in old(List(Look(), isHigh))
      ensures n < Size(old(List(Look(), isHigh)[0])) ==> Look() == Advance(old(Look()), isHigh, n)
      ensures n == Size(old(List(Look(), isHigh)[0])) ==>
        SetList(Look(), isHigh, List(Look(), isHigh)[1..]) == Complete(old(Look()), isHigh) && |List(Look(), isHigh)| == |old(List(Look(), isHigh))|
    {
      var tmp := if isHigh then high[0] else low[0];
      wbSize := wbSize - n;
      log := Emit(log, tmp.msg, tmp.off, tmp.off + n);
      if n != Size(tmp) {
        var begun := tmp.(off := tmp.off + n);
        if isHigh { high := [begun] + high[1..]; } else { low := [begun] + low[1..]; }
      } else {
        sent := sent + [tmp.msg];
        assert tmp.off + n == |tmp.msg|;
      }
    }

    method RaiseUncomplete()
      requires low != [] && high == []
      modifies this
      ensures Look() == Raise(old(Look()))
    {
      var tmp := low[0];
      low := low[1..];
      assert high == [];
      high := [tmp];
    }

    /** Send the lists, with the lock held. Both assertions of the source are proved here. */
    method SendBufferLocked(outs: seq<Outcome>) returns (closed: bool)
      requires Sound(Look()) && kind != Invalid && dwBuffer.None? && hand.None?
      modifies this
      ensures (Look(), closed) == FlushLists(old(Look()), outs)
    {
      hide Base, SendList;
      assert !Uncomplete(low) by { assert low != [] ==> low[0] in low; }
      Sizes(Look());
      SendListBase(Look(), true, outs);
      var rest;
      rest, closed := SendListTcp(true, outs);
      if closed { return; }
      if high == [] {
        if low != [] {
          Sizes(Look());
          SendListBase(Look(), false, rest);
          rest, closed := SendListTcp(false, rest);
          if closed { return; }
          if Uncomplete(low) {
            NothingHigh(Look());
            RaiseUncomplete();
            return false;
          }
          if low != [] { return false; }
        }
        NothingLeft(Look());
        assert high == [] && low == [] && wbSize == 0;
        if kind == HalfClose {
          Close();
          return true;
        }
      }
      closed := false;
    }

    /** Send what waits, unless a direct writer has the lock. */
    method SendBuffer(locked: bool, outs: seq<Outcome>) returns (closed: bool)
      requires Sound(Look()) && kind != Invalid && (!locked ==> hand.None?)
      modifies this
      ensures locked ==> Look() == old(Look()) && !closed
      ensures !locked ==> (Look(), closed) == Flush(old(Look()), outs)
    {
      hide Sound, FlushLists;
      if locked { return false; }
      TakeDirectSound(Look());
      if dwBuffer.Some? {
        var buf := Buf(dwBuffer.value, dwOffset);
        wbSize := wbSize + Size(buf);
        high := [buf] + high;
        dwBuffer := None;
      }
      closed := SendBufferLocked(outs);
    }

    /** A message from the pipe. */
    method Send(msg: Bytes, isLow: bool)
      modifies this
      ensures Look() == SendSocket(old(Look()), msg, isLow)
    {
      if kind == Invalid || kind == HalfClose {
        dropped := dropped + [msg];
        return;
      }
      if high == [] && low == [] && kind == Connected {
        high := high + [Buf(msg, 0)];
      } else if isLow {
        low := low + [Buf(msg, 0)];
      } else {
        high := high + [Buf(msg, 0)];
      }
      wbSize := wbSize + |msg|;
    }
  }

  lemma Sizes(s: Sock)
    requires Base(s)
    ensures forall b :: b in s.high + s.low ==> Size(b) >= 0
    ensures forall b :: b in s.high ==> Size(b) >= 0
    ensures forall b :: b in s.low ==> Size(b) >= 0
  {
    var q := Queue(s);
    if q != [] { assert q == [q[0]] + q[1..]; }
    forall b | b in s.high || b in s.low ensures Size(b) >= 0 { assert b in q; }
  }

  lemma NothingHigh(s: Sock)
    requires Sending(s, false)
    ensures s.high == []
  {
  }

  lemma NothingLeft(s: Sock)
    requires Base(s) && s.kind != Invalid && s.high == [] && s.low == []
    ensures s.wbSize == 0
  {
  }
}
