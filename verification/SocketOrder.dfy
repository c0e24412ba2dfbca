/** In which order messages reach the wire, over whole runs. */
module SocketOrder {
  // Messages enter the socket when the socket thread takes them from the pipe, or when a worker
  // writes them directly. Those of one kind never overtake each other, and a direct write overtakes
  // nothing that was in the pipe before its sender began.

  import opened SocketWrite
  import opened SocketRace
  import opened SocketFlush

  datatype Source = Direct | Normal | Low

  datatype Event = Event(source: Source, msg: Bytes)

  /** what enters by a step: a direct write, or a message from the pipe, queued or not */
  function Enters(y: Sys, step: Step): seq<Event>
  {
    if step.Work? && step.i < |y.workers| && y.workers[step.i].Writing? then [Event(Direct, y.workers[step.i].msg)]
    else if step.Command? && y.thread.Ready? && y.pipe != [] && y.pipe[0].Send? then
      [Event(if y.pipe[0].low then Low else Normal, y.pipe[0].msg)]
    else []
  }

  function Events(steps: seq<Step>): seq<Event>
  {
    if steps == [] then [] else Events(steps[..|steps| - 1]) + Enters(Run(steps[..|steps| - 1]), steps[|steps| - 1])
  }

  /** all messages on the wire or on their way, in their order on the wire */
  function Line(s: Sock): seq<Bytes>
  {
    s.sent + Held(s.hand) + Held(s.dw) + Msgs(Queue(s))
  }

  function Cut(a: seq<nat>, n: nat): seq<nat>
  {
    if n <= |a| then a[..n] else a
  }

  function Insert(a: seq<nat>, n: nat, x: nat): seq<nat>
  {
    if n <= |a| then a[..n] + [x] + a[n..] else a + [x]
  }

  function Joined(line: seq<Bytes>, n: nat, m: Bytes): seq<Bytes>
  {
    if n <= |line| then line[..n] + [m] + line[n..] else line + [m]
  }

  /** Where a message that enters takes its place: a direct write behind what was sent, a low message
      at the end, a normal one in front of the low list. */
  function Place(y: Sys, step: Step): nat
  {
    if step.Work? then |y.s.sent|
    else if y.pipe != [] && y.pipe[0].Send? && y.pipe[0].low then |Line(y.s)|
    else |Line(y.s)| - |y.s.low|
  }

  /** The line after a step, by the events of its messages; the new event has number n. */
  function Onward(y: Sys, step: Step, from: seq<nat>, n: nat): seq<nat>
  {
    if Enters(y, step) != [] && (step.Work? || y.s.kind == Connected) then Insert(from, Place(y, step), n)
    else Cut(from, |Line(Take(y, step).s)|)
  }

  /** For each message of the line the event by which it entered. Only closing takes messages out. */
  function From(steps: seq<Step>): seq<nat>
  {
    if steps == [] then []
    else
      var before := steps[..|steps| - 1];
      Onward(Run(before), steps[|steps| - 1], From(before), |Events(before)|)
  }

  // ------------------------------------------------------------------ what each operation does to the line

  lemma CompleteLine(s: Sock, high: bool)
    requires List(s, high) != [] && Size(List(s, high)[0]) >= 0 && (!high ==> s.high == [])
    ensures var s' := Complete(s, high);
            && s'.sent + Msgs(Queue(s')) == s.sent + Msgs(Queue(s)) && s'.dw == s.dw && s'.kind == s.kind && s'.hand == s.hand
            && |s'.low| <= |s.low| && (!high ==> s'.high == [])
  {
    var s' := Complete(s, high);
    assert Queue(s) == [List(s, high)[0]] + Queue(s');
    assert s.sent + [List(s, high)[0].msg] + Msgs(Queue(s')) == s.sent + Msgs(Queue(s));
  }

  lemma AdvanceLine(s: Sock, high: bool, n: nat)
    requires List(s, high) != [] && n <= Size(List(s, high)[0]) && (!high ==> s.high == [])
    ensures var s' := Advance(s, high, n);
            && Msgs(Queue(s')) == Msgs(Queue(s)) && s'.sent == s.sent && s'.dw == s.dw && s'.kind == s.kind && s'.hand == s.hand && |s'.low| == |s.low|
  {
  }

  lemma ForceCloseLine(s: Sock)
    requires s.kind != Invalid
    ensures var s' := ForceClose(s); s'.sent == s.sent && Empty(s') && s'.dw.None? && s'.kind == Invalid && s'.hand == s.hand
  {
  }

  /** the line without a direct write */
  function Waiting(s: Sock): seq<Bytes>
  {
    s.sent + Msgs(Queue(s))
  }

  lemma {:induction false} SendListLine(s: Sock, high: bool, outs: seq<Outcome>)
    requires s.kind != Invalid && (!high ==> s.high == [])
    ensures var r := SendList(s, high, outs);
            && r.0.hand == s.hand
            && if r.2 then r.0.sent <= Waiting(s) && Empty(r.0) && r.0.dw.None? && r.0.kind == Invalid
               else Waiting(r.0) == Waiting(s) && r.0.dw == s.dw && r.0.kind == s.kind && |r.0.low| <= |s.low| && (!high ==> r.0.high == [])
    decreases |outs|
  {
    hide ForceClose, Complete, Advance;
    var bufs := List(s, high);
    if bufs != [] && outs != [] {
      match outs[0]
      case Interrupted => SendListLine(s, high, outs[1..]);
      case Again =>
      case Fail => ForceCloseLine(s);
      case Accept(k) =>
        var n := if k < Size(bufs[0]) then k else Size(bufs[0]);
        if n >= 0 {
          if n != Size(bufs[0]) {
            AdvanceLine(s, high, n);
            AdvanceHigh(s, high, n);
          } else {
            CompleteLine(s, high);
            SendListLine(Complete(s, high), high, outs[1..]);
          }
        }
    }
  }

  lemma AdvanceHigh(s: Sock, high: bool, n: nat)
    requires List(s, high) != [] && n <= Size(List(s, high)[0])
    ensures !high ==> Advance(s, high, n).high == s.high
  {
  }

  lemma TakeDirectLine(s: Sock)
    requires s.hand.None?
    ensures var t := TakeDirect(s);
            Waiting(t) == Line(s) && t.dw.None? && t.hand.None? && t.kind == s.kind && t.low == s.low && t.sent == s.sent
  {
    if s.dw.Some? {
      assert Queue(TakeDirect(s)) == [s.dw.value] + Queue(s);
      assert s.sent + [s.dw.value.msg] + Msgs(Queue(s)) == s.sent + ([s.dw.value.msg] + Msgs(Queue(s)));
    }
    assert s.sent + [] + Held(s.dw) == s.sent + Held(s.dw) && s.sent + [] == s.sent;
  }

  lemma RaiseLine(s: Sock)
    requires s.low != [] && s.high == []
    ensures Queue(Raise(s)) == Queue(s) && |Raise(s).low| <= |s.low|
  {
  }

  lemma FlushListsLine(s: Sock, outs: seq<Outcome>)
    requires s.kind != Invalid && s.dw.None? && s.hand.None?
    ensures var r := FlushLists(s, outs);
            && r.0.hand.None? && r.0.dw.None?
            && if r.1 then r.0.sent <= Waiting(s) && Empty(r.0) && r.0.kind == Invalid
               else Waiting(r.0) == Waiting(s) && r.0.kind == s.kind && |r.0.low| <= |s.low|
  {
    hide SendList, ForceClose, Raise;
    SendListLine(s, true, outs);
    var (s1, outs1, closed1) := SendList(s, true, outs);
    if !closed1 && s1.high == [] {
      if s1.low == [] {
        ForceCloseLine(s1);
      } else {
        SendListLine(s1, false, outs1);
        var (s2, _, closed2) := SendList(s1, false, outs1);
        if !closed2 {
          ForceCloseLine(s2);
          if s2.low != [] { RaiseLine(s2); RaiseFields(s2); }
        }
      }
    }
  }

  lemma RaiseFields(s: Sock)
    requires s.low != []
    ensures Raise(s).sent == s.sent && Raise(s).kind == s.kind && Raise(s).dw == s.dw && Raise(s).hand == s.hand
  {
  }

  /** A flush leaves the line as it is, or closes and leaves a beginning of it. */
  lemma FlushLine(s: Sock, outs: seq<Outcome>)
    requires s.kind != Invalid && s.hand.None?
    ensures var r := Flush(s, outs);
            && r.0.hand.None? && r.0.dw.None?
            && if r.1 then Line(r.0) <= Line(s) && Empty(r.0) && r.0.kind == Invalid
               else Line(r.0) == Line(s) && r.0.kind == s.kind && |r.0.low| <= |s.low|
  {
    hide FlushLists, TakeDirect, Line;
    TakeDirectLine(s);
    FlushListsLine(TakeDirect(s), outs);
    PlainLine(Flush(s, outs).0);
  }

  lemma PlainLine(s: Sock)
    requires s.hand.None? && s.dw.None?
    ensures Line(s) == Waiting(s) && (Empty(s) ==> Line(s) == s.sent)
  {
    assert s.sent + [] + [] == s.sent;
    if Empty(s) { assert s.sent + [] == s.sent; }
  }

  lemma SendLine(s: Sock, msg: Bytes, low: bool)
    requires s.kind == Connected
    ensures var s' := SendSocket(s, msg, low);
            && Line(s') == Joined(Line(s), if low then |Line(s)| else |Line(s)| - |s.low|, msg)
            && |s.low| <= |Line(s)| && |s'.low| <= |s.low| + 1 && (!low ==> s'.low == s.low) && s'.kind == Connected
            && s'.hand == s.hand && s'.dw == s.dw
  {
    SendSocketOrder(s, msg, low);
    var l := s.sent + Held(s.hand) + Held(s.dw);
    MsgsConcat(s.high, s.low);
    assert Line(s) == l + Msgs(s.high) + Msgs(s.low);
    if low {
      assert Line(s) + [msg] == l + (Msgs(Queue(s)) + [msg]);
    } else {
      assert Line(s)[..|Line(s)| - |s.low|] == l + Msgs(s.high) && Line(s)[|Line(s)| - |s.low|..] == Msgs(s.low);
      assert l + (Msgs(s.high) + [msg] + Msgs(s.low)) == l + Msgs(s.high) + [msg] + Msgs(s.low);
    }
  }

  lemma DirectLine(s: Sock, msg: Bytes, n: nat)
    requires s.hand.None? && s.dw.None?
    ensures var s' := DirectWrite(s, msg, n); Line(s') == Joined(Line(s), |s.sent|, msg) && s'.low == s.low && s'.high == s.high && Queue(s') == Queue(s) && s'.kind == s.kind
  {
    PlainLine(s);
    var q := Msgs(Queue(s));
    assert Line(s)[..|s.sent|] == s.sent && Line(s)[|s.sent|..] == q;
    assert s.sent + [msg] + [] + [] + q == s.sent + [msg] + q;
  }

  lemma StoreLine(s: Sock)
    requires s.dw.None?
    ensures Line(StoreDirect(s)) == Line(s) && Queue(StoreDirect(s)) == Queue(s)
  {
    assert s.sent + Held(s.hand) + [] == s.sent + Held(s.hand) && s.sent + [] == s.sent;
  }

  lemma FreeLine(s: Sock)
    ensures Line(FreeLists(s)) <= Line(s) && Empty(FreeLists(s))
  {
    var l := s.sent + Held(s.hand) + Held(s.dw);
    assert Line(FreeLists(s)) == l;
  }

  lemma CloseFdLine(s: Sock)
    requires Empty(s) && s.hand.None?
    ensures Line(CloseFd(s)) <= Line(s)
  {
    assert s.sent + [] + [] + [] == s.sent;
    assert Line(CloseFd(s)) == s.sent;
    assert Line(s) == s.sent + (Held(s.dw) + Msgs(Queue(s)));
  }

  // ------------------------------------------------------------------ the invariant

  /** Each message of the line is that of its event, and of one kind the older ones come first. */
  predicate Ordered(line: seq<Bytes>, from: seq<nat>, ev: seq<Event>)
  {
    && |from| == |line|
    && (forall j :: 0 <= j < |from| ==> from[j] < |ev| && ev[from[j]].msg == line[j])
    && forall i, j :: 0 <= i < j < |from| && ev[from[i]].source == ev[from[j]].source ==> from[i] < from[j]
  }

  /** What was at place j before x was inserted at place 'at'. */
  function Former(at: nat, j: nat): nat
    requires j != at
  {
    if j < at then j else j - 1
  }

  lemma Inserted(from: seq<nat>, ev: seq<Event>, at: nat, e: Event, j: nat)
    requires at <= |from| && j <= |from| && forall k :: 0 <= k < |from| ==> from[k] < |ev|
    ensures var f', ev' := Insert(from, at, |ev|), ev + [e];
            && |f'| == |from| + 1
            && (if j == at then f'[j] == |ev| && ev'[f'[j]] == e
                else f'[j] == from[Former(at, j)] && f'[j] < |ev| && ev'[f'[j]] == ev[from[Former(at, j)]])
  {
  }

  lemma JoinedAt(line: seq<Bytes>, at: nat, m: Bytes, j: nat)
    requires at <= |line| && j <= |line|
    ensures |Joined(line, at, m)| == |line| + 1 && Joined(line, at, m)[j] == if j == at then m else line[Former(at, j)]
  {
  }

  lemma OrderedInsert(line: seq<Bytes>, from: seq<nat>, ev: seq<Event>, at: nat, e: Event)
    requires Ordered(line, from, ev) && at <= |line|
    requires forall j :: at <= j < |from| ==> ev[from[j]].source != e.source
    ensures Ordered(Joined(line, at, e.msg), Insert(from, at, |ev|), ev + [e])
  {
    hide Joined, Insert;
    var l', f', ev' := Joined(line, at, e.msg), Insert(from, at, |ev|), ev + [e];
    JoinedAt(line, at, e.msg, 0);
    Inserted(from, ev, at, e, 0);
    forall j | 0 <= j < |f'| ensures f'[j] < |ev'| && ev'[f'[j]].msg == l'[j] {
      JoinedAt(line, at, e.msg, j);
      Inserted(from, ev, at, e, j);
    }
    forall i, j | 0 <= i < j < |f'| && ev'[f'[i]].source == ev'[f'[j]].source ensures f'[i] < f'[j] {
      Inserted(from, ev, at, e, i);
      Inserted(from, ev, at, e, j);
      if i != at && j != at { assert ev[from[Former(at, i)]].source == ev[from[Former(at, j)]].source; }
    }
  }

  lemma OrderedCut(line: seq<Bytes>, line': seq<Bytes>, from: seq<nat>, ev: seq<Event>, more: seq<Event>)
    requires Ordered(line, from, ev) && line' <= line
    ensures Ordered(line', Cut(from, |line'|), ev + more)
  {
  }

  /** the messages in the last n places came by events that are none of the excluded kind */
  predicate LastAre(from: seq<nat>, ev: seq<Event>, n: nat, low: bool)
  {
    forall j :: 0 <= j < |from| && |from| - n <= j && from[j] < |ev| ==> if low then ev[from[j]].source == Low else ev[from[j]].source != Direct
  }

  predicate Decided(w: Worker) { w.SawEmpty? || w.Writing? }

  predicate Placed(y: Sys, from: seq<nat>, ev: seq<Event>)
  {
    && Ordered(Line(y.s), from, ev)
    && LastAre(from, ev, |y.s.low|, true)
    && (forall i :: 0 <= i < |y.workers| && Decided(y.workers[i]) ==> LastAre(from, ev, |Queue(y.s)|, false))
    && (y.s.kind == Connected && !y.thread.Closing? ==> |from| == |ev|)
    && (y.thread.Closing? ==> Empty(y.s))
  }

  lemma CutAll(from: seq<nat>, ev: seq<Event>, n: nat)
    requires n == |from|
    ensures Cut(from, n) == from && ev + [] == ev
  {
  }

  /** A step by which nothing enters and that leaves the line as it is. */
  lemma SameLine(y: Sys, y': Sys, from: seq<nat>, ev: seq<Event>)
    requires Placed(y, from, ev) && Line(y'.s) == Line(y.s) && |y'.s.low| <= |y.s.low|
    requires y'.s.kind == Connected ==> y.s.kind == Connected
    requires y'.thread.Closing? ==> Empty(y'.s)
    requires y.thread.Closing? ==> y'.thread.Closing? || y'.s.kind != Connected
    requires forall i :: 0 <= i < |y'.workers| && Decided(y'.workers[i]) ==>
               Empty(y'.s) || (i < |y.workers| && Decided(y.workers[i]) && |Queue(y'.s)| <= |Queue(y.s)|)
    ensures Placed(y', Cut(from, |Line(y'.s)|), ev + [])
  {
    hide Line;
    CutAll(from, ev, |Line(y'.s)|);
  }

  /** A step that takes messages from the end of the line, while nobody has the lock. */
  lemma Shortened(y: Sys, y': Sys, from: seq<nat>, ev: seq<Event>)
    requires Placed(y, from, ev) && Line(y'.s) <= Line(y.s) && Empty(y'.s)
    requires y'.s.kind != Connected || y'.thread.Closing?
    ensures Placed(y', Cut(from, |Line(y'.s)|), ev + [])
  {
    hide Line;
    OrderedCut(Line(y.s), Line(y'.s), from, ev, []);
    assert Queue(y'.s) == [];
  }

  lemma NoDecided(y: Sys)
    requires Locked(y) && y.lock.None?
    ensures y.s.hand.None? && forall i :: 0 <= i < |y.workers| ==> !Decided(y.workers[i])
  {
    UnlockedHand(y);
  }

  lemma FlushPlaced(y: Sys, y': Sys, outs: seq<Outcome>, from: seq<nat>, ev: seq<Event>)
    requires Placed(y, from, ev) && Locked(y) && y.lock.None? && y.s.kind != Invalid && !y.thread.Closing?
    requires y'.s == Flush(y.s, outs).0 && y'.workers == y.workers && !y'.thread.Closing?
    ensures Placed(y', Cut(from, |Line(y'.s)|), ev + [])
  {
    hide Flush, Line, Locked, Placed;
    NoDecided(y);
    FlushLine(y.s, outs);
    if Flush(y.s, outs).1 { Shortened(y, y', from, ev); } else { SameLine(y, y', from, ev); }
  }

  lemma PopPlaced(y: Sys, y': Sys, from: seq<nat>, ev: seq<Event>)
    requires Placed(y, from, ev) && y.s.kind == Connected && !y.thread.Closing? && y.pipe != [] && y.pipe[0].Send?
    requires y'.s == SendSocket(y.s, y.pipe[0].msg, y.pipe[0].low) && y'.workers == y.workers && !y'.thread.Closing?
    ensures var low := y.pipe[0].low;
            Placed(y', Insert(from, if low then |Line(y.s)| else |Line(y.s)| - |y.s.low|, |ev|), ev + [Event(if low then Low else Normal, y.pipe[0].msg)])
  {
    hide Line, SendSocket, Ordered, LastAre, Insert, Queue;
    var msg, low := y.pipe[0].msg, y.pipe[0].low;
    var e, at := Event(if low then Low else Normal, msg), if low then |Line(y.s)| else |Line(y.s)| - |y.s.low|;
    SendLine(y.s, msg, low);
    SendQueue(y.s, msg, low);
    OrderedSize(Line(y.s), from, ev);
    assert forall j :: at <= j < |from| ==> ev[from[j]].source != e.source by { LowLast(from, ev, |y.s.low|); }
    OrderedInsert(Line(y.s), from, ev, at, e);
    LastFewer(from, ev, |y.s.low|, |y'.s.low|, true);
    LastFewer(from, ev, |y.s.low|, if |y'.s.low| > 0 then |y'.s.low| - 1 else 0, true);
    InsertedLast(from, ev, at, e, |y'.s.low|, true);
    forall i | 0 <= i < |y'.workers| && Decided(y'.workers[i]) ensures LastAre(Insert(from, at, |ev|), ev + [e], |Queue(y'.s)|, false) {
      assert LastAre(from, ev, |Queue(y.s)|, false);
      InsertedLast(from, ev, at, e, |Queue(y'.s)|, false);
    }
    InsertedSize(from, at, |ev|);
  }

  lemma InsertedSize(from: seq<nat>, at: nat, n: nat)
    ensures |Insert(from, at, n)| == |from| + 1
  {
  }

  lemma OrderedSize(line: seq<Bytes>, from: seq<nat>, ev: seq<Event>)
    requires Ordered(line, from, ev)
    ensures |from| == |line| && forall j :: 0 <= j < |from| ==> from[j] < |ev|
  {
  }

  lemma SendQueue(s: Sock, msg: Bytes, low: bool)
    requires s.kind == Connected
    ensures var s' := SendSocket(s, msg, low);
            && |Queue(s')| == |Queue(s)| + 1 && |s.low| <= |Queue(s)| <= |Line(s)|
            && (low ==> |s'.low| <= |s.low| + 1) && (!low ==> s'.low == s.low)
  {
  }

  lemma LastFewer(from: seq<nat>, ev: seq<Event>, m: nat, n: nat, low: bool)
    ensures LastAre(from, ev, m, low) && n <= m ==> LastAre(from, ev, n, low)
  {
  }

  lemma LowLast(from: seq<nat>, ev: seq<Event>, n: nat)
    requires LastAre(from, ev, n, true) && n <= |from| && forall j :: 0 <= j < |from| ==> from[j] < |ev|
    ensures forall j :: |from| - n <= j < |from| ==> ev[from[j]].source == Low
  {
  }

  /** the last places after something was inserted */
  lemma InsertedLast(from: seq<nat>, ev: seq<Event>, at: nat, e: Event, n: nat, low: bool)
    requires at <= |from| && (forall j :: 0 <= j < |from| ==> from[j] < |ev|)
    requires if at >= |from| + 1 - n then n > 0 && LastAre(from, ev, n - 1, low) && (if low then e.source == Low else e.source != Direct) else LastAre(from, ev, n, low)
    ensures LastAre(Insert(from, at, |ev|), ev + [e], n, low)
  {
    var f', ev' := Insert(from, at, |ev|), ev + [e];
    forall j | 0 <= j < |f'| && |f'| - n <= j && f'[j] < |ev'|
      ensures if low then ev'[f'[j]].source == Low else ev'[f'[j]].source != Direct
    {
      if j != at {
        var k := if j < at then j else j - 1;
        assert f'[j] == from[k] && ev'[f'[j]] == ev[from[k]];
      }
    }
  }

  lemma WritePlaced(y: Sys, y': Sys, i: nat, n: nat, from: seq<nat>, ev: seq<Event>)
    requires Placed(y, from, ev) && Locked(y) && i < |y.workers| && y.workers[i].Writing? && y' == Act(y, i, n)
    ensures Placed(y', Insert(from, |y.s.sent|, |ev|), ev + [Event(Direct, y.workers[i].msg)])
  {
    hide Line, DirectWrite, Ordered, Insert, Queue;
    var msg := y.workers[i].msg;
    var e, at := Event(Direct, msg), |y.s.sent|;
    HandFree(y, i);
    DirectLine(y.s, msg, n);
    SentFirst(y.s);
    OrderedSize(Line(y.s), from, ev);
    assert LastAre(from, ev, |Queue(y.s)|, false);
    OrderedInsert(Line(y.s), from, ev, at, e);
    LowInQueue(y.s);
    InsertedLast(from, ev, at, e, |y.s.low|, true);
    InsertedSize(from, at, |ev|);
    LockHolder(y, i);
    assert forall k :: 0 <= k < |y'.workers| ==> !Decided(y'.workers[k]);
  }

  lemma SentFirst(s: Sock)
    requires s.hand.None? && s.dw.None?
    ensures |Line(s)| == |s.sent| + |Queue(s)|
  {
  }

  lemma LowInQueue(s: Sock)
    ensures |s.low| <= |Queue(s)| <= |Line(s)|
  {
  }

  /** only the worker with the lock has decided anything */
  lemma LockHolder(y: Sys, i: nat)
    requires Locked(y) && i < |y.workers| && Holding(y.workers[i])
    ensures y.lock == Some(i) && forall k :: 0 <= k < |y.workers| && k != i ==> !Decided(y.workers[k])
  {
    assert forall k :: 0 <= k < |y.workers| && Decided(y.workers[k]) ==> Holding(y.workers[k]);
  }

  lemma WorkPlaced(y: Sys, i: nat, n: nat, from: seq<nat>, ev: seq<Event>)
    requires Placed(y, from, ev) && Locked(y) && i < |y.workers| && !y.workers[i].Writing?
    ensures var y' := Act(y, i, n); Placed(y', Cut(from, |Line(y'.s)|), ev + [])
  {
    hide Line, Placed, Locked, Queue, StoreDirect, Dropped;
    var y', w := Act(y, i, n), y.workers[i];
    PlacedClosing(y, from, ev);
    if w.Start? {
      DroppedLine(y.s, w.msg);
    } else if w.Wrote? {
      HandFree(y, i);
      StoreLine(y.s);
      StoreFields(y.s);
    }
    SameLine(y, y', from, ev);
  }

  lemma DroppedLine(s: Sock, m: Bytes)
    ensures var s' := Dropped(s, m); Line(s') == Line(s) && s'.high == s.high && s'.low == s.low && s'.kind == s.kind && Queue(s') == Queue(s)
  {
  }

  lemma StoreFields(s: Sock)
    ensures var s' := StoreDirect(s); s'.high == s.high && s'.low == s.low && s'.kind == s.kind && Queue(s') == Queue(s)
  {
  }

  lemma PlacedClosing(y: Sys, from: seq<nat>, ev: seq<Event>)
    requires Placed(y, from, ev)
    ensures y.thread.Closing? ==> Empty(y.s)
  {
  }

  lemma FreePlaced(y: Sys, y': Sys, from: seq<nat>, ev: seq<Event>)
    requires Placed(y, from, ev) && y'.s == FreeLists(y.s) && y'.thread.Closing?
    ensures Placed(y', Cut(from, |Line(y'.s)|), ev + [])
  {
    hide Line, Placed;
    FreeLine(y.s);
    Shortened(y, y', from, ev);
  }

  lemma CloseFdPlaced(y: Sys, y': Sys, from: seq<nat>, ev: seq<Event>)
    requires Placed(y, from, ev) && y.thread.Closing? && y.lock.None? && Locked(y) && y'.s == CloseFd(y.s)
    ensures Placed(y', Cut(from, |Line(y'.s)|), ev + [])
  {
    hide Line, Placed, Locked;
    PlacedClosing(y, from, ev);
    NoDecided(y);
    CloseFdLine(y.s);
    Shortened(y, y', from, ev);
  }

  lemma CommandPlaced(y: Sys, outs: seq<Outcome>, from: seq<nat>, ev: seq<Event>)
    requires Placed(y, from, ev) && Locked(y) && y.thread.Ready? && y.pipe != []
    ensures var step := Command(outs); Placed(Take(y, step), Onward(y, step, from, |ev|), ev + Enters(y, step))
  {
    hide Line, Placed, Locked, Flush, SendSocket, Insert, Cut;
    var step := Command(outs);
    var y' := Take(y, step);
    if y.pipe[0].Send? {
      if y.s.kind == Connected {
        PopPlaced(y, y', from, ev);
      } else {
        assert y'.s == Dropped(y.s, y.pipe[0].msg) by { hide Dropped, Execute; NotQueued(y, outs); }
        DroppedPlaced(y, y', y.pipe[0].msg, from, ev, Enters(y, step));
      }
    } else if y.s.kind != Invalid && !NoMore(y) && y.lock.None? {
      FlushPlaced(y, y', outs, from, ev);
    } else {
      SameLine(y, y', from, ev);
    }
  }

  lemma NotQueued(y: Sys, outs: seq<Outcome>)
    requires y.pipe != [] && y.pipe[0].Send? && y.s.kind != Connected
    ensures Execute(y, outs).s == Dropped(y.s, y.pipe[0].msg)
  {
  }

  /** A message for a socket that does not send any more. */
  lemma DroppedPlaced(y: Sys, y': Sys, m: Bytes, from: seq<nat>, ev: seq<Event>, more: seq<Event>)
    requires Placed(y, from, ev) && y'.s == Dropped(y.s, m) && y'.workers == y.workers && y.s.kind != Connected && !y'.thread.Closing?
    ensures Placed(y', Cut(from, |Line(y'.s)|), ev + more)
  {
    hide Line, Dropped;
    DroppedLine(y.s, m);
    OrderedCut(Line(y.s), Line(y'.s), from, ev, more);
    CutAll(from, ev, |Line(y'.s)|);
    KeepsLast(from, ev, more, |y.s.low|, true);
    KeepsLast(from, ev, more, |Queue(y.s)|, false);
  }

  lemma KeepsLast(from: seq<nat>, ev: seq<Event>, more: seq<Event>, n: nat, low: bool)
    requires forall j :: 0 <= j < |from| ==> from[j] < |ev|
    ensures LastAre(from, ev, n, low) ==> LastAre(from, ev + more, n, low)
  {
  }

  lemma StepPlaced(y: Sys, step: Step, from: seq<nat>, ev: seq<Event>)
    requires Placed(y, from, ev) && Locked(y)
    ensures Placed(Take(y, step), Onward(y, step, from, |ev|), ev + Enters(y, step))
  {
    hide Line, Placed, Locked, Flush, Insert, Cut, Act, Execute, FreeLists, CloseFd;
    var y' := Take(y, step);
    PlacedClosing(y, from, ev);
    match step
    case Begin(m, low) => SameLine(y, y', from, ev);
    case AskClose(_) => SameLine(y, y', from, ev);
    case Work(i, n) =>
      if i >= |y.workers| { SameLine(y, y', from, ev); } else if y.workers[i].Writing? { WritePlaced(y, y', i, n, from, ev); } else { WorkPlaced(y, i, n, from, ev); }
    case Poll(outs) =>
      if y.thread.Ready? && y.s.kind != Invalid && y.lock.None? { FlushPlaced(y, y', outs, from, ev); } else { SameLine(y, y', from, ev); }
    case Command(outs) => if y.thread.Ready? && y.pipe != [] { CommandPlaced(y, outs, from, ev); } else { SameLine(y, y', from, ev); }
    case Hangup => if y.thread.Ready? && y.s.kind != Invalid { FreePlaced(y, y', from, ev); } else { SameLine(y, y', from, ev); }
    case Continue =>
      if y.thread.Deciding? && y'.thread.Closing? { FreePlaced(y, y', from, ev); }
      else if y.thread.Closing? && y.lock.None? { CloseFdPlaced(y, y', from, ev); }
      else {
        if y.thread.Deciding? { HalfLine(y.s); }
        SameLine(y, y', from, ev);
      }
  }

  lemma HalfLine(s: Sock)
    ensures Line(s.(kind := HalfClose)) == Line(s) && Queue(s.(kind := HalfClose)) == Queue(s)
  {
  }

  lemma {:induction false} RunPlaced(steps: seq<Step>)
    ensures Placed(Run(steps), From(steps), Events(steps))
  {
    hide Take, Placed, Onward, Enters, Locked;
    if steps == [] {
      assert Placed(INIT, [], []) by { InitPlaced(); }
    } else {
      var before := steps[..|steps| - 1];
      RunPlaced(before);
      RunLocked(before);
      StepPlaced(Run(before), steps[|steps| - 1], From(before), Events(before));
    }
  }

  lemma InitPlaced()
    ensures Placed(INIT, [], [])
  {
  }

  /** The order on the wire: in every run each message of the line entered by an event of its own;
      messages from the pipe of one priority keep the order in which they were taken from it, and
      direct writes theirs; and as long as the connection is not being closed, every message that
      entered is there. */
  lemma WireOrder(steps: seq<Step>)
    ensures var y, from, ev := Run(steps), From(steps), Events(steps);
            && |from| == |Line(y.s)|
            && (forall j :: 0 <= j < |from| ==> from[j] < |ev| && ev[from[j]].msg == Line(y.s)[j])
            && (forall i, j :: 0 <= i < j < |from| && ev[from[i]].source == ev[from[j]].source ==> from[i] < from[j])
            && (y.s.kind == Connected && !y.thread.Closing? ==> |from| == |ev|)
  {
    RunPlaced(steps);
  }
}
