/**
 The browser relay socket's receive queue: bounded by count and by bytes, it
 sheds the oldest datagrams to make room and never loses a control frame.
 */
module ReceiveQueue {
  import opened Core
  import opened Selection
  import Frames

  const INBOUND_BOUND := 1024
  const INBOUND_BYTES := 0x20_0000

  datatype Message = Binary(bytes: Bytes) | SocketPing(payload: Bytes) | SocketPong | Other

  type Queue = seq<Message>

  function MessageLen(m: Message): nat {
    if m.Binary? then |m.bytes| else 0
  }

  /** A frame that carries a datagram of the peer; QUIC resends what is lost. */
  predicate IsDatagram(m: Message) {
    m.Binary? && m.bytes != [] && (m.bytes[0] == Frames.FRAME_RECV || m.bytes[0] == Frames.FRAME_RECV_TAG)
  }

  function TotalBytes(q: Queue): nat {
    Total(q, MessageLen)
  }

  function Controls(q: Queue): Queue {
    Select(q, IsDatagram, false)
  }

  function Datagrams(q: Queue): Queue {
    Select(q, IsDatagram, true)
  }

  function Oldest(q: Queue): Option<nat> {
    First(q, IsDatagram)
  }

  function DropOldest(q: Queue, n: nat): Queue {
    DropFirst(q, IsDatagram, n)
  }

  predicate Fits(q: Queue, len: nat) {
    |q| < INBOUND_BOUND && TotalBytes(q) + len <= INBOUND_BYTES
  }

  /** How many datagrams a push of `len` bytes drops. */
  function Excess(q: Queue, len: nat): nat
    decreases |q|
  {
    if Fits(q, len) || Oldest(q).None? then 0 else 1 + Excess(Without(q, Oldest(q).value), len)
  }

  /** The queue after a push, and whether it took the message. */
  function Push(q: Queue, m: Message): (Queue, bool) {
    var shed := DropOldest(q, Excess(q, MessageLen(m)));
    if Fits(shed, MessageLen(m)) then (shed + [m], true) else (shed, false)
  }

  // ---------------------------------------------------------------------
  // One push
  // ---------------------------------------------------------------------

  lemma OneDatagramLess(q: Queue)
    requires Oldest(q).Some?
    ensures |Datagrams(q)| == 1 + |Datagrams(Without(q, Oldest(q).value))|
  {
    RemoveFirst(q, IsDatagram);
  }

  lemma {:induction false} ExcessEnough(q: Queue, len: nat)
    ensures Excess(q, len) <= |Datagrams(q)|
    ensures Fits(DropOldest(q, Excess(q, len)), len) || Excess(q, len) == |Datagrams(q)|
    decreases |q|
  {
    SomeFirst(q, IsDatagram);
    if Oldest(q).Some? && !Fits(q, len) {
      var rest := Without(q, Oldest(q).value);
      ExcessEnough(rest, len);
      OneDatagramLess(q);
      assert DropOldest(q, Excess(q, len)) == DropOldest(rest, Excess(rest, len));
    }
  }

  lemma {:induction false} ExcessIsLeast(q: Queue, len: nat, n: nat)
    requires n < Excess(q, len)
    ensures !Fits(DropOldest(q, n), len)
    decreases n
  {
    if n > 0 {
      ExcessIsLeast(Without(q, Oldest(q).value), len, n - 1);
    }
  }

  /** What is left fits if and only if the control frames alone would. */
  lemma ShedFits(q: Queue, len: nat)
    ensures Fits(DropOldest(q, Excess(q, len)), len) <==> Fits(Controls(q), len)
    ensures !Fits(Controls(q), len) ==> Datagrams(DropOldest(q, Excess(q, len))) == []
  {
    var n := Excess(q, len);
    ExcessEnough(q, len);
    DropFirstMeaning(q, IsDatagram, n);
    var shed := DropOldest(q, n);
    TwoKinds(shed, IsDatagram, MessageLen);
    if n == |Datagrams(q)| {
      SelectAll(shed, IsDatagram);
    }
  }

  /**
   A push is taken exactly when the control frames alone leave room for it.
   It drops only datagrams, only the oldest ones, and no more than it must:
   had it dropped fewer, the message would not fit.  A refused push leaves no
   datagram in the queue.
   */
  lemma PushMeaning(q: Queue, m: Message)
    ensures var (after, ok) := Push(q, m);
            var n := Excess(q, MessageLen(m));
            && (ok <==> Fits(Controls(q), MessageLen(m)))
            && n <= |Datagrams(q)|
            && after == DropOldest(q, n) + (if ok then [m] else [])
            && Controls(DropOldest(q, n)) == Controls(q)
            && Datagrams(DropOldest(q, n)) == Datagrams(q)[n..]
            && (forall k: nat | k < n :: !Fits(DropOldest(q, k), MessageLen(m)))
            && (!ok ==> Datagrams(after) == [])
  {
    var len := MessageLen(m);
    var n := Excess(q, len);
    ExcessEnough(q, len);
    forall k: nat | k < n ensures !Fits(DropOldest(q, k), len) {
      ExcessIsLeast(q, len, k);
    }
    DropFirstMeaning(q, IsDatagram, n);
    ShedFits(q, len);
    assert DropOldest(q, n) + [] == DropOldest(q, n);
  }

  /** Dropping one datagram by hand first does not change what a push that needs the room does. */
  lemma PushAfterShed(q: Queue, m: Message)
    requires !Fits(q, MessageLen(m)) && Oldest(q).Some?
    ensures Push(Without(q, Oldest(q).value), m) == Push(q, m)
  {
    ShedExcess(q, MessageLen(m));
  }

  /** One datagram less to drop, and the same queue after dropping. */
  lemma ShedExcess(q: Queue, len: nat)
    requires !Fits(q, len) && Oldest(q).Some?
    ensures var rest := Without(q, Oldest(q).value);
            Excess(q, len) == 1 + Excess(rest, len) && DropOldest(q, Excess(q, len)) == DropOldest(rest, Excess(rest, len))
  {
  }

  // ---------------------------------------------------------------------
  // The mutable queue
  // ---------------------------------------------------------------------

  class InboundQueue {
    var queue: Queue
    var bytes: nat

    ghost predicate Valid()
      reads this
    {
      bytes == TotalBytes(queue) && |queue| <= INBOUND_BOUND && bytes <= INBOUND_BYTES
    }

    constructor ()
      ensures Valid() && queue == []
    {
      queue, bytes := [], 0;
    }

    method FindDatagram() returns (k: Option<nat>)
      ensures k == Oldest(queue)
    {
      for i := 0 to |queue|
        invariant forall j | 0 <= j < i :: !IsDatagram(queue[j])
      {
        if IsDatagram(queue[i]) {
          return Some(i);
        }
      }
      return None;
    }

    /** Remove one datagram and its bytes. */
    method Shed(k: nat)
      requires Valid() && Oldest(queue) == Some(k)
      modifies this
      ensures Valid() && queue == Without(old(queue), k)
    {
      RemoveTotal(queue, k, MessageLen);
      bytes := bytes - MessageLen(queue[k]);
      queue := queue[..k] + queue[k + 1..];
    }

    method Enqueue(m: Message) returns (ok: bool)
      requires Valid()
      modifies this
      ensures Valid()
      ensures (queue, ok) == Push(old(queue), m)
    {
      var len := MessageLen(m);
      while |queue| >= INBOUND_BOUND || bytes + len > INBOUND_BYTES
        invariant Valid()
        invariant Push(queue, m) == Push(old(queue), m)
        decreases |queue|
      {
        var oldest := FindDatagram();
        if oldest.None? {
          return false;
        }
        ghost var before := queue;
        Shed(oldest.value);
        PushAfterShed(before, m);
      }
      TotalConcat(queue, [m], MessageLen);
      TotalOne(m, MessageLen);
      bytes := bytes + len;
      queue := queue + [m];
      return true;
    }

    method Dequeue() returns (m: Option<Message>)
      requires Valid()
      modifies this
      ensures Valid()
      ensures m.None? <==> old(queue) == []
      ensures m.None? ==> queue == []
      ensures m.Some? ==> old(queue) == [m.value] + queue
    {
      if queue == [] {
        return None;
      }
      m := Some(queue[0]);
      RemoveTotal(queue, 0, MessageLen);
      assert Without(queue, 0) == queue[1..];
      assert queue == [queue[0]] + queue[1..];
      bytes := bytes - MessageLen(queue[0]);
      queue := queue[1..];
    }
  }

  // ---------------------------------------------------------------------
  // Runs
  // ---------------------------------------------------------------------

  datatype Step = Arrive(message: Message) | Read

  /** What was pushed, what was popped and what is queued. */
  datatype Run = Run(pushed: Queue, popped: Queue, queue: Queue)

  /** One step of a session whose queue has not refused yet; `None` when this step refuses. */
  function Next(r: Run, step: Step): Option<Run> {
    match step
    case Arrive(m) =>
      var (after, ok) := Push(r.queue, m);
      if ok then Some(Run(r.pushed + [m], r.popped, after)) else None
    case Read =>
      if r.queue == [] then Some(r) else Some(Run(r.pushed, r.popped + [r.queue[0]], r.queue[1..]))
  }

  function After(steps: seq<Step>): Option<Run> {
    if steps == [] then Some(Run([], [], []))
    else
      match After(steps[..|steps| - 1])
      case None => None
      case Some(r) => Next(r, steps[|steps| - 1])
  }

  ghost predicate ControlsKept(r: Run) {
    Controls(r.popped) + Controls(r.queue) == Controls(r.pushed)
  }

  ghost predicate OrderKept(r: Run) {
    Subsequence(r.popped + r.queue, r.pushed)
  }

  ghost predicate Bounded(q: Queue) {
    |q| <= INBOUND_BOUND && TotalBytes(q) <= INBOUND_BYTES
  }

  lemma ArriveKeepsControls(r: Run, m: Message)
    requires ControlsKept(r) && Push(r.queue, m).1
    ensures ControlsKept(Run(r.pushed + [m], r.popped, Push(r.queue, m).0))
  {
    PushMeaning(r.queue, m);
    var shed := DropOldest(r.queue, Excess(r.queue, MessageLen(m)));
    SelectConcat(shed, [m], IsDatagram, false);
    SelectConcat(r.pushed, [m], IsDatagram, false);
    SeqAssoc(Controls(r.popped), Controls(shed), Controls([m]));
  }

  lemma SeqAssoc(a: Queue, b: Queue, c: Queue)
    ensures a + (b + c) == (a + b) + c
  {
  }

  lemma ArriveKeepsOrder(r: Run, m: Message)
    requires OrderKept(r) && Push(r.queue, m).1
    ensures OrderKept(Run(r.pushed + [m], r.popped, Push(r.queue, m).0))
  {
    var n := Excess(r.queue, MessageLen(m));
    var shed := DropOldest(r.queue, n);
    SubsequenceDropped(r.popped, r.queue, IsDatagram, n, r.pushed);
    SubsequenceSnoc(r.popped + shed, r.pushed, m);
    SeqAssoc(r.popped, shed, [m]);
  }

  lemma ArriveKeepsBounds(q: Queue, m: Message)
    requires Push(q, m).1
    ensures Bounded(Push(q, m).0)
  {
    TotalConcat(DropOldest(q, Excess(q, MessageLen(m))), [m], MessageLen);
    TotalOne(m, MessageLen);
  }

  lemma ReadKeeps(r: Run)
    requires ControlsKept(r) && OrderKept(r) && Bounded(r.queue) && r.queue != []
    ensures var r' := Run(r.pushed, r.popped + [r.queue[0]], r.queue[1..]);
            ControlsKept(r') && OrderKept(r') && Bounded(r'.queue)
  {
    var head, rest := r.queue[0], r.queue[1..];
    assert r.queue == [head] + rest;
    SelectConcat([head], rest, IsDatagram, false);
    SelectConcat(r.popped, [head], IsDatagram, false);
    TotalConcat([head], rest, MessageLen);
    SeqAssoc(Controls(r.popped), Controls([head]), Controls(rest));
    SeqAssoc(r.popped, [head], rest);
  }

  /**
   Up to the first refusal of any run: the control frames popped and still
   queued are exactly the control frames pushed, in order; everything popped
   and still queued is an ordered selection of what was pushed; and the queue
   is within both bounds.
   */
  lemma {:induction false} ControlFramesSurvive(steps: seq<Step>)
    requires After(steps).Some?
    ensures var r := After(steps).value;
            && Controls(r.popped) + Controls(r.queue) == Controls(r.pushed)
            && Subsequence(r.popped + r.queue, r.pushed)
            && |r.queue| <= INBOUND_BOUND && TotalBytes(r.queue) <= INBOUND_BYTES
  {
    if steps != [] {
      ControlFramesSurvive(steps[..|steps| - 1]);
      var r, step := After(steps[..|steps| - 1]).value, steps[|steps| - 1];
      match step
      case Arrive(m) =>
        ArriveKeepsControls(r, m);
        ArriveKeepsOrder(r, m);
        ArriveKeepsBounds(r.queue, m);
      case Read => if r.queue != [] { ReadKeeps(r); }
    }
  }

  // ---------------------------------------------------------------------
  // What a datagram and a control frame are on the wire
  // ---------------------------------------------------------------------

  /** Of the frames a relay can send, exactly the two deliveries may be shed. */
  lemma DatagramsAreDeliveries(f: Frames.Frame)
    ensures IsDatagram(Binary(Frames.Encode(f))) <==> f.Recv? || f.RecvTag?
  {
  }

  /** A message that must not be lost: no frame at all, or a frame that is not a delivery. */
  predicate Vital(m: Message) {
    m.Binary? ==> var f := Frames.Decode(m.bytes); f.Some? && !f.value.Recv? && !f.value.RecvTag?
  }

  predicate Delivery(m: Message) {
    m.Binary? && var f := Frames.Decode(m.bytes); f.Some? && (f.value.Recv? || f.value.RecvTag?)
  }

  lemma VitalIsControl(m: Message)
    ensures Vital(m) ==> !IsDatagram(m)
    ensures Delivery(m) ==> IsDatagram(m)
  {
    if m.Binary? && Frames.Decode(m.bytes).Some? {
      Frames.Canonical(m.bytes);
      DatagramsAreDeliveries(Frames.Decode(m.bytes).value);
    }
  }

  lemma VitalControls(q: Queue)
    ensures Select(Controls(q), Vital, true) == Select(q, Vital, true)
  {
    forall i | 0 <= i < |q| ensures !(IsDatagram(q[i]) && Vital(q[i])) {
      VitalIsControl(q[i]);
    }
    SelectWithin(q, IsDatagram, Vital);
  }

  /**
   Up to the first refusal of any run, every message that is no frame, and
   every frame that is not a delivery, is popped or still queued, in order and
   once each; and the queue never exceeds 1024 messages or two mebibytes.
   */
  lemma VitalMessagesSurvive(steps: seq<Step>)
    requires After(steps).Some?
    ensures var r := After(steps).value;
            && Select(r.popped + r.queue, Vital, true) == Select(r.pushed, Vital, true)
            && |r.queue| <= 1024 && |Payloads(r.queue)| <= 2 * 1024 * 1024
  {
    ControlFramesSurvive(steps);
    var r := After(steps).value;
    SelectConcat(r.popped, r.queue, IsDatagram, false);
    VitalControls(r.popped + r.queue);
    VitalControls(r.pushed);
    PayloadBytes(r.queue);
  }

  /** A push is refused only when no delivery is left to shed. */
  lemma RefusalLeavesNoDelivery(q: Queue, m: Message)
    requires !Push(q, m).1
    ensures forall x | x in Push(q, m).0 :: !Delivery(x)
  {
    PushMeaning(q, m);
    var after := Push(q, m).0;
    forall i | 0 <= i < |after| ensures !Delivery(after[i]) {
      VitalIsControl(after[i]);
      if IsDatagram(after[i]) {
        SelectsSome(after, IsDatagram, i);
      }
    }
  }

  /** The binary payloads end to end. */
  function Payloads(q: Queue): Bytes {
    if q == [] then []
    else Payloads(q[..|q| - 1]) + if q[|q| - 1].Binary? then q[|q| - 1].bytes else []
  }

  /** The byte count is the number of payload bytes queued. */
  lemma {:induction false} PayloadBytes(q: Queue)
    ensures TotalBytes(q) == |Payloads(q)|
  {
    if q != [] {
      PayloadBytes(q[..|q| - 1]);
    }
  }

  /** A push is taken exactly when what may not be shed leaves room among 1024 messages and two mebibytes. */
  lemma PushTakenExactly(q: Queue, m: Message)
    ensures Push(q, m).1 <==> |Controls(q)| < 1024 && |Payloads(Controls(q))| + |Payloads([m])| <= 2 * 1024 * 1024
  {
    PushMeaning(q, m);
    PayloadBytes(Controls(q));
    PayloadBytes([m]);
    TotalOne(m, MessageLen);
  }

  /** A push that could have kept one more datagram would have. */
  lemma PushShedsOnlyAsNeeded(q: Queue, m: Message, k: nat)
    requires k < Excess(q, MessageLen(m))
    ensures var kept := DropOldest(q, k);
            |kept| >= 1024 || |Payloads(kept)| + |Payloads([m])| > 2 * 1024 * 1024
  {
    PushMeaning(q, m);
    PayloadBytes(DropOldest(q, k));
    PayloadBytes([m]);
    TotalOne(m, MessageLen);
  }
}
