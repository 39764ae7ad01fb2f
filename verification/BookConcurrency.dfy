/**
 The book shared between threads.  Any number of mutators change material and
 then publish the change (watch notification first, cache clear last); one
 sender at a time holds the cache lock and reads the three maps one after
 another; the relay pump subscribes, snapshots and registers; the relay takes
 registrations in order.  A step is one lock-protected action, and every
 interleaving of steps is a run.
 */
module BookConcurrency {
  import opened Core
  import opened Rendezvous
  import opened RendezvousBook
  import BookRuns
  import Frames

  /** A registration frame: the material it was built from and its tag count. */
  datatype Register = Register(material: Book, tags: nat)

  /** Where a `tag_for_send` stands after it took the cache lock and missed. */
  datatype Sending =
    | Idle
    | Missed(peer: NodeId, epoch: U64)
    | SawPairing(peer: NodeId, epoch: U64, tag: Option<Tag>)
    | SawPaired(peer: NodeId, epoch: U64, tag: Option<Tag>)
    | Done(peer: NodeId, epoch: U64, tag: Option<Tag>)

  /** Where the relay pump stands; `seen` is the last notification it consumed. */
  datatype Pump =
    | Down
    | Snapped(offer: Register)  // only in the opposite order of `SnapshotFirst`
    | Subscribed(seen: nat)
    | Offering(seen: nat, offer: Register)
    | Waiting(seen: nat, sent: Register)
    | Woken(seen: nat, sent: Register)
    | Reoffering(seen: nat, sent: Register, offer: Register)

  datatype World = World(
    book: Book,
    notifications: nat,     // how often the watch channel was written
    changed: nat,           // mutators that changed material and have not notified
    notified: nat,          // mutators that notified and have not cleared the cache
    cache: SendCache,
    sending: Sending,
    pump: Pump,
    wire: seq<Register>,    // registrations on their way to the relay
    relay: Option<Register> // what the relay holds for the current session
  )

  datatype Step =
    | Change(next: Book)
    | Notify
    | Clear
    | StartSend(peer: NodeId, host: Host, epoch: U64)
    | ReadPairing
    | ReadPaired
    | ReadPeers
    | FinishSend
    | Subscribe
    | Snapshot(now: U64)
    | FirstRegister
    | Wake
    | Refresh
    | Resnapshot(now: U64)
    | Reregister
    | RelayTakes
    | Lose

  function RegisterOf(b: Book, now: U64): Register {
    Register(b, |Window(now)| * |Slots(b)|)
  }

  /** The part of the send derivation that the pairing map alone decides. */
  function FromPairing(kdf: Kdf, b: Book, peer: NodeId, host: Host, epoch: U64): Option<Tag> {
    if Holds(b, AdmissionSlot(peer)) then Some(Derive(kdf, SecretIn(b, AdmissionSlot(peer)), host, epoch))
    else if Holds(b, LiveSlot(peer)) then Some(Derive(kdf, SecretIn(b, LiveSlot(peer)), host, epoch))
    else None
  }

  function FromSlot(kdf: Kdf, b: Book, slot: Slot, host: Host, epoch: U64): Option<Tag> {
    if Holds(b, slot) then Some(Derive(kdf, SecretIn(b, slot), host, epoch)) else None
  }

  predicate Enabled(w: World, step: Step) {
    match step
    case Change(_) => true
    case Notify => w.changed > 0
    case Clear => w.notified > 0 && w.sending.Idle?
    case StartSend(_, _, _) => w.sending.Idle?
    case ReadPairing => w.sending.Missed?
    case ReadPaired => w.sending.SawPairing? && w.sending.tag.None?
    case ReadPeers => w.sending.SawPaired? && w.sending.tag.None?
    case FinishSend => w.sending.Done? || ((w.sending.SawPairing? || w.sending.SawPaired?) && w.sending.tag.Some?)
    case Subscribe => w.pump.Down?
    case Snapshot(_) => w.pump.Subscribed?
    case FirstRegister => w.pump.Offering?
    case Wake => w.pump.Waiting? && w.pump.seen < w.notifications
    case Refresh => w.pump.Waiting?
    case Resnapshot(_) => w.pump.Woken?
    case Reregister => w.pump.Reoffering?
    case RelayTakes => w.wire != [] && w.wire[0].tags <= Frames.MAX_TAGS_PER_REGISTER
    case Lose => !w.pump.Down?
  }

  function Apply(kdf: Kdf, w: World, step: Step): World
    requires Enabled(w, step)
  {
    match step
    case Change(next) => w.(book := next, changed := w.changed + 1)
    case Notify => w.(changed := w.changed - 1, notified := w.notified + 1, notifications := w.notifications + 1)
    case Clear => w.(notified := w.notified - 1, cache := w.cache.(tags := map[]))
    case StartSend(peer, host, epoch) =>
      var cache := OnHost(w.cache, host);
      if (peer, epoch) in cache.tags then w.(cache := cache)
      else w.(cache := cache, sending := Missed(peer, epoch))
    case ReadPairing =>
      var s := w.sending;
      w.(sending := SawPairing(s.peer, s.epoch, FromPairing(kdf, w.book, s.peer, w.cache.host, s.epoch)))
    case ReadPaired =>
      var s := w.sending;
      w.(sending := SawPaired(s.peer, s.epoch, FromSlot(kdf, w.book, PairedSlot(s.peer), w.cache.host, s.epoch)))
    case ReadPeers =>
      var s := w.sending;
      w.(sending := Done(s.peer, s.epoch, FromSlot(kdf, w.book, CardSlot(s.peer), w.cache.host, s.epoch)))
    case FinishSend =>
      var s := w.sending;
      w.(sending := Idle,
      cache := if s.tag.None? then w.cache else Remembered(w.cache, (s.peer, s.epoch), s.tag.value))
    case Subscribe => w.(pump := Subscribed(w.notifications))
    case Snapshot(now) => w.(pump := Offering(w.pump.seen, RegisterOf(w.book, now)))
    case FirstRegister => w.(pump := Waiting(w.pump.seen, w.pump.offer), wire := w.wire + [w.pump.offer])
    case Wake => w.(pump := Woken(w.notifications, w.pump.sent))
    case Refresh => w.(pump := Woken(w.pump.seen, w.pump.sent))
    case Resnapshot(now) => w.(pump := Reoffering(w.pump.seen, w.pump.sent, RegisterOf(w.book, now)))
    case Reregister => w.(pump := Waiting(w.pump.seen, w.pump.offer), wire := w.wire + [w.pump.offer])
    case RelayTakes => w.(relay := Some(w.wire[0]), wire := w.wire[1..])
    case Lose => w.(pump := Down, wire := [], relay := None)
  }

  /** The tag a step hands back to its caller, when it is the last step of a send. */
  function Answer(w: World, step: Step): Option<Option<Tag>>
    requires Enabled(w, step)
  {
    match step
    case StartSend(peer, host, epoch) =>
      var cache := OnHost(w.cache, host);
      if (peer, epoch) in cache.tags then Some(Some(cache.tags[(peer, epoch)])) else None
    case FinishSend => Some(w.sending.tag)
    case _ => None
  }

  /** What that caller asked for. */
  function Question(w: World, step: Step): (NodeId, Host, U64)
    requires Enabled(w, step) && Answer(w, step).Some?
  {
    match step
    case StartSend(peer, host, epoch) => (peer, host, epoch)
    case FinishSend => (w.sending.peer, w.cache.host, w.sending.epoch)
  }

  ghost predicate Initial(w: World) {
    && w.changed == w.notified == 0
    && w.cache.tags == map[] && w.sending.Idle?
    && w.pump.Down? && w.wire == [] && w.relay.None?
  }

  ghost predicate IsRun(kdf: Kdf, worlds: seq<World>, steps: seq<Step>) {
    && |worlds| == |steps| + 1
    && Initial(worlds[0])
    && forall i | 0 <= i < |steps| :: Enabled(worlds[i], steps[i]) && worlds[i + 1] == Apply(kdf, worlds[i], steps[i])
  }

  // ---------------------------------------------------------------------
  // Invariant
  // ---------------------------------------------------------------------

  /** No mutator is between its material change and its cache clear. */
  predicate Quiet(w: World) {
    w.changed == 0 && w.notified == 0
  }

  ghost predicate SendInv(kdf: Kdf, w: World) {
    var b, host := w.book, w.cache.host;
    match w.sending
    case Idle => true
    case Missed(_, _) => true
    case SawPairing(peer, epoch, tag) => tag == FromPairing(kdf, b, peer, host, epoch)
    case SawPaired(peer, epoch, tag) =>
      FromPairing(kdf, b, peer, host, epoch).None? && tag == FromSlot(kdf, b, PairedSlot(peer), host, epoch)
    case Done(peer, epoch, tag) => tag == Derived(kdf, b, peer, host, epoch)
  }

  /** The material of `r` is current, or news of a change is on its way to the pump. */
  ghost predicate Current(w: World, seen: nat, r: Register) {
    r.material == w.book || w.changed > 0 || seen < w.notifications
  }

  ghost predicate LastSentIs(w: World, r: Register) {
    if w.wire == [] then w.relay == Some(r) else w.wire[|w.wire| - 1] == r
  }

  ghost predicate PumpInv(w: World) {
    match w.pump
    case Down => w.wire == [] && w.relay.None?
    case Snapped(_) => false
    case Subscribed(seen) => w.wire == [] && w.relay.None? && seen <= w.notifications
    case Offering(seen, offer) =>
      w.wire == [] && w.relay.None? && seen <= w.notifications && Current(w, seen, offer)
    case Waiting(seen, sent) => seen <= w.notifications && Current(w, seen, sent) && LastSentIs(w, sent)
    case Woken(seen, sent) => seen <= w.notifications && LastSentIs(w, sent)
    case Reoffering(seen, sent, offer) =>
      seen <= w.notifications && Current(w, seen, offer) && LastSentIs(w, sent)
  }

  ghost predicate Inv(kdf: Kdf, w: World) {
    && (Quiet(w) ==> BookRuns.CacheSound(kdf, w.book, w.cache) && SendInv(kdf, w))
    && PumpInv(w)
  }

  lemma FinishKeepsCache(kdf: Kdf, w: World)
    requires Enabled(w, FinishSend) && BookRuns.CacheSound(kdf, w.book, w.cache) && SendInv(kdf, w)
    ensures w.sending.tag == Derived(kdf, w.book, w.sending.peer, w.cache.host, w.sending.epoch)
    ensures BookRuns.CacheSound(kdf, w.book, Apply(kdf, w, FinishSend).cache)
  {
    var s := w.sending;
    assert s.tag == Derived(kdf, w.book, s.peer, w.cache.host, s.epoch);
    if s.tag.Some? {
      BookRuns.RememberedIsSound(kdf, w.book, w.cache, (s.peer, s.epoch), s.tag.value);
    }
  }

  lemma StepKeepsSendInv(kdf: Kdf, w: World, step: Step)
    requires Enabled(w, step)
    requires Quiet(w) ==> BookRuns.CacheSound(kdf, w.book, w.cache) && SendInv(kdf, w)
    ensures var w' := Apply(kdf, w, step);
            Quiet(w') ==> BookRuns.CacheSound(kdf, w'.book, w'.cache) && SendInv(kdf, w')
  {
    match step
    case FinishSend => if Quiet(w) { FinishKeepsCache(kdf, w); }
    case _ =>
  }

  predicate OfPump(step: Step) {
    step.Subscribe? || step.Snapshot? || step.Wake? || step.Refresh? || step.Resnapshot? || step.Lose?
  }

  predicate OfWire(step: Step) {
    step.FirstRegister? || step.Reregister? || step.RelayTakes?
  }

  lemma PumpKeepsPumpInv(kdf: Kdf, w: World, step: Step)
    requires Enabled(w, step) && PumpInv(w) && OfPump(step)
    ensures PumpInv(Apply(kdf, w, step))
  {
  }

  lemma WireKeepsPumpInv(kdf: Kdf, w: World, step: Step)
    requires Enabled(w, step) && PumpInv(w) && OfWire(step)
    ensures PumpInv(Apply(kdf, w, step))
  {
  }

  lemma BookKeepsPumpInv(kdf: Kdf, w: World, step: Step)
    requires Enabled(w, step) && PumpInv(w) && !OfPump(step) && !OfWire(step)
    ensures PumpInv(Apply(kdf, w, step))
  {
  }

  lemma StepKeepsInv(kdf: Kdf, w: World, step: Step)
    requires Inv(kdf, w) && Enabled(w, step)
    ensures Inv(kdf, Apply(kdf, w, step))
  {
    StepKeepsSendInv(kdf, w, step);
    if OfPump(step) {
      PumpKeepsPumpInv(kdf, w, step);
    } else if OfWire(step) {
      WireKeepsPumpInv(kdf, w, step);
    } else {
      BookKeepsPumpInv(kdf, w, step);
    }
  }

  lemma {:induction false} RunKeepsInv(kdf: Kdf, worlds: seq<World>, steps: seq<Step>, i: nat)
    requires IsRun(kdf, worlds, steps) && i < |worlds|
    ensures Inv(kdf, worlds[i])
  {
    if i > 0 {
      RunKeepsInv(kdf, worlds, steps, i - 1);
      StepKeepsInv(kdf, worlds[i - 1], steps[i - 1]);
    }
  }

  // ---------------------------------------------------------------------
  // Main results
  // ---------------------------------------------------------------------

  /**
   No lost registration.  In every interleaving, whenever no mutator stands
   between its change and its notification and the pump has no unseen
   notification, the last registration the pump sent is of exactly the book's
   current material; once the relay has taken what is on the wire, that is
   what the relay holds.
   */
  lemma NoLostRegistration(kdf: Kdf, worlds: seq<World>, steps: seq<Step>, i: nat)
    requires IsRun(kdf, worlds, steps) && i < |worlds|
    requires worlds[i].pump.Waiting? && worlds[i].changed == 0
    requires worlds[i].pump.seen == worlds[i].notifications
    ensures worlds[i].pump.sent.material == worlds[i].book
    ensures worlds[i].wire == [] ==> worlds[i].relay.Some? && worlds[i].relay.value.material == worlds[i].book
  {
    RunKeepsInv(kdf, worlds, steps, i);
  }

  /** Stale material at a waiting pump always leaves a step enabled that wakes it or announces the change. */
  lemma StaleRegistrationIsAnnounced(kdf: Kdf, worlds: seq<World>, steps: seq<Step>, i: nat)
    requires IsRun(kdf, worlds, steps) && i < |worlds|
    requires worlds[i].pump.Waiting? && worlds[i].pump.sent.material != worlds[i].book
    ensures Enabled(worlds[i], Wake) || Enabled(worlds[i], Notify)
  {
    RunKeepsInv(kdf, worlds, steps, i);
  }

  /**
   The cache under concurrency.  A send that is answered while no mutator
   stands between its change and its clear is answered from current material,
   although it read the three maps in separate steps and other threads were
   free to change them in between.
   */
  lemma SendAnswersCurrentMaterial(kdf: Kdf, worlds: seq<World>, steps: seq<Step>, i: nat)
    requires IsRun(kdf, worlds, steps) && i < |steps|
    requires Quiet(worlds[i]) && Answer(worlds[i], steps[i]).Some?
    ensures var (peer, host, epoch) := Question(worlds[i], steps[i]);
            Answer(worlds[i], steps[i]).value == Derived(kdf, worlds[i].book, peer, host, epoch)
  {
    RunKeepsInv(kdf, worlds, steps, i);
    if steps[i].FinishSend? {
      FinishKeepsCache(kdf, worlds[i]);
    }
  }

  // ---------------------------------------------------------------------
  // Catching up
  // ---------------------------------------------------------------------

  /**
   A woken pump catches up: whether a notification or the refresh woke it, its
   next three steps register the book as it is then, and leave nothing unseen
   that it was woken for.
   */
  lemma WakeCatchesUp(kdf: Kdf, w: World, first: Step, now: U64)
    requires w.pump.Waiting? && (first == Wake || first == Refresh) && Enabled(w, first)
    ensures var w1 := Apply(kdf, w, first);
      && Enabled(w1, Resnapshot(now)) && Enabled(Apply(kdf, w1, Resnapshot(now)), Reregister)
      && var w3 := Apply(kdf, Apply(kdf, w1, Resnapshot(now)), Reregister);
         && w3.pump.Waiting? && w3.pump.sent.material == w.book && w3.wire == w.wire + [w3.pump.sent]
         && w3.pump.sent.tags == |Window(now)| * |Slots(w.book)|
         && w3.book == w.book && w3.pump.seen == if first == Wake then w.notifications else w.pump.seen
  {
  }

  /** A fresh connection that nothing interrupts offers the book as it is, with every notification so far behind it. */
  lemma ConnectOffersBook(kdf: Kdf, w: World, now: U64)
    requires Enabled(w, Subscribe)
    ensures Enabled(Apply(kdf, w, Subscribe), Snapshot(now))
    ensures Apply(kdf, Apply(kdf, w, Subscribe), Snapshot(now))
         == w.(pump := Offering(w.notifications, Register(w.book, |Window(now)| * |Slots(w.book)|)))
  {
  }
}
