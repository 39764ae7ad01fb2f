/**
 Why the pump subscribes before it takes its snapshot: what happens in the
 opposite order.
 */
module SnapshotFirst {
  import opened Core
  import opened Rendezvous
  import opened RendezvousBook
  import opened BookConcurrency

  /** The opposite order: the pump snapshots while down and subscribes afterwards; every other step is the same. */
  ghost predicate LateNext(kdf: Kdf, w: World, w': World, step: Step) {
    match step
    case Snapshot(now) => w.pump.Down? && w' == w.(pump := Snapped(RegisterOf(w.book, now)))
    case Subscribe => w.pump.Snapped? && w' == w.(pump := Offering(w.notifications, w.pump.offer))
    case _ => Enabled(w, step) && w' == Apply(kdf, w, step)
  }

  ghost predicate IsLateRun(kdf: Kdf, worlds: seq<World>, steps: seq<Step>) {
    && |worlds| == |steps| + 1
    && Initial(worlds[0])
    && forall i | 0 <= i < |steps| :: LateNext(kdf, worlds[i], worlds[i + 1], steps[i])
  }

  lemma LateSnoc(kdf: Kdf, worlds: seq<World>, steps: seq<Step>, w': World, step: Step)
    requires IsLateRun(kdf, worlds, steps) && LateNext(kdf, worlds[|steps|], w', step)
    ensures IsLateRun(kdf, worlds + [w'], steps + [step])
  {
  }

  function Mutated(w: World, next: Book): World {
    w.(book := next, notifications := w.notifications + 1, cache := w.cache.(tags := map[]))
  }

  /** A mutation that nothing interrupts. */
  lemma WholeMutation(kdf: Kdf, worlds: seq<World>, steps: seq<Step>, next: Book) returns (worlds': seq<World>)
    requires IsLateRun(kdf, worlds, steps)
    requires var w := worlds[|steps|]; w.changed == w.notified == 0 && w.sending.Idle?
    ensures IsLateRun(kdf, worlds', steps + [Change(next)] + [Notify] + [Clear])
    ensures worlds <= worlds' && worlds'[|steps| + 3] == Mutated(worlds[|steps|], next)
  {
    var w := worlds[|steps|];
    var w1 := Apply(kdf, w, Change(next));
    var w2 := Apply(kdf, w1, Notify);
    LateSnoc(kdf, worlds, steps, w1, Change(next));
    LateSnoc(kdf, worlds + [w1], steps + [Change(next)], w2, Notify);
    LateSnoc(kdf, worlds + [w1] + [w2], steps + [Change(next)] + [Notify], Mutated(w, next), Clear);
    worlds' := worlds + [w1] + [w2] + [Mutated(w, next)];
  }

  /** The pump has missed the change from `was` to `next`: nothing is unseen, and its registration is of `was`. */
  predicate MissedChange(w: World, was: Book, next: Book) {
    && w.pump.Waiting? && w.changed == 0 && w.pump.seen == w.notifications
    && w.book == next && w.pump.sent.material == was
  }

  /** One whole mutation between the snapshot and the subscription. */
  function LateSteps(next: Book, now: U64): seq<Step> {
    [Snapshot(now)] + [Change(next)] + [Notify] + [Clear] + [Subscribe] + [FirstRegister]
  }

  /**
   In the opposite order `NoLostRegistration` fails: from every initial world
   and for every change, a run ends with a waiting pump that has seen every
   notification, no mutator under way, and stale material registered.
   */
  lemma LateSubscriptionMissesChange(kdf: Kdf, w: World, next: Book, now: U64) returns (worlds: seq<World>)
    requires Initial(w) && next != w.book
    ensures IsLateRun(kdf, worlds, LateSteps(next, now)) && worlds[0] == w
    ensures MissedChange(worlds[6], w.book, next)
  {
    var offer := RegisterOf(w.book, now);
    var w1 := w.(pump := Snapped(offer));
    LateSnoc(kdf, [w], [], w1, Snapshot(now));
    assert [] + [Snapshot(now)] == [Snapshot(now)];
    worlds := WholeMutation(kdf, [w] + [w1], [Snapshot(now)], next);
    worlds := LateSubscription(kdf, worlds, [Snapshot(now)] + [Change(next)] + [Notify] + [Clear], offer);
  }

  /** The pump subscribes with its snapshot in hand, and registers that. */
  lemma LateSubscription(kdf: Kdf, worlds: seq<World>, steps: seq<Step>, offer: Register) returns (worlds': seq<World>)
    requires IsLateRun(kdf, worlds, steps) && worlds[|steps|].pump == Snapped(offer)
    ensures IsLateRun(kdf, worlds', steps + [Subscribe] + [FirstRegister]) && worlds <= worlds'
    ensures var w, w' := worlds[|steps|], worlds'[|steps| + 2];
      w'.pump == Waiting(w.notifications, offer) && w'.changed == w.changed && w'.notifications == w.notifications && w'.book == w.book
  {
    var w := worlds[|steps|];
    var w1 := w.(pump := Offering(w.notifications, offer));
    var w2 := Apply(kdf, w1, FirstRegister);
    LateSnoc(kdf, worlds, steps, w1, Subscribe);
    LateSnoc(kdf, worlds + [w1], steps + [Subscribe], w2, FirstRegister);
    worlds' := worlds + [w1] + [w2];
  }

  /** A missed change stays missed until another change or the pump's periodic refresh: no notification wakes it. */
  lemma MissedChangeStays(kdf: Kdf, w: World, w': World, step: Step, was: Book, next: Book)
    requires MissedChange(w, was, next) && LateNext(kdf, w, w', step)
    requires !step.Change? && !step.Refresh? && !step.Lose?
    ensures step != Wake && step != Notify && MissedChange(w', was, next)
  {
  }
}
