/**
 Rendezvous from one end to the other: a tag one endpoint sends with, through
 its cache, is in the set the other endpoint registers, reaches the other
 endpoint's relay session, and is attributed there to the sender.
 */
module EndToEnd {
  import opened Core
  import opened Rendezvous
  import opened RendezvousBook
  import opened RelayRegistry
  import BookRuns
  import RelayRuns

  /** Both books hold one secret for each other: `theirs` is what `ours` sends to `peer` with. */
  ghost predicate Shared(ours: Book, peer: NodeId, theirs: Book, slot: Slot) {
    && SendSlot(ours, peer).Some? && Holds(theirs, slot)
    && SecretIn(ours, SendSlot(ours, peer).value) == SecretIn(theirs, slot)
  }

  /**
   Clock skew.  A sent tag is in the other side's registered set whenever the
   two clocks are within an hour of each other.
   */
  lemma SentTagIsRegistered(kdf: Kdf, ours: Book, peer: NodeId, sentAt: U64,
                            theirs: Book, slot: Slot, registeredAt: U64, host: Host, tag: Tag)
    requires Shared(ours, peer, theirs, slot)
    requires Derived(kdf, ours, peer, host, EpochIndex(sentAt)) == Some(tag)
    requires -EPOCH_SECONDS <= sentAt - registeredAt <= EPOCH_SECONDS
    ensures SlotCovers(kdf, theirs, slot, host, registeredAt, tag)
    ensures Registered(kdf, theirs, host, registeredAt, tag)
  {
    SkewIsOneEpoch(sentAt, registeredAt);
    assert Derive(kdf, SecretIn(theirs, slot), host, EpochIndex(sentAt)) == tag;
    assert SlotCovers(kdf, theirs, slot, host, registeredAt, tag);
  }

  /**
   The exact tolerance: barring an HKDF collision the sent tag is registered
   by the shared slot if and only if the two clocks are at most one epoch
   apart.
   */
  lemma SkewToleranceIsOneEpoch(kdf: Kdf, ours: Book, peer: NodeId, sentAt: U64,
                                theirs: Book, slot: Slot, registeredAt: U64, host: Host, tag: Tag)
    requires Shared(ours, peer, theirs, slot)
    requires Derived(kdf, ours, peer, host, EpochIndex(sentAt)) == Some(tag)
    requires NoCollision(kdf, BookRuns.WindowInputs(theirs, host, registeredAt)
                              + {(InputKey(SecretIn(theirs, slot)), Info(host, EpochIndex(sentAt)))})
    ensures SlotCovers(kdf, theirs, slot, host, registeredAt, tag) <==>
            -1 <= EpochIndex(sentAt) - EpochIndex(registeredAt) <= 1
  {
    var s, sent := SecretIn(theirs, slot), EpochIndex(sentAt);
    assert Derive(kdf, s, host, sent) == tag;
    if SlotCovers(kdf, theirs, slot, host, registeredAt, tag) {
      var e :| e in Window(registeredAt) && Derive(kdf, s, host, e) == tag;
      var inputs := BookRuns.WindowInputs(theirs, host, registeredAt) + {(InputKey(s), Info(host, sent))};
      assert slot in Slots(theirs) && (InputKey(s), Info(host, e)) in inputs;
      TagDeterminesPreimage(kdf, inputs, s, host, e, s, host, sent);
    }
  }

  /** `tags` is what a book registers on `host` at `now`. */
  ghost predicate IsRegistration(kdf: Kdf, b: Book, host: Host, now: U64, tags: seq<Tag>) {
    forall t :: t in tags <==> Registered(kdf, b, host, now, t)
  }

  /** The relay step by which session `id` registers `tags`, first or again. */
  predicate RegistersNow(r: RelayRuns.Relay, step: RelayRuns.Step, id: SessionId, tags: seq<Tag>) {
    || step == RelayRuns.EnterTags(id, tags)
    || (step == RelayRuns.Reregister(id, tags) && id in r.sessions && r.sessions[id].Tags?)
  }

  /** Two sessions with larger ids than `id` already hold `t`. */
  ghost predicate Outranked(r: RelayRuns.Relay, id: SessionId, t: Tag) {
    |HoldersOf(r.holders, t) - {id}| == 2 && forall x | x in HoldersOf(r.holders, t) - {id} :: id < x
  }

  /** Between the registration at step `j` and state `k`, no step made session `id` lose `t`. */
  ghost predicate KeepsTag(relays: seq<RelayRuns.Relay>, steps: seq<RelayRuns.Step>, j: nat, k: nat, id: SessionId, t: Tag)
    requires j < k < |relays| && |relays| == |steps| + 1
  {
    forall m | j < m < k :: !RelayRuns.LosesAt(relays, steps, m, id, t)
  }

  /**
   End to end.  Endpoint A, after any run of its book, is handed `tag` (from
   the cache or not) for peer `b`.  Endpoint B, whose clock is within an hour,
   registered its book on the same relay at step `j`.  Whatever the relay did
   since, in state `k` it queues A's datagram to B's session, whichever
   session A sends from, as long as B's session did not lose the tag in
   between.  When B resolves the tag, its book may have changed as long as the
   shared slot is still there; barring an HKDF collision and shared secrets it
   attributes the datagram to A.
   */
  lemma DatagramReachesAndNamesItsPeer(
    kdf: Kdf, host: Host, tag: Tag,
    statesA: seq<BookState>, opsA: seq<BookRuns.Op>, i: nat, b: NodeId, sentAt: U64,
    bookB: Book, slot: Slot, nowB: U64, tagsB: seq<Tag>, laterB: Book, resolvedAt: U64,
    relays: seq<RelayRuns.Relay>, steps: seq<RelayRuns.Step>, j: nat, k: nat, sessionA: SessionId, sessionB: SessionId)
    requires BookRuns.IsRun(kdf, statesA, opsA) && BookRuns.StartsFresh(statesA) && i < |statesA|
    requires TagForSend(kdf, statesA[i], b, host, sentAt).1 == Some(tag)
    requires Shared(Pruned(statesA[i].book, sentAt), b, bookB, slot)
    requires Shared(Pruned(statesA[i].book, sentAt), b, laterB, slot)
    requires -EPOCH_SECONDS <= sentAt - nowB <= EPOCH_SECONDS
    requires -EPOCH_SECONDS <= sentAt - resolvedAt <= EPOCH_SECONDS
    requires IsRegistration(kdf, bookB, host, nowB, tagsB)
    requires RelayRuns.IsRun(relays, steps) && j < k < |relays|
    requires RegistersNow(relays[j], steps[j], sessionB, tagsB) && !Outranked(relays[j], sessionB, tag)
    requires KeepsTag(relays, steps, j, k, sessionB, tag)
    requires sessionA != sessionB
    ensures sessionB in RelayRuns.Targets(relays[k], sessionA, tag)
    ensures NoCollision(kdf, BookRuns.WindowInputs(laterB, host, resolvedAt)) && BookRuns.DistinctOwners(laterB) ==>
              forall r | Attributes(kdf, laterB, host, resolvedAt, tag, r) :: r == Some(slot.owner)
  {
    BookRuns.CacheRefinesDerivation(kdf, statesA, opsA, i);
    assert Derived(kdf, Pruned(statesA[i].book, sentAt), b, host, EpochIndex(sentAt)) == Some(tag);
    SentTagIsRegistered(kdf, Pruned(statesA[i].book, sentAt), b, sentAt, bookB, slot, nowB, host, tag);
    assert tag in tagsB;
    StaysTarget(relays, steps, j, k, sessionA, sessionB, tagsB, tag);
    assert TargetAt(relays, k, sessionA, sessionB, tag);
    SentTagIsRegistered(kdf, Pruned(statesA[i].book, sentAt), b, sentAt, laterB, slot, resolvedAt, host, tag);
    if NoCollision(kdf, BookRuns.WindowInputs(laterB, host, resolvedAt)) && BookRuns.DistinctOwners(laterB) {
      forall r | Attributes(kdf, laterB, host, resolvedAt, tag, r) ensures r == Some(slot.owner) {
        BookRuns.AttributionIsUnique(kdf, laterB, host, resolvedAt, tag, r, slot);
      }
    }
  }

  ghost predicate TargetAt(relays: seq<RelayRuns.Relay>, m: nat, sender: SessionId, id: SessionId, tag: Tag)
    requires m < |relays|
  {
    id in RelayRuns.Targets(relays[m], sender, tag)
  }

  lemma RegisteredSessionIsTarget(relays: seq<RelayRuns.Relay>, steps: seq<RelayRuns.Step>, j: nat,
                                  id: SessionId, tags: seq<Tag>, tag: Tag)
    requires RelayRuns.IsRun(relays, steps) && j < |steps|
    requires RegistersNow(relays[j], steps[j], id, tags) && tag in tags
    ensures RelayRuns.HoldsAt(relays, j + 1, id, tag) <==> !Outranked(relays[j], id, tag)
  {
    RelayRuns.RunKeepsInv(relays, steps, j);
    var r, r' := relays[j], relays[j + 1];
    var current := if steps[j].EnterTags? then [] else r.sessions[id].current;
    assert RelayRuns.Next(r, r', steps[j]);
    assert Left(r.holders, id, current, tag) == HoldersOf(r.holders, tag) - {id};
    RelayRuns.RegistrantHoldsUnlessOlder(r.holders, r'.holders, id, current, tags, tag);
  }

  /**
   A session that registered a tag and was not outranked is a target of every
   other sender in every later state, exactly as long as no step makes it lose
   the tag.
   */
  lemma StaysTarget(relays: seq<RelayRuns.Relay>, steps: seq<RelayRuns.Step>, j: nat, k: nat,
                    sender: SessionId, id: SessionId, tags: seq<Tag>, tag: Tag)
    requires RelayRuns.IsRun(relays, steps) && j < k < |relays|
    requires RegistersNow(relays[j], steps[j], id, tags) && tag in tags
    requires !Outranked(relays[j], id, tag) && sender != id
    ensures (forall m | j < m <= k :: TargetAt(relays, m, sender, id, tag)) <==> KeepsTag(relays, steps, j, k, id, tag)
  {
    RegisteredSessionIsTarget(relays, steps, j, id, tags, tag);
    RelayRuns.HolderStays(relays, steps, j + 1, k, id, tag);
    forall m | j < m <= k ensures TargetAt(relays, m, sender, id, tag) <==> RelayRuns.HoldsAt(relays, m, id, tag) {
    }
  }
}
