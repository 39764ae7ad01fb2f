/**
 What each operation of the rendezvous book does to its slots, and what every
 slot holds after any run: the last thing written to it that nothing has
 taken away since.
 */
module BookHistory {
  import opened Core
  import opened Rendezvous
  import opened RendezvousBook
  import opened BookRuns
  import opened History

  // ---------------------------------------------------------------------
  // One operation
  // ---------------------------------------------------------------------

  /** Every slot but `changed` is held after as before, with the same secret. */
  ghost predicate OtherSlotsKept(b: Book, b': Book, changed: Slot) {
    forall slot | slot != changed ::
      && (Holds(b', slot) <==> Holds(b, slot))
      && (Holds(b, slot) ==> SecretIn(b', slot) == SecretIn(b, slot))
  }

  /** One change was counted and no tag is cached any more. */
  predicate Counted(s: BookState, s': BookState) {
    s'.changes == s.changes + 1 && s'.cache == SendCache(s.cache.host, map[])
  }

  lemma UpsertMeaning(s: BookState, peer: NodeId, m: CardMaterial)
    ensures var s' := Upsert(s, peer, m);
      && Holds(s'.book, CardSlot(peer)) && SecretIn(s'.book, CardSlot(peer)) == CardSecret(m)
      && OtherSlotsKept(s.book, s'.book, CardSlot(peer)) && Counted(s, s')
  {
  }

  lemma RemoveMeaning(s: BookState, peer: NodeId)
    ensures var s' := Remove(s, peer);
      !Holds(s'.book, CardSlot(peer)) && OtherSlotsKept(s.book, s'.book, CardSlot(peer)) && Counted(s, s')
  {
  }

  lemma UpsertPairedMeaning(s: BookState, peer: NodeId, secret: Bytes32)
    ensures var s' := UpsertPaired(s, peer, secret);
      && Holds(s'.book, PairedSlot(peer)) && SecretIn(s'.book, PairedSlot(peer)) == PairedSecret(secret)
      && OtherSlotsKept(s.book, s'.book, PairedSlot(peer)) && Counted(s, s')
  {
  }

  lemma RemovePairedMeaning(s: BookState, peer: NodeId)
    ensures var s' := RemovePaired(s, peer);
      && !Holds(s'.book, PairedSlot(peer)) && OtherSlotsKept(s.book, s'.book, PairedSlot(peer))
      && if Holds(s.book, PairedSlot(peer)) then Counted(s, s') else s' == s
  {
  }

  lemma RegisterPairingMeaning(s: BookState, route: NodeId, secret: Bytes16, expiresAt: U64)
    requires Unused(s.book, route)
    ensures var s' := RegisterPairing(s, route, secret, expiresAt);
      && Holds(s'.book, AdmissionSlot(route))
      && s'.book.pairing[route].admission.value == Admission(secret, expiresAt)
      && OtherSlotsKept(s.book, s'.book, AdmissionSlot(route)) && Counted(s, s')
  {
  }

  lemma RemovePairingMeaning(s: BookState, route: NodeId)
    ensures var s' := RemovePairing(s, route);
      && !Holds(s'.book, AdmissionSlot(route)) && OtherSlotsKept(s.book, s'.book, AdmissionSlot(route))
      && if Holds(s.book, AdmissionSlot(route)) then Counted(s, s') else s' == s
  {
  }

  /** Pruning takes exactly the admissions whose expiry the clock has reached. */
  lemma PruneMeaning(s: BookState, now: U64)
    ensures var s' := Prune(s, now);
      && (forall slot :: Holds(s'.book, slot) <==>
            Holds(s.book, slot) && (slot.AdmissionSlot? ==> now < s.book.pairing[slot.owner].admission.value.expiresAt))
      && (forall slot | Holds(s'.book, slot) :: SecretIn(s'.book, slot) == SecretIn(s.book, slot))
      && (s' == s || Counted(s, s'))
  {
  }

  /** A send derives from the first slot held in the order admission, live, paired, card. */
  lemma SendSlotIsFirst(b: Book, peer: NodeId, slot: Slot)
    ensures SendSlot(b, peer) == Some(slot) <==>
      && Holds(b, slot) && slot.owner == peer
      && forall other | Holds(b, other) && other.owner == peer :: Rank(slot) <= Rank(other)
  {
    if Holds(b, slot) && slot.owner == peer {
      var first := SendSlot(b, peer).value;
      assert Holds(b, first) && first.owner == peer;
    }
  }

  function Rank(slot: Slot): nat {
    match slot
    case AdmissionSlot(_) => 0
    case LiveSlot(_) => 1
    case PairedSlot(_) => 2
    case CardSlot(_) => 3
  }

  /** A send changes no material beyond expiring admissions, and a tag it answered stays cached for its host and epoch. */
  lemma SendIsRemembered(kdf: Kdf, s: BookState, peer: NodeId, host: Host, now: U64)
    ensures var (s', tag) := TagForSend(kdf, s, peer, host, now);
      && s'.book == Prune(s, now).book && s'.changes == Prune(s, now).changes && s'.cache.host == host
      && (tag.Some? ==> (peer, now / 3600) in s'.cache.tags && s'.cache.tags[(peer, now / 3600)] == tag.value)
  {
  }

  /**
   What a send leaves cached besides its own answer: everything cached for the
   same host, unless the answer had to be added to 4096 tags, which clears it.
   */
  lemma SendKeepsCache(kdf: Kdf, s: BookState, peer: NodeId, host: Host, now: U64, other: (NodeId, U64))
    requires other != (peer, now / 3600)
    ensures var cached := Prune(s, now).cache;
      var (s', tag) := TagForSend(kdf, s, peer, host, now);
      && (other in s'.cache.tags <==>
            && cached.host == host && other in cached.tags
            && ((peer, now / 3600) in cached.tags || tag.None? || |cached.tags| < 4096))
      && (other in s'.cache.tags ==> s'.cache.tags[other] == cached.tags[other])
  {
  }

  // ---------------------------------------------------------------------
  // Runs
  // ---------------------------------------------------------------------

  /** Which calls give `peer` the card material `m`. */
  function Upserts(ops: seq<Op>, peer: NodeId, m: CardMaterial): nat -> bool {
    (i: nat) => i < |ops| && ops[i] == UpsertOp(peer, m)
  }

  /** Which calls replace or remove the card material of `peer`. */
  function TouchesCard(ops: seq<Op>, peer: NodeId): nat -> bool {
    (i: nat) => i < |ops| && (ops[i].UpsertOp? || ops[i].RemoveOp?) && ops[i].peer == peer
  }

  predicate HasCard(b: Book, peer: NodeId, m: CardMaterial) {
    peer in b.peers && b.peers[peer] == m
  }

  lemma CardStep(kdf: Kdf, s: BookState, op: Op, peer: NodeId, m: CardMaterial)
    ensures HasCard(Step(kdf, s, op).book, peer, m) <==>
      || op == UpsertOp(peer, m)
      || (HasCard(s.book, peer, m) && !((op.UpsertOp? || op.RemoveOp?) && op.peer == peer))
  {
  }

  /** After any run, a card slot holds the last material upserted since the last removal, and nothing else. */
  lemma {:induction false} CardSlotIsLastUpsert(kdf: Kdf, states: seq<BookState>, ops: seq<Op>, j: nat, peer: NodeId, m: CardMaterial)
    requires IsRun(kdf, states, ops) && j <= |ops|
    ensures HasCard(states[j].book, peer, m) <==>
      || Since(Upserts(ops, peer, m), TouchesCard(ops, peer), j)
      || (HasCard(states[0].book, peer, m) && Never(TouchesCard(ops, peer), j))
  {
    if j > 0 {
      CardSlotIsLastUpsert(kdf, states, ops, j - 1, peer, m);
      CardStep(kdf, states[j - 1], ops[j - 1], peer, m);
      SinceStep(Upserts(ops, peer, m), TouchesCard(ops, peer), j - 1);
      NeverStep(TouchesCard(ops, peer), j - 1);
    }
  }

  function Installs(ops: seq<Op>, peer: NodeId, secret: Bytes32): nat -> bool {
    (i: nat) => i < |ops| && ops[i] == UpsertPairedOp(peer, secret)
  }

  function TouchesPaired(ops: seq<Op>, peer: NodeId): nat -> bool {
    (i: nat) => i < |ops| && (ops[i].UpsertPairedOp? || ops[i].RemovePairedOp?) && ops[i].peer == peer
  }

  predicate HasPaired(b: Book, peer: NodeId, secret: Bytes32) {
    peer in b.paired && b.paired[peer] == secret
  }

  lemma PairedStep(kdf: Kdf, s: BookState, op: Op, peer: NodeId, secret: Bytes32)
    ensures HasPaired(Step(kdf, s, op).book, peer, secret) <==>
      || op == UpsertPairedOp(peer, secret)
      || (HasPaired(s.book, peer, secret) && !((op.UpsertPairedOp? || op.RemovePairedOp?) && op.peer == peer))
  {
  }

  /** After any run, a durable slot holds the last secret installed since the last removal, and nothing else. */
  lemma {:induction false} PairedSlotIsLastInstalled(kdf: Kdf, states: seq<BookState>, ops: seq<Op>, j: nat, peer: NodeId, secret: Bytes32)
    requires IsRun(kdf, states, ops) && j <= |ops|
    ensures HasPaired(states[j].book, peer, secret) <==>
      || Since(Installs(ops, peer, secret), TouchesPaired(ops, peer), j)
      || (HasPaired(states[0].book, peer, secret) && Never(TouchesPaired(ops, peer), j))
  {
    if j > 0 {
      PairedSlotIsLastInstalled(kdf, states, ops, j - 1, peer, secret);
      PairedStep(kdf, states[j - 1], ops[j - 1], peer, secret);
      SinceStep(Installs(ops, peer, secret), TouchesPaired(ops, peer), j - 1);
      NeverStep(TouchesPaired(ops, peer), j - 1);
    }
  }

  function Registers(ops: seq<Op>, route: NodeId, a: Admission): nat -> bool {
    (i: nat) => i < |ops| && ops[i] == RegisterOp(route, a.secret, a.expiresAt)
  }

  /** Which calls end admission `a` of `route`: its drop, or any call whose clock reached its expiry. */
  function EndsAdmission(ops: seq<Op>, route: NodeId, a: Admission): nat -> bool {
    (i: nat) => i < |ops| && (ops[i] == DropAdmissionOp(route) || (Observed(ops[i]).Some? && Observed(ops[i]).value >= a.expiresAt))
  }

  predicate Admits(b: Book, route: NodeId, a: Admission) {
    route in b.pairing && b.pairing[route].admission == Some(a)
  }

  lemma AdmissionStep(kdf: Kdf, s: BookState, op: Op, route: NodeId, a: Admission)
    requires Enabled(s, op)
    ensures Admits(Step(kdf, s, op).book, route, a) <==>
      || op == RegisterOp(route, a.secret, a.expiresAt)
      || (Admits(s.book, route, a) && op != DropAdmissionOp(route) && !(Observed(op).Some? && Observed(op).value >= a.expiresAt))
  {
    if op.PromoteOp? || op.ObserveOp? || op.SendOp? {
      assert Admits(Prune(s, op.now).book, route, a) <==> Admits(s.book, route, a) && op.now < a.expiresAt;
    }
  }

  /** After any run, an admission is there if and only if it was registered and no call since ended it. */
  lemma {:induction false} AdmissionIsRegistered(kdf: Kdf, states: seq<BookState>, ops: seq<Op>, j: nat, route: NodeId, a: Admission)
    requires IsRun(kdf, states, ops) && StartsFresh(states) && j <= |ops|
    ensures Admits(states[j].book, route, a) <==> Since(Registers(ops, route, a), EndsAdmission(ops, route, a), j)
  {
    if j > 0 {
      AdmissionIsRegistered(kdf, states, ops, j - 1, route, a);
      AdmissionStep(kdf, states[j - 1], ops[j - 1], route, a);
      SinceStep(Registers(ops, route, a), EndsAdmission(ops, route, a), j - 1);
    }
  }

  /** Which calls install live route `live`: promotions with its secret and generation, under an unexpired admission. */
  function Promotes(states: seq<BookState>, ops: seq<Op>, route: NodeId, live: LiveRoute): nat -> bool {
    (i: nat) => i < |ops| && i < |states| && PromotesNow(states[i], ops[i], route, live)
  }

  predicate PromotesNow(s: BookState, op: Op, route: NodeId, live: LiveRoute) {
    && op.PromoteOp? && op.route == route && op.secret == live.secret && op.generation == live.generation
    && Holds(s.book, AdmissionSlot(route)) && op.now < s.book.pairing[route].admission.value.expiresAt
  }

  function EndsLiveRoute(states: seq<BookState>, ops: seq<Op>, route: NodeId, live: LiveRoute): nat -> bool {
    (i: nat) => i < |ops| && i < |states| && EndsLive(states[i], ops[i], route, live.generation)
  }

  lemma LiveStep(kdf: Kdf, s: BookState, op: Op, route: NodeId, live: LiveRoute)
    requires Enabled(s, op)
    ensures Carries(Step(kdf, s, op).book, route, live) <==>
      (Carries(s.book, route, live) && !EndsLive(s, op, route, live.generation)) || PromotesNow(s, op, route, live)
  {
    if op.PromoteOp? || op.ObserveOp? || op.SendOp? {
      assert Carries(Prune(s, op.now).book, route, live) <==> Carries(s.book, route, live);
      assert Holds(Prune(s, op.now).book, AdmissionSlot(route)) <==>
        Holds(s.book, AdmissionSlot(route)) && op.now < s.book.pairing[route].admission.value.expiresAt;
    }
  }

  /** After any run, a live route is there if and only if a promotion installed it and no call since ended it. */
  lemma {:induction false} LiveIsPromoted(kdf: Kdf, states: seq<BookState>, ops: seq<Op>, j: nat, route: NodeId, live: LiveRoute)
    requires IsRun(kdf, states, ops) && StartsFresh(states) && j <= |ops|
    ensures Carries(states[j].book, route, live) <==>
      Since(Promotes(states, ops, route, live), EndsLiveRoute(states, ops, route, live), j)
  {
    if j > 0 {
      LiveIsPromoted(kdf, states, ops, j - 1, route, live);
      LiveStep(kdf, states[j - 1], ops[j - 1], route, live);
      SinceStep(Promotes(states, ops, route, live), EndsLiveRoute(states, ops, route, live), j - 1);
    }
  }
}
