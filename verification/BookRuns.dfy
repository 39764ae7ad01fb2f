/**
 What holds over every run of the rendezvous book: the send cache is
 invisible, resolution attributes a tag to its only owner, routes live and die
 as the pairing rules say, and the version tells whether material changed.
 */
module BookRuns {
  import opened Core
  import opened Rendezvous
  import opened RendezvousBook

  /** One call on the book, with its clock reading where it takes one. */
  datatype Op =
    | UpsertOp(peer: NodeId, material: CardMaterial)
    | RemoveOp(peer: NodeId)
    | UpsertPairedOp(peer: NodeId, durable: Bytes32)
    | RemovePairedOp(peer: NodeId)
    | RegisterOp(route: NodeId, secret: Bytes16, expiresAt: U64)
    | DropAdmissionOp(route: NodeId)
    | PromoteOp(route: NodeId, secret: Bytes16, generation: U64, now: U64)
    | RemoveLiveOp(route: NodeId, generation: U64)
    | ObserveOp(now: U64)  // registration, resolve, pairing_active: all prune first
    | SendOp(peer: NodeId, host: Host, now: U64)

  /** A random route is drawn until it is unused; any other call is always possible. */
  predicate Enabled(s: BookState, op: Op) {
    op.RegisterOp? ==> Unused(s.book, op.route)
  }

  function Step(kdf: Kdf, s: BookState, op: Op): BookState {
    match op
    case UpsertOp(peer, m) => Upsert(s, peer, m)
    case RemoveOp(peer) => Remove(s, peer)
    case UpsertPairedOp(peer, secret) => UpsertPaired(s, peer, secret)
    case RemovePairedOp(peer) => RemovePaired(s, peer)
    case RegisterOp(route, secret, expiresAt) => RegisterPairing(s, route, secret, expiresAt)
    case DropAdmissionOp(route) => RemovePairing(s, route)
    case PromoteOp(route, secret, generation, now) => PromotePairing(s, route, secret, generation, now)
    case RemoveLiveOp(route, generation) => RemoveLivePairing(s, route, generation)
    case ObserveOp(now) => Prune(s, now)
    case SendOp(peer, host, now) => TagForSend(kdf, s, peer, host, now).0
  }

  /** `states` are the states a book passes through under `ops`. */
  ghost predicate IsRun(kdf: Kdf, states: seq<BookState>, ops: seq<Op>) {
    && |states| == |ops| + 1
    && forall i | 0 <= i < |ops| :: Enabled(states[i], ops[i]) && states[i + 1] == Step(kdf, states[i], ops[i])
  }

  ghost predicate StartsFresh(states: seq<BookState>) {
    |states| > 0 && exists peers, paired :: states[0] == InitialState(peers, paired)
  }

  // ---------------------------------------------------------------------
  // The cache never shows
  // ---------------------------------------------------------------------

  ghost predicate CacheSound(kdf: Kdf, b: Book, c: SendCache) {
    forall key | key in c.tags :: Derived(kdf, b, key.0, c.host, key.1) == Some(c.tags[key])
  }

  ghost predicate Inv(kdf: Kdf, s: BookState) {
    && RoutesKept(s.book)
    && CacheSound(kdf, s.book, s.cache)
    && |s.cache.tags| <= SEND_CACHE_CAP
  }

  lemma PruneKeepsInv(kdf: Kdf, s: BookState, now: U64)
    requires Inv(kdf, s)
    ensures Inv(kdf, Prune(s, now)) && Prune(s, now).book == Pruned(s.book, now)
  {
  }

  lemma RememberedFits(c: SendCache, key: (NodeId, U64), tag: Tag)
    requires |c.tags| <= SEND_CACHE_CAP
    ensures |Remembered(c, key, tag).tags| <= SEND_CACHE_CAP
  {
    var room := if |c.tags| >= SEND_CACHE_CAP then map[] else c.tags;
    assert room[key := tag].Keys == room.Keys + {key};
    assert |room.Keys + {key}| <= |room.Keys| + 1;
  }

  lemma RememberedIsSound(kdf: Kdf, b: Book, c: SendCache, key: (NodeId, U64), tag: Tag)
    requires CacheSound(kdf, b, c)
    requires Derived(kdf, b, key.0, c.host, key.1) == Some(tag)
    ensures CacheSound(kdf, b, Remembered(c, key, tag))
  {
    var after := Remembered(c, key, tag);
    forall k | k in after.tags ensures Derived(kdf, b, k.0, after.host, k.1) == Some(after.tags[k]) {
      assert k == key || (k in c.tags && after.tags[k] == c.tags[k]);
    }
  }

  lemma SendIsDerived(kdf: Kdf, s: BookState, peer: NodeId, host: Host, now: U64)
    requires Inv(kdf, s)
    ensures TagForSend(kdf, s, peer, host, now).1 == Derived(kdf, Pruned(s.book, now), peer, host, EpochIndex(now))
    ensures Inv(kdf, TagForSend(kdf, s, peer, host, now).0)
  {
    PruneKeepsInv(kdf, s, now);
    var p := Prune(s, now);
    var cache := OnHost(p.cache, host);
    var key := (peer, EpochIndex(now));
    assert CacheSound(kdf, p.book, cache);
    var derived := Derived(kdf, p.book, peer, host, EpochIndex(now));
    if key !in cache.tags && derived.Some? {
      RememberedFits(cache, key, derived.value);
      RememberedIsSound(kdf, p.book, cache, key, derived.value);
    }
  }

  lemma StepKeepsRoutes(kdf: Kdf, s: BookState, op: Op)
    requires RoutesKept(s.book)
    ensures RoutesKept(Step(kdf, s, op).book)
  {
  }

  /** A step that changes the book clears the cache; a step that does not is a send or nothing. */
  lemma StepClearsCache(kdf: Kdf, s: BookState, op: Op)
    requires !op.SendOp?
    ensures Step(kdf, s, op) == s || Step(kdf, s, op).cache.tags == map[]
  {
  }

  lemma ClearedKeepsInv(kdf: Kdf, s: BookState, s': BookState)
    requires Inv(kdf, s) && RoutesKept(s'.book) && (s' == s || s'.cache.tags == map[])
    ensures Inv(kdf, s')
  {
  }

  lemma SendStepKeepsInv(kdf: Kdf, s: BookState, op: Op)
    requires Inv(kdf, s) && op.SendOp?
    ensures Inv(kdf, Step(kdf, s, op))
  {
    var after := TagForSend(kdf, s, op.peer, op.host, op.now).0;
    assert Inv(kdf, after) by { SendIsDerived(kdf, s, op.peer, op.host, op.now); }
    assert Step(kdf, s, op) == after;
  }

  lemma StepKeepsInv(kdf: Kdf, s: BookState, op: Op)
    requires Inv(kdf, s)
    ensures Inv(kdf, Step(kdf, s, op))
  {
    if op.SendOp? {
      SendStepKeepsInv(kdf, s, op);
    } else {
      StepKeepsRoutes(kdf, s, op);
      StepClearsCache(kdf, s, op);
      ClearedKeepsInv(kdf, s, Step(kdf, s, op));
    }
  }

  lemma {:induction false} RunKeepsInv(kdf: Kdf, states: seq<BookState>, ops: seq<Op>, i: nat)
    requires IsRun(kdf, states, ops) && StartsFresh(states) && i < |states|
    ensures Inv(kdf, states[i])
  {
    if i > 0 {
      RunKeepsInv(kdf, states, ops, i - 1);
      StepKeepsInv(kdf, states[i - 1], ops[i - 1]);
    }
  }

  /**
   After any run, a send answers exactly what an uncached derivation from the
   material left at that moment answers, for every peer, relay and time.
   */
  lemma CacheRefinesDerivation(kdf: Kdf, states: seq<BookState>, ops: seq<Op>, i: nat)
    requires IsRun(kdf, states, ops) && StartsFresh(states) && i < |states|
    ensures |states[i].cache.tags| <= 4096
    ensures forall peer, host, now ::
              TagForSend(kdf, states[i], peer, host, now).1
              == Derived(kdf, Pruned(states[i].book, now), peer, host, EpochIndex(now))
  {
    RunKeepsInv(kdf, states, ops, i);
    forall peer, host, now ensures TagForSend(kdf, states[i], peer, host, now).1
                                   == Derived(kdf, Pruned(states[i].book, now), peer, host, EpochIndex(now))
    {
      SendIsDerived(kdf, states[i], peer, host, now);
    }
  }

  // ---------------------------------------------------------------------
  // Resolution names the owner
  // ---------------------------------------------------------------------

  /** Every HKDF input of the book's window on one relay. */
  ghost function WindowInputs(b: Book, host: Host, now: U64): set<(Bytes, Bytes)> {
    set slot, e | slot in Slots(b) && e in Window(now) :: (InputKey(SecretIn(b, slot)), Info(host, e))
  }

  /** No two owners share a secret. */
  ghost predicate DistinctOwners(b: Book) {
    forall x, y | Holds(b, x) && Holds(b, y) && SecretIn(b, x) == SecretIn(b, y) :: x.owner == y.owner
  }

  /** Any answer `Resolve` may give is the one owner of the tag. */
  lemma AttributionIsUnique(kdf: Kdf, b: Book, host: Host, now: U64, tag: Tag, r: Option<NodeId>, slot: Slot)
    requires Attributes(kdf, b, host, now, tag, r)
    requires NoCollision(kdf, WindowInputs(b, host, now)) && DistinctOwners(b)
    requires SlotCovers(kdf, b, slot, host, now, tag)
    ensures r == Some(slot.owner)
  {
    var named: Slot :| named.owner == r.value && SlotCovers(kdf, b, named, host, now, tag);
    var e :| e in Window(now) && Derive(kdf, SecretIn(b, slot), host, e) == tag;
    var e' :| e' in Window(now) && Derive(kdf, SecretIn(b, named), host, e') == tag;
    var inputs := WindowInputs(b, host, now);
    assert slot in Slots(b) && (InputKey(SecretIn(b, slot)), Info(host, e)) in inputs;
    assert named in Slots(b) && (InputKey(SecretIn(b, named)), Info(host, e')) in inputs;
    TagDeterminesPreimage(kdf, inputs, SecretIn(b, slot), host, e, SecretIn(b, named), host, e');
  }

  // ---------------------------------------------------------------------
  // The pairing lifecycle
  // ---------------------------------------------------------------------

  /** Promotion asks for an admission that is there and has not expired. */
  lemma PromotionNeedsLiveAdmission(s: BookState, route: NodeId, secret: Bytes16, generation: U64, now: U64)
    ensures var after := PromotePairing(s, route, secret, generation, now);
            var admitted := Holds(s.book, AdmissionSlot(route)) && now < s.book.pairing[route].admission.value.expiresAt;
            if admitted then
              && Holds(after.book, LiveSlot(route))
              && after.book.pairing[route] == PairingRoute(s.book.pairing[route].admission, Some(LiveRoute(generation, secret)))
            else after == Prune(s, now)
  {
  }

  /** The clock reading by which an operation expires admissions. */
  function Observed(op: Op): Option<U64> {
    match op
    case PromoteOp(_, _, _, now) => Some(now)
    case ObserveOp(now) => Some(now)
    case SendOp(_, _, now) => Some(now)
    case _ => None
  }

  /** An admission is gone after it is dropped, and after any call that reads a clock past its expiry. */
  lemma AdmissionEnds(kdf: Kdf, s: BookState, op: Op, route: NodeId)
    requires Holds(s.book, AdmissionSlot(route))
    requires || op == DropAdmissionOp(route)
             || (Observed(op).Some? && Observed(op).value >= s.book.pairing[route].admission.value.expiresAt)
    ensures !Holds(Step(kdf, s, op).book, AdmissionSlot(route))
  {
  }

  lemma AdmissionStaysGone(kdf: Kdf, s: BookState, op: Op, route: NodeId)
    requires !Holds(s.book, AdmissionSlot(route)) && !(op.RegisterOp? && op.route == route)
    ensures !Holds(Step(kdf, s, op).book, AdmissionSlot(route))
  {
    if op.PromoteOp? || op.ObserveOp? || op.SendOp? {
      assert !Holds(Prune(s, op.now).book, AdmissionSlot(route));
    }
  }

  /**
   Once a route's admission is gone, no promotion of that route succeeds at
   any later point of any run, whatever clock it reads, unless the same random
   route ID is registered anew.
   */
  lemma {:induction false} NoPromotionAfterAdmission(kdf: Kdf, states: seq<BookState>, ops: seq<Op>, i: nat, j: nat, route: NodeId)
    requires IsRun(kdf, states, ops) && i <= j < |states|
    requires !Holds(states[i].book, AdmissionSlot(route))
    requires forall k | i <= k < j :: !(ops[k].RegisterOp? && ops[k].route == route)
    ensures !Holds(states[j].book, AdmissionSlot(route))
    ensures forall secret, generation, now ::
              PromotePairing(states[j], route, secret, generation, now) == Prune(states[j], now)
    decreases j - i
  {
    if i < j {
      AdmissionStaysGone(kdf, states[i], ops[i], route);
      NoPromotionAfterAdmission(kdf, states, ops, i + 1, j, route);
    } else {
      forall now ensures !Holds(Prune(states[j], now).book, AdmissionSlot(route)) {
      }
    }
  }

  /** The live route `live` is installed under `route`. */
  predicate Carries(b: Book, route: NodeId, live: LiveRoute) {
    Holds(b, LiveSlot(route)) && b.pairing[route].live == Some(live)
  }

  /** A call that may end the live route installed by `generation`. */
  predicate EndsLive(s: BookState, op: Op, route: NodeId, generation: U64) {
    || op == RemoveLiveOp(route, generation)
    || (op.PromoteOp? && op.route == route && Holds(Pruned(s.book, op.now), AdmissionSlot(route)))
  }

  lemma LiveSurvivesStep(kdf: Kdf, s: BookState, op: Op, route: NodeId, live: LiveRoute)
    requires Carries(s.book, route, live) && Enabled(s, op)
    requires !EndsLive(s, op, route, live.generation)
    ensures Carries(Step(kdf, s, op).book, route, live)
  {
    if op.PromoteOp? || op.ObserveOp? || op.SendOp? {
      assert Carries(Prune(s, op.now).book, route, live);
    }
  }

  /** A live route ends only by a cleanup with its own generation or by a later promotion of its route. */
  lemma {:induction false} LiveEndsOnlyByItsOwn(kdf: Kdf, states: seq<BookState>, ops: seq<Op>, i: nat, j: nat,
                                                route: NodeId, live: LiveRoute)
    requires IsRun(kdf, states, ops) && i <= j < |states|
    requires Carries(states[i].book, route, live) && !Carries(states[j].book, route, live)
    ensures exists k :: i <= k < j && EndsLive(states[k], ops[k], route, live.generation)
    decreases j - i
  {
    if !EndsLive(states[i], ops[i], route, live.generation) {
      LiveSurvivesStep(kdf, states[i], ops[i], route, live);
      LiveEndsOnlyByItsOwn(kdf, states, ops, i + 1, j, route, live);
    }
  }

  /**
   A cleanup with a stale generation changes nothing at all, not even the
   version; one with the installed generation takes away that live slot and
   leaves every other slot with its secret.
   */
  lemma CleanupIsByGeneration(s: BookState, route: NodeId, generation: U64)
    ensures var after := RemoveLivePairing(s, route, generation);
            if LiveIs(s.book, route, generation) then
              && after.changes == s.changes + 1
              && (forall slot :: Holds(after.book, slot) <==> Holds(s.book, slot) && slot != LiveSlot(route))
              && (forall slot | Holds(after.book, slot) :: SecretIn(after.book, slot) == SecretIn(s.book, slot))
            else after == s
  {
  }

  /** No run leaves a route with neither an admission nor a live part. */
  lemma NoEmptyRoute(kdf: Kdf, states: seq<BookState>, ops: seq<Op>, i: nat)
    requires IsRun(kdf, states, ops) && StartsFresh(states) && i < |states|
    ensures forall id | id in states[i].book.pairing ::
              Holds(states[i].book, AdmissionSlot(id)) || Holds(states[i].book, LiveSlot(id))
  {
    RunKeepsInv(kdf, states, ops, i);
  }

  // ---------------------------------------------------------------------
  // The version
  // ---------------------------------------------------------------------

  lemma {:induction false} ChangesCount(kdf: Kdf, states: seq<BookState>, ops: seq<Op>, i: nat, j: nat)
    requires IsRun(kdf, states, ops) && i <= j < |states|
    ensures states[i].changes <= states[j].changes
    ensures states[i].changes == states[j].changes ==> states[i].book == states[j].book
    decreases j - i
  {
    if i < j {
      ChangesCount(kdf, states, ops, i + 1, j);
      var s, s' := states[i], Step(kdf, states[i], ops[i]);
      assert s.changes < s'.changes || s.book == s'.book;
    }
  }

  /**
   Reading the same version twice means the material is the same, as long as
   fewer than 2^64 changes happened in between (the u64 counter wraps).
   */
  lemma SameVersionSameMaterial(kdf: Kdf, states: seq<BookState>, ops: seq<Op>, i: nat, j: nat)
    requires IsRun(kdf, states, ops) && i <= j < |states|
    requires states[j].changes - states[i].changes < U64_LIMIT
    requires Version(states[i]) == Version(states[j])
    ensures states[i].book == states[j].book
  {
    ChangesCount(kdf, states, ops, i, j);
    SameResidue(states[i].changes, states[j].changes, U64_LIMIT);
  }

  lemma SameResidue(a: nat, b: nat, m: nat)
    requires 0 < m && a <= b < a + m && a % m == b % m
    ensures a == b
  {
    var q, q' := a / m, b / m;
    assert a == m * q + a % m && b == m * q' + b % m;
    assert b - a == m * (q' - q);
    if q' - q >= 1 {
      MulAtLeast(m, q' - q);
    } else if q' - q <= -1 {
      MulAtLeast(m, q - q');
    }
  }
}
