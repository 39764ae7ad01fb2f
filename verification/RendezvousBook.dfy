/**
 The endpoint's rendezvous book: three kinds of pair material, a per-(peer,
 epoch) cache of send tags and a change counter.

 `BookState` and the functions on it specify the operations; class `TagBook`
 is the mutable book, whose methods are proved against them.
 */
module RendezvousBook {
  import opened Core
  import opened Rendezvous

  const SEND_CACHE_CAP := 4096

  // ---------------------------------------------------------------------
  // Data
  // ---------------------------------------------------------------------

  datatype Admission = Admission(secret: Bytes16, expiresAt: U64)

  datatype LiveRoute = LiveRoute(generation: U64, secret: Bytes16)

  /** A first-contact route: the QR admission and the per-connection live route. */
  datatype PairingRoute = PairingRoute(admission: Option<Admission>, live: Option<LiveRoute>)

  datatype Book = Book(peers: map<NodeId, CardMaterial>,
                       pairing: map<NodeId, PairingRoute>,
                       paired: map<NodeId, Bytes32>)

  datatype SendCache = SendCache(host: Host, tags: map<(NodeId, U64), Tag>)

  /** `changes` counts bumps; the source's u64 version is `changes` modulo 2^64. */
  datatype BookState = BookState(book: Book, changes: nat, cache: SendCache)

  function Version(s: BookState): U64 {
    s.changes % U64_LIMIT
  }

  // ---------------------------------------------------------------------
  // The book flattened: which secret sits in which slot
  // ---------------------------------------------------------------------

  datatype Slot =
    | CardSlot(owner: NodeId)
    | AdmissionSlot(owner: NodeId)
    | LiveSlot(owner: NodeId)
    | PairedSlot(owner: NodeId)

  predicate Holds(b: Book, slot: Slot) {
    match slot
    case CardSlot(id) => id in b.peers
    case AdmissionSlot(id) => id in b.pairing && b.pairing[id].admission.Some?
    case LiveSlot(id) => id in b.pairing && b.pairing[id].live.Some?
    case PairedSlot(id) => id in b.paired
  }

  function SecretIn(b: Book, slot: Slot): Secret
    requires Holds(b, slot)
  {
    match slot
    case CardSlot(id) => CardSecret(b.peers[id])
    case AdmissionSlot(id) => PairingSecret(b.pairing[id].admission.value.secret)
    case LiveSlot(id) => PairingSecret(b.pairing[id].live.value.secret)
    case PairedSlot(id) => PairedSecret(b.paired[id])
  }

  function CardSlots(b: Book): set<Slot> {
    set id | id in b.peers :: CardSlot(id)
  }

  function AdmissionSlots(b: Book): set<Slot> {
    set id | id in b.pairing && b.pairing[id].admission.Some? :: AdmissionSlot(id)
  }

  function LiveSlots(b: Book): set<Slot> {
    set id | id in b.pairing && b.pairing[id].live.Some? :: LiveSlot(id)
  }

  function PairedSlots(b: Book): set<Slot> {
    set id | id in b.paired :: PairedSlot(id)
  }

  /** Every occupied slot. */
  function Slots(b: Book): (slots: set<Slot>)
    ensures forall slot :: slot in slots <==> Holds(b, slot)
  {
    CardSlots(b) + AdmissionSlots(b) + LiveSlots(b) + PairedSlots(b)
  }

  /** Some epoch of the window at `now` derives `tag` from this secret. */
  ghost predicate Covers(kdf: Kdf, s: Secret, host: Host, now: U64, tag: Tag) {
    exists e :: e in Window(now) && Derive(kdf, s, host, e) == tag
  }

  ghost predicate SlotCovers(kdf: Kdf, b: Book, slot: Slot, host: Host, now: U64, tag: Tag) {
    Holds(b, slot) && Covers(kdf, SecretIn(b, slot), host, now, tag)
  }

  /** `tag` belongs to the registration of `b` on `host` at `now`. */
  ghost predicate Registered(kdf: Kdf, b: Book, host: Host, now: U64, tag: Tag) {
    exists slot :: SlotCovers(kdf, b, slot, host, now, tag)
  }

  /** Where an outbound tag for `peer` comes from: admission, live, paired, card. */
  function SendSlot(b: Book, peer: NodeId): (slot: Option<Slot>)
    ensures slot.Some? ==> Holds(b, slot.value) && slot.value.owner == peer
    ensures slot.None? <==> forall s: Slot :: s.owner == peer ==> !Holds(b, s)
  {
    if Holds(b, AdmissionSlot(peer)) then Some(AdmissionSlot(peer))
    else if Holds(b, LiveSlot(peer)) then Some(LiveSlot(peer))
    else if Holds(b, PairedSlot(peer)) then Some(PairedSlot(peer))
    else if Holds(b, CardSlot(peer)) then Some(CardSlot(peer))
    else
      assert forall s: Slot :: s.owner == peer ==>
                                 s in {AdmissionSlot(peer), LiveSlot(peer), PairedSlot(peer), CardSlot(peer)};
      None
  }

  /** The send tag with no cache involved. */
  function Derived(kdf: Kdf, b: Book, peer: NodeId, host: Host, epoch: U64): Option<Tag> {
    match SendSlot(b, peer)
    case None => None
    case Some(slot) => Some(Derive(kdf, SecretIn(b, slot), host, epoch))
  }

  // ---------------------------------------------------------------------
  // Operations on the state
  // ---------------------------------------------------------------------

  /** Install a book, count the change and forget every cached tag. */
  function Bumped(s: BookState, b: Book): BookState {
    BookState(b, s.changes + 1, SendCache(s.cache.host, map[]))
  }

  function InitialState(peers: map<NodeId, CardMaterial>, paired: map<NodeId, Bytes32>): BookState {
    BookState(Book(peers, map[], paired), 0, SendCache([], map[]))
  }

  function PrunedRoute(r: PairingRoute, now: U64): PairingRoute {
    if r.admission.Some? && now >= r.admission.value.expiresAt then r.(admission := None) else r
  }

  predicate Kept(r: PairingRoute) {
    r.admission.Some? || r.live.Some?
  }

  /** The book with every admission that expired by `now` gone. */
  function Pruned(b: Book, now: U64): Book {
    b.(pairing := map id | id in b.pairing && Kept(PrunedRoute(b.pairing[id], now))
    :: PrunedRoute(b.pairing[id], now))
  }

  function Prune(s: BookState, now: U64): BookState {
    if Pruned(s.book, now) == s.book then s else Bumped(s, Pruned(s.book, now))
  }

  function Upsert(s: BookState, peer: NodeId, m: CardMaterial): BookState {
    Bumped(s, s.book.(peers := s.book.peers[peer := m]))
  }

  function Remove(s: BookState, peer: NodeId): BookState {
    Bumped(s, s.book.(peers := s.book.peers - {peer}))
  }

  function UpsertPaired(s: BookState, peer: NodeId, secret: Bytes32): BookState {
    Bumped(s, s.book.(paired := s.book.paired[peer := secret]))
  }

  function RemovePaired(s: BookState, peer: NodeId): BookState {
    if peer in s.book.paired then Bumped(s, s.book.(paired := s.book.paired - {peer})) else s
  }

  predicate Unused(b: Book, id: NodeId) {
    id !in b.peers && id !in b.pairing && id !in b.paired
  }

  function RegisterPairing(s: BookState, route: NodeId, secret: Bytes16, expiresAt: U64): BookState {
    Bumped(s, s.book.(pairing := s.book.pairing[route := PairingRoute(Some(Admission(secret, expiresAt)), None)]))
  }

  /** `pairing` with `route` set to `r`, or without `route` when `r` has no part left. */
  function WithRoute(pairing: map<NodeId, PairingRoute>, route: NodeId, r: PairingRoute): map<NodeId, PairingRoute> {
    if Kept(r) then pairing[route := r] else pairing - {route}
  }

  function RemovePairing(s: BookState, route: NodeId): BookState {
    if Holds(s.book, AdmissionSlot(route)) then
      var r := s.book.pairing[route].(admission := None);
      Bumped(s, s.book.(pairing := WithRoute(s.book.pairing, route, r)))
    else s
  }

  function PromotePairing(s: BookState, route: NodeId, secret: Bytes16, generation: U64, now: U64): BookState {
    var p := Prune(s, now);
    if Holds(p.book, AdmissionSlot(route)) then
      var r := p.book.pairing[route].(live := Some(LiveRoute(generation, secret)));
      Bumped(p, p.book.(pairing := p.book.pairing[route := r]))
    else p
  }

  predicate LiveIs(b: Book, route: NodeId, generation: U64) {
    Holds(b, LiveSlot(route)) && b.pairing[route].live.value.generation == generation
  }

  function RemoveLivePairing(s: BookState, route: NodeId, generation: U64): BookState {
    if LiveIs(s.book, route, generation) then
      var r := s.book.pairing[route].(live := None);
      Bumped(s, s.book.(pairing := WithRoute(s.book.pairing, route, r)))
    else s
  }

  /** The cache as `tag_for_send` leaves it after a host check. */
  function OnHost(c: SendCache, host: Host): SendCache {
    if c.host == host then c else SendCache(host, map[])
  }

  function Remembered(c: SendCache, key: (NodeId, U64), tag: Tag): SendCache {
    var room := if |c.tags| >= SEND_CACHE_CAP then map[] else c.tags;
    c.(tags := room[key := tag])
  }

  /** The cached lookup: the tag answered and the state left behind. */
  function TagForSend(kdf: Kdf, s: BookState, peer: NodeId, host: Host, now: U64): (BookState, Option<Tag>) {
    var p := Prune(s, now);
    var cache := OnHost(p.cache, host);
    var key := (peer, EpochIndex(now));
    if key in cache.tags then (p.(cache := cache), Some(cache.tags[key]))
    else
      match Derived(kdf, p.book, peer, host, EpochIndex(now))
      case None => (p.(cache := cache), None)
      case Some(tag) => (p.(cache := Remembered(cache, key, tag)), Some(tag))
  }

  /** Every route in the book admits something or carries something. */
  ghost predicate RoutesKept(b: Book) {
    forall id | id in b.pairing :: Kept(b.pairing[id])
  }

  // ---------------------------------------------------------------------
  // The mutable book
  // ---------------------------------------------------------------------

  class TagBook {
    const kdf: Kdf
    var peers: map<NodeId, CardMaterial>
    var pairing: map<NodeId, PairingRoute>
    var paired: map<NodeId, Bytes32>
    var version: U64
    ghost var changes: nat
    var cacheHost: Host
    var cacheTags: map<(NodeId, U64), Tag>

    ghost predicate Valid()
      reads this
    {
      version == changes % U64_LIMIT && RoutesKept(Contents())
    }

    function Contents(): Book
      reads this
    {
      Book(peers, pairing, paired)
    }

    ghost function State(): BookState
      reads this
    {
      BookState(Contents(), changes, SendCache(cacheHost, cacheTags))
    }

    constructor WithPaired(kdf: Kdf, peers: map<NodeId, CardMaterial>, paired: map<NodeId, Bytes32>)
      ensures Valid() && State() == InitialState(peers, paired) && this.kdf == kdf
    {
      this.kdf := kdf;
      this.peers, this.pairing, this.paired := peers, map[], paired;
      version, changes := 0, 0;
      cacheHost, cacheTags := [], map[];
    }

    method Bump()
      requires version == changes % U64_LIMIT
      modifies this`version, this`changes, this`cacheTags
      ensures version == changes % U64_LIMIT
      ensures State() == Bumped(old(State()), Contents())
    {
      version := if version + 1 == U64_LIMIT then 0 else version + 1;
      changes := changes + 1;
      cacheTags := map[];
    }

    method UpsertPeer(peer: NodeId, material: CardMaterial)
      requires Valid()
      modifies this
      ensures Valid() && State() == Upsert(old(State()), peer, material)
    {
      peers := peers[peer := material];
      Bump();
    }

    method RemovePeer(peer: NodeId)
      requires Valid()
      modifies this
      ensures Valid() && State() == Remove(old(State()), peer)
    {
      peers := peers - {peer};
      Bump();
    }

    method UpsertPairedRoute(peer: NodeId, secret: Bytes32)
      requires Valid()
      modifies this
      ensures Valid() && State() == UpsertPaired(old(State()), peer, secret)
    {
      paired := paired[peer := secret];
      Bump();
    }

    method RemovePairedRoute(peer: NodeId)
      requires Valid()
      modifies this
      ensures Valid() && State() == RemovePaired(old(State()), peer)
    {
      if peer in paired {
        paired := paired - {peer};
        Bump();
      }
    }

    /**
     `draws` are the random candidates the generator has yielded so far, in
     order; `None` while every one of them is taken and the loop draws on.
     */
    method RegisterPairingSecret(secret: Bytes16, expiresAt: U64, draws: seq<NodeId>) returns (route: Option<NodeId>)
      requires Valid()
      modifies this
      ensures Valid()
      ensures route.None? ==> State() == old(State()) && forall id | id in draws :: !Unused(old(Contents()), id)
      ensures route.Some? ==>
        && Unused(old(Contents()), route.value)
        && (exists i :: 0 <= i < |draws| && route.value == draws[i] &&
                        forall j :: 0 <= j < i ==> !Unused(old(Contents()), draws[j]))
        && State() == RegisterPairing(old(State()), route.value, secret, expiresAt)
    {
      var i := 0;
      while i < |draws| && (draws[i] in peers || draws[i] in pairing || draws[i] in paired)
        invariant 0 <= i <= |draws|
        invariant forall j :: 0 <= j < i ==> !Unused(Contents(), draws[j])
      {
        i := i + 1;
      }
      if i == |draws| {
        return None;
      }
      route := Some(draws[i]);
      pairing := pairing[draws[i] := PairingRoute(Some(Admission(secret, expiresAt)), None)];
      Bump();
    }

    method RemovePairingRoute(route: NodeId) returns (removed: bool)
      requires Valid()
      modifies this
      ensures Valid() && State() == RemovePairing(old(State()), route)
      ensures removed == Holds(old(Contents()), AdmissionSlot(route))
    {
      removed := false;
      if route in pairing {
        removed := pairing[route].admission.Some?;
        pairing := pairing[route := pairing[route].(admission := None)];
        if pairing[route].live.None? {
          pairing := pairing - {route};
        }
      }
      if removed {
        Bump();
      } else {
        assert pairing == old(pairing);
      }
    }

    method PromotePairingRoute(route: NodeId, secret: Bytes16, generation: U64, now: U64) returns (promoted: bool)
      requires Valid()
      modifies this
      ensures Valid() && State() == PromotePairing(old(State()), route, secret, generation, now)
      ensures promoted == Holds(Pruned(old(Contents()), now), AdmissionSlot(route))
    {
      PruneExpired(now);
      if route !in pairing || pairing[route].admission.None? {
        return false;
      }
      pairing := pairing[route := pairing[route].(live := Some(LiveRoute(generation, secret)))];
      Bump();
      return true;
    }

    method RemoveLiveRoute(route: NodeId, generation: U64) returns (removed: bool)
      requires Valid()
      modifies this
      ensures Valid() && State() == RemoveLivePairing(old(State()), route, generation)
      ensures removed == LiveIs(old(Contents()), route, generation)
    {
      removed := false;
      if route in pairing {
        var live := pairing[route].live;
        if live.Some? && live.value.generation == generation {
          pairing := pairing[route := pairing[route].(live := None)];
          removed := true;
        }
        if pairing[route].admission.None? && pairing[route].live.None? {
          pairing := pairing - {route};
        }
      }
      if removed {
        Bump();
      }
    }

    /** `retain` over the routes, in whatever order the map yields them. */
    method PruneExpired(now: U64)
      requires Valid()
      modifies this
      ensures Valid() && State() == Prune(old(State()), now)
    {
      var next, todo, changed := pairing, pairing.Keys, false;
      while todo != {}
        invariant todo <= pairing.Keys && next.Keys <= pairing.Keys
        invariant forall id | id in todo :: id in next && next[id] == pairing[id]
        invariant forall id | id in pairing && id !in todo ::
                    var r := PrunedRoute(pairing[id], now);
                    if Kept(r) then id in next && next[id] == r else id !in next
        invariant changed <==> exists id :: id in pairing && id !in todo && PrunedRoute(pairing[id], now) != pairing[id]
        decreases todo
      {
        var id :| id in todo;
        todo := todo - {id};
        var route := next[id];
        if route.admission.Some? && now >= route.admission.value.expiresAt {
          route := route.(admission := None);
          changed := true;
        }
        if route.admission.Some? || route.live.Some? {
          next := next[id := route];
        } else {
          next := next - {id};
        }
      }
      assert next == Pruned(Contents(), now).pairing;
      PruneIsNoOp(Contents(), now);
      pairing := next;
      if changed {
        Bump();
      }
    }

    method PairingActive(route: NodeId, now: U64) returns (active: bool)
      requires Valid()
      modifies this
      ensures Valid() && State() == Prune(old(State()), now)
      ensures active == Holds(Pruned(old(Contents()), now), AdmissionSlot(route))
    {
      PruneExpired(now);
      active := route in pairing && pairing[route].admission.Some?;
    }

    /** The tag of one secret for each epoch, appended in order. */
    method PushEpochs(tags: seq<Tag>, s: Secret, host: Host, epochs: seq<U64>) returns (r: seq<Tag>)
      ensures r == tags + EpochTags(kdf, s, host, epochs)
    {
      r := tags;
      for i := 0 to |epochs|
        invariant r == tags + EpochTags(kdf, s, host, epochs[..i])
      {
        r := r + [Derive(kdf, s, host, epochs[i])];
      }
      assert epochs[..|epochs|] == epochs;
    }

    method ListCards(host: Host, now: U64) returns (tags: seq<Tag>)
      ensures Listing(kdf, Contents(), tags, CardSlots(Contents()), host, now)
    {
      tags := [];
      EmptyListing(kdf, Contents(), host, now);
      ghost var listed: set<Slot> := {};
      var ids := peers.Keys;
      while ids != {}
        invariant ids <= peers.Keys
        invariant listed == set id | id in peers && id !in ids :: CardSlot(id)
        invariant Listing(kdf, Contents(), tags, listed, host, now)
        decreases ids
      {
        var id :| id in ids;
        LongerListing(kdf, Contents(), tags, listed, CardSlot(id), host, now);
        tags := PushEpochs(tags, CardSecret(peers[id]), host, Window(now));
        listed, ids := listed + {CardSlot(id)}, ids - {id};
      }
      assert listed == CardSlots(Contents());
    }

    /** Both parts of one route, the admission first. */
    method ListRoute(tags: seq<Tag>, ghost seen: set<NodeId>, id: NodeId, host: Host, now: U64) returns (r: seq<Tag>)
      requires id in pairing && id !in seen
      requires Listing(kdf, Contents(), tags, RouteSlots(Contents(), seen), host, now)
      ensures Listing(kdf, Contents(), r, RouteSlots(Contents(), seen + {id}), host, now)
    {
      r := tags;
      ghost var slots := RouteSlots(Contents(), seen);
      RouteSlotsGrow(Contents(), seen, id);
      var route := pairing[id];
      if route.admission.Some? {
        LongerListing(kdf, Contents(), r, slots, AdmissionSlot(id), host, now);
        r := PushEpochs(r, PairingSecret(route.admission.value.secret), host, Window(now));
        slots := slots + {AdmissionSlot(id)};
      }
      if route.live.Some? {
        LongerListing(kdf, Contents(), r, slots, LiveSlot(id), host, now);
        r := PushEpochs(r, PairingSecret(route.live.value.secret), host, Window(now));
        slots := slots + {LiveSlot(id)};
      }
      assert slots == RouteSlots(Contents(), seen) + RouteSlots(Contents(), {id});
    }

    method ListRoutes(host: Host, now: U64) returns (tags: seq<Tag>)
      ensures Listing(kdf, Contents(), tags, RouteSlots(Contents(), pairing.Keys), host, now)
    {
      tags := [];
      EmptyListing(kdf, Contents(), host, now);
      ghost var seen: set<NodeId> := {};
      NoRouteSlots(Contents());
      var ids := pairing.Keys;
      while ids != {}
        invariant seen !! ids && seen + ids == pairing.Keys
        invariant Listing(kdf, Contents(), tags, RouteSlots(Contents(), seen), host, now)
        decreases ids
      {
        var id :| id in ids;
        tags := ListRoute(tags, seen, id, host, now);
        seen, ids := seen + {id}, ids - {id};
      }
    }

    method ListPaired(host: Host, now: U64) returns (tags: seq<Tag>)
      ensures Listing(kdf, Contents(), tags, PairedSlots(Contents()), host, now)
    {
      tags := [];
      EmptyListing(kdf, Contents(), host, now);
      ghost var listed: set<Slot> := {};
      var ids := paired.Keys;
      while ids != {}
        invariant ids <= paired.Keys
        invariant listed == set id | id in paired && id !in ids :: PairedSlot(id)
        invariant Listing(kdf, Contents(), tags, listed, host, now)
        decreases ids
      {
        var id :| id in ids;
        LongerListing(kdf, Contents(), tags, listed, PairedSlot(id), host, now);
        tags := PushEpochs(tags, PairedSecret(paired[id]), host, Window(now));
        listed, ids := listed + {PairedSlot(id)}, ids - {id};
      }
      assert listed == PairedSlots(Contents());
    }

    /** Every tag to register right now: the window of every slot, slots in map order. */
    method Registration(host: Host, now: U64) returns (tags: seq<Tag>)
      requires Valid()
      modifies this
      ensures Valid() && State() == Prune(old(State()), now)
      ensures |tags| == |Window(now)| * |Slots(Contents())|
      ensures forall t :: t in tags <==> Registered(kdf, Contents(), host, now, t)
    {
      PruneExpired(now);
      var cards := ListCards(host, now);
      var routes := ListRoutes(host, now);
      var durable := ListPaired(host, now);
      tags := cards + routes + durable;
      ghost var b := Contents();
      SlotsByKind(b);
      JoinedListing(kdf, b, cards, CardSlots(b), routes, RouteSlots(b, pairing.Keys), host, now);
      JoinedListing(kdf, b, cards + routes, CardSlots(b) + RouteSlots(b, pairing.Keys), durable, PairedSlots(b), host, now);
      RegistrationMeaning(kdf, b, tags, host, now);
    }

    method SendTag(peer: NodeId, host: Host, now: U64) returns (tag: Option<Tag>)
      requires Valid()
      modifies this
      ensures Valid()
      ensures (State(), tag) == TagForSend(kdf, old(State()), peer, host, now)
    {
      PruneExpired(now);
      var epoch := EpochIndex(now);
      if cacheHost != host {
        cacheHost := host;
        cacheTags := map[];
      }
      if (peer, epoch) in cacheTags {
        return Some(cacheTags[(peer, epoch)]);
      }
      if peer in pairing && pairing[peer].admission.Some? {
        tag := Some(Derive(kdf, PairingSecret(pairing[peer].admission.value.secret), host, epoch));
      } else if peer in pairing && pairing[peer].live.Some? {
        tag := Some(Derive(kdf, PairingSecret(pairing[peer].live.value.secret), host, epoch));
      } else if peer in paired {
        tag := Some(Derive(kdf, PairedSecret(paired[peer]), host, epoch));
      } else if peer in peers {
        tag := Some(Derive(kdf, CardSecret(peers[peer]), host, epoch));
      } else {
        return None;
      }
      if |cacheTags| >= SEND_CACHE_CAP {
        cacheTags := map[];
      }
      cacheTags := cacheTags[(peer, epoch) := tag.value];
    }

    /** Whether one of the epochs derives `tag` from `s`. */
    method Matches(s: Secret, tag: Tag, host: Host, epochs: seq<U64>) returns (hit: bool)
      ensures hit <==> exists e :: e in epochs && Derive(kdf, s, host, e) == tag
    {
      for i := 0 to |epochs|
        invariant forall j :: 0 <= j < i ==> Derive(kdf, s, host, epochs[j]) != tag
      {
        if Derive(kdf, s, host, epochs[i]) == tag {
          return true;
        }
      }
      return false;
    }

    /** A card pair whose window covers `tag`, if any. */
    method FindCard(tag: Tag, host: Host, now: U64) returns (r: Option<NodeId>)
      ensures r.Some? ==> SlotCovers(kdf, Contents(), CardSlot(r.value), host, now, tag)
      ensures r.None? ==> forall id :: !SlotCovers(kdf, Contents(), CardSlot(id), host, now, tag)
    {
      var ids := peers.Keys;
      while ids != {}
        invariant ids <= peers.Keys
        invariant forall id | id in peers && id !in ids :: !SlotCovers(kdf, Contents(), CardSlot(id), host, now, tag)
        decreases ids
      {
        var id :| id in ids;
        var hit := Matches(CardSecret(peers[id]), tag, host, Window(now));
        assert hit <==> SlotCovers(kdf, Contents(), CardSlot(id), host, now, tag);
        if hit {
          return Some(id);
        }
        ids := ids - {id};
      }
      return None;
    }

    /** A pairing route, admitting or live, whose window covers `tag`, if any. */
    method FindRoute(tag: Tag, host: Host, now: U64) returns (r: Option<NodeId>)
      ensures r.Some? ==> || SlotCovers(kdf, Contents(), AdmissionSlot(r.value), host, now, tag)
                          || SlotCovers(kdf, Contents(), LiveSlot(r.value), host, now, tag)
      ensures r.None? ==> forall id :: !SlotCovers(kdf, Contents(), AdmissionSlot(id), host, now, tag)
      ensures r.None? ==> forall id :: !SlotCovers(kdf, Contents(), LiveSlot(id), host, now, tag)
    {
      var ids := pairing.Keys;
      while ids != {}
        invariant ids <= pairing.Keys
        invariant forall id | id in pairing && id !in ids :: !SlotCovers(kdf, Contents(), AdmissionSlot(id), host, now, tag)
        invariant forall id | id in pairing && id !in ids :: !SlotCovers(kdf, Contents(), LiveSlot(id), host, now, tag)
        decreases ids
      {
        var id :| id in ids;
        var route := pairing[id];
        var admits, carries := false, false;
        if route.admission.Some? {
          admits := Matches(PairingSecret(route.admission.value.secret), tag, host, Window(now));
        }
        if route.live.Some? {
          carries := Matches(PairingSecret(route.live.value.secret), tag, host, Window(now));
        }
        assert admits <==> SlotCovers(kdf, Contents(), AdmissionSlot(id), host, now, tag);
        assert carries <==> SlotCovers(kdf, Contents(), LiveSlot(id), host, now, tag);
        if admits || carries {
          return Some(id);
        }
        ids := ids - {id};
      }
      return None;
    }

    /** A durable paired route whose window covers `tag`, if any. */
    method FindPaired(tag: Tag, host: Host, now: U64) returns (r: Option<NodeId>)
      ensures r.Some? ==> SlotCovers(kdf, Contents(), PairedSlot(r.value), host, now, tag)
      ensures r.None? ==> forall id :: !SlotCovers(kdf, Contents(), PairedSlot(id), host, now, tag)
    {
      var ids := paired.Keys;
      while ids != {}
        invariant ids <= paired.Keys
        invariant forall id | id in paired && id !in ids :: !SlotCovers(kdf, Contents(), PairedSlot(id), host, now, tag)
        decreases ids
      {
        var id :| id in ids;
        var hit := Matches(PairedSecret(paired[id]), tag, host, Window(now));
        assert hit <==> SlotCovers(kdf, Contents(), PairedSlot(id), host, now, tag);
        if hit {
          return Some(id);
        }
        ids := ids - {id};
      }
      return None;
    }

    /** Card pairs first, then routes, then paired routes. */
    method FindOwner(tag: Tag, host: Host, now: U64) returns (r: Option<NodeId>)
      ensures Attributes(kdf, Contents(), host, now, tag, r)
    {
      r := FindCard(tag, host, now);
      if r.None? {
        r := FindRoute(tag, host, now);
        if r.None? {
          r := FindPaired(tag, host, now);
          if r.None? {
            assert forall slot :: !SlotCovers(kdf, Contents(), slot, host, now, tag);
          }
        }
      }
    }

    /** Attribute an inbound tag; within one map the search order is the map's own. */
    method Resolve(tag: Tag, host: Host, now: U64) returns (r: Option<NodeId>)
      requires Valid()
      modifies this
      ensures Valid() && State() == Prune(old(State()), now)
      ensures Attributes(kdf, Contents(), host, now, tag, r)
    {
      PruneExpired(now);
      r := FindOwner(tag, host, now);
    }
  }

  /**
   What `Resolve` answers: nothing exactly when `tag` is not registered, and
   otherwise an owner of a covering slot of the first kind that has one.
   */
  ghost predicate Attributes(kdf: Kdf, b: Book, host: Host, now: U64, tag: Tag, r: Option<NodeId>) {
    && (r.Some? <==> Registered(kdf, b, host, now, tag))
    && (r.Some? ==>
          exists slot: Slot :: slot.owner == r.value && SlotCovers(kdf, b, slot, host, now, tag) &&
                         forall other | Rank(other) < Rank(slot) :: !SlotCovers(kdf, b, other, host, now, tag))
  }

  /** The order in which `Resolve` searches the kinds of slot. */
  function Rank(slot: Slot): nat {
    match slot
    case CardSlot(_) => 0
    case AdmissionSlot(_) => 1
    case LiveSlot(_) => 1
    case PairedSlot(_) => 2
  }

  // ---------------------------------------------------------------------
  // The registration list
  // ---------------------------------------------------------------------

  function EpochTags(kdf: Kdf, s: Secret, host: Host, epochs: seq<U64>): seq<Tag> {
    seq(|epochs|, i requires 0 <= i < |epochs| => Derive(kdf, s, host, epochs[i]))
  }

  /** The slots of the routes in `ids`. */
  ghost function RouteSlots(b: Book, ids: set<NodeId>): set<Slot> {
    (set id | id in ids && Holds(b, AdmissionSlot(id)) :: AdmissionSlot(id))
    + (set id | id in ids && Holds(b, LiveSlot(id)) :: LiveSlot(id))
  }

  lemma NoRouteSlots(b: Book)
    ensures RouteSlots(b, {}) == {}
  {
  }

  lemma RouteSlotsGrow(b: Book, ids: set<NodeId>, id: NodeId)
    ensures RouteSlots(b, ids) + RouteSlots(b, {id}) == RouteSlots(b, ids + {id})
    ensures id !in ids ==> AdmissionSlot(id) !in RouteSlots(b, ids) && LiveSlot(id) !in RouteSlots(b, ids)
  {
  }

  lemma SlotsByKind(b: Book)
    ensures CardSlots(b) + RouteSlots(b, b.pairing.Keys) + PairedSlots(b) == Slots(b)
    ensures CardSlots(b) !! RouteSlots(b, b.pairing.Keys)
    ensures CardSlots(b) + RouteSlots(b, b.pairing.Keys) !! PairedSlots(b)
  {
  }

  /** `order` lists each element of `slots` once. */
  ghost predicate Orders(order: seq<Slot>, slots: set<Slot>) {
    multiset(order) == multiset(slots)
  }

  ghost predicate AllHeld(b: Book, order: seq<Slot>) {
    forall i | 0 <= i < |order| :: Holds(b, order[i])
  }

  /** The window of each slot, one slot after another. */
  ghost function TagsOf(kdf: Kdf, b: Book, order: seq<Slot>, host: Host, now: U64): seq<Tag>
    requires AllHeld(b, order)
  {
    if order == [] then []
    else TagsOf(kdf, b, order[..|order| - 1], host, now)
         + EpochTags(kdf, SecretIn(b, order[|order| - 1]), host, Window(now))
  }

  /** `tags` is the window of each of `slots`, taken in some order. */
  ghost predicate Listing(kdf: Kdf, b: Book, tags: seq<Tag>, slots: set<Slot>, host: Host, now: U64) {
    exists order :: Orders(order, slots) && AllHeld(b, order) && tags == TagsOf(kdf, b, order, host, now)
  }

  lemma EmptyListing(kdf: Kdf, b: Book, host: Host, now: U64)
    ensures Listing(kdf, b, [], {}, host, now)
  {
    assert Orders([], {});
    assert TagsOf(kdf, b, [], host, now) == [];
  }

  lemma TagsOfSnoc(kdf: Kdf, b: Book, order: seq<Slot>, slot: Slot, host: Host, now: U64)
    requires AllHeld(b, order) && Holds(b, slot)
    ensures AllHeld(b, order + [slot])
    ensures TagsOf(kdf, b, order + [slot], host, now)
            == TagsOf(kdf, b, order, host, now) + EpochTags(kdf, SecretIn(b, slot), host, Window(now))
  {
    var longer := order + [slot];
    assert longer[..|longer| - 1] == order && longer[|longer| - 1] == slot;
  }

  lemma OrdersSnoc(order: seq<Slot>, slots: set<Slot>, slot: Slot)
    requires Orders(order, slots) && slot !in slots
    ensures Orders(order + [slot], slots + {slot})
  {
    assert multiset(slots + {slot}) == multiset(slots) + multiset{slot};
  }

  lemma LongerListing(kdf: Kdf, b: Book, tags: seq<Tag>, slots: set<Slot>, slot: Slot, host: Host, now: U64)
    requires Listing(kdf, b, tags, slots, host, now)
    requires slot !in slots && Holds(b, slot)
    ensures Listing(kdf, b, tags + EpochTags(kdf, SecretIn(b, slot), host, Window(now)), slots + {slot}, host, now)
  {
    var order :| Orders(order, slots) && AllHeld(b, order) && tags == TagsOf(kdf, b, order, host, now);
    TagsOfSnoc(kdf, b, order, slot, host, now);
    OrdersSnoc(order, slots, slot);
  }

  lemma {:induction false} TagsOfConcat(kdf: Kdf, b: Book, x: seq<Slot>, y: seq<Slot>, host: Host, now: U64)
    requires AllHeld(b, x) && AllHeld(b, y)
    ensures AllHeld(b, x + y)
    ensures TagsOf(kdf, b, x + y, host, now) == TagsOf(kdf, b, x, host, now) + TagsOf(kdf, b, y, host, now)
  {
    if y == [] {
      assert x + y == x;
    } else {
      var shorter, last := y[..|y| - 1], y[|y| - 1];
      assert y == shorter + [last] && x + y == (x + shorter) + [last];
      TagsOfConcat(kdf, b, x, shorter, host, now);
      TagsOfSnoc(kdf, b, shorter, last, host, now);
      TagsOfSnoc(kdf, b, x + shorter, last, host, now);
    }
  }

  lemma JoinedListing(kdf: Kdf, b: Book, tags: seq<Tag>, slots: set<Slot>, tags': seq<Tag>, slots': set<Slot>,
                      host: Host, now: U64)
    requires Listing(kdf, b, tags, slots, host, now) && Listing(kdf, b, tags', slots', host, now)
    requires slots !! slots'
    ensures Listing(kdf, b, tags + tags', slots + slots', host, now)
  {
    var x :| Orders(x, slots) && AllHeld(b, x) && tags == TagsOf(kdf, b, x, host, now);
    var y :| Orders(y, slots') && AllHeld(b, y) && tags' == TagsOf(kdf, b, y, host, now);
    TagsOfConcat(kdf, b, x, y, host, now);
    assert Orders(x + y, slots + slots');
  }

  lemma {:induction false} TagsOfMeaning(kdf: Kdf, b: Book, order: seq<Slot>, host: Host, now: U64)
    requires AllHeld(b, order)
    ensures |TagsOf(kdf, b, order, host, now)| == |Window(now)| * |order|
    ensures forall t :: t in TagsOf(kdf, b, order, host, now) <==>
                        exists i :: 0 <= i < |order| && SlotCovers(kdf, b, order[i], host, now, t)
  {
    if order != [] {
      var shorter, last := order[..|order| - 1], order[|order| - 1];
      TagsOfMeaning(kdf, b, shorter, host, now);
      EpochTagsMeaning(kdf, SecretIn(b, last), host, now);
      var tail := EpochTags(kdf, SecretIn(b, last), host, Window(now));
      forall t ensures t in TagsOf(kdf, b, order, host, now) <==>
                       exists i :: 0 <= i < |order| && SlotCovers(kdf, b, order[i], host, now, t)
      {
        assert t in tail <==> SlotCovers(kdf, b, last, host, now, t);
        if t in TagsOf(kdf, b, shorter, host, now) {
          var i :| 0 <= i < |shorter| && SlotCovers(kdf, b, shorter[i], host, now, t);
          assert order[i] == shorter[i];
        }
      }
    }
  }

  lemma EpochTagsMeaning(kdf: Kdf, s: Secret, host: Host, now: U64)
    ensures forall t :: t in EpochTags(kdf, s, host, Window(now)) <==> Covers(kdf, s, host, now, t)
  {
    var epochs := Window(now);
    var tags := EpochTags(kdf, s, host, epochs);
    forall t ensures t in tags <==> Covers(kdf, s, host, now, t) {
      if Covers(kdf, s, host, now, t) {
        var e :| e in epochs && Derive(kdf, s, host, e) == t;
        var i :| 0 <= i < |epochs| && epochs[i] == e;
        assert tags[i] == t;
      }
    }
  }

  /**
   The registered list, in whatever order the maps were walked, is the window
   of every slot: three tags a slot (two in the first epoch) and no other tag.
   */
  lemma RegistrationMeaning(kdf: Kdf, b: Book, tags: seq<Tag>, host: Host, now: U64)
    requires Listing(kdf, b, tags, Slots(b), host, now)
    ensures |tags| == |Window(now)| * |Slots(b)|
    ensures forall t :: t in tags <==> Registered(kdf, b, host, now, t)
  {
    var order :| Orders(order, Slots(b)) && AllHeld(b, order) && tags == TagsOf(kdf, b, order, host, now);
    assert |multiset(order)| == |multiset(Slots(b))|;
    TagsOfMeaning(kdf, b, order, host, now);
    forall t | Registered(kdf, b, host, now, t)
      ensures exists i :: 0 <= i < |order| && SlotCovers(kdf, b, order[i], host, now, t)
    {
      var slot :| SlotCovers(kdf, b, slot, host, now, t);
      assert slot in multiset(Slots(b));
      assert slot in multiset(order);
      var i :| 0 <= i < |order| && order[i] == slot;
    }
  }

  /** Pruning changes a well-kept book exactly when some admission has expired. */
  lemma PruneIsNoOp(b: Book, now: U64)
    requires RoutesKept(b)
    ensures Pruned(b, now) == b <==> forall id | id in b.pairing :: PrunedRoute(b.pairing[id], now) == b.pairing[id]
  {
    if forall id | id in b.pairing :: PrunedRoute(b.pairing[id], now) == b.pairing[id] {
      assert Pruned(b, now).pairing == b.pairing;
    } else {
      var id :| id in b.pairing && PrunedRoute(b.pairing[id], now) != b.pairing[id];
      assert id in Pruned(b, now).pairing ==> Pruned(b, now).pairing[id] != b.pairing[id];
    }
  }
}
