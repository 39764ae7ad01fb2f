/**
 The relay as a state machine over its sessions.  A session draws its id when
 its first frame arrives and enters the registry in a separate step, so a
 session with a smaller id can register after one with a larger id.
 */
module RelayRuns {
  import opened Core
  import opened Rendezvous
  import opened RelayRegistry

  /** Which mode a session's first frame chose; a tag session remembers its current set. */
  datatype Mode = Identity(node: NodeId) | Tags(current: seq<Tag>)

  datatype Relay = Relay(
    holders: Holders,
    slots: map<NodeId, SessionId>,      // identity mode: whose queue a node's datagrams go to
    sessions: map<SessionId, Mode>,     // sessions between registration and cleanup
    drawn: set<SessionId>,              // ids drawn by sessions that have not registered yet
    nextId: SessionId,
    latest: map<NodeId, SessionId>      // history: the last identity session to register a node
  )

  datatype Step =
    | Draw
    | EnterTags(id: SessionId, tags: seq<Tag>)
    | EnterIdentity(id: SessionId, node: NodeId)
    | Refuse(id: SessionId)                        // bad first frame: never registered
    | Reregister(id: SessionId, next: seq<Tag>)
    | Exit(id: SessionId)                          // any exit of the serving loop, I/O errors included

  function Empty(): Relay {
    Relay(map[], map[], map[], {}, 1, map[])
  }

  ghost predicate Next(r: Relay, r': Relay, step: Step) {
    match step
    case Draw => r' == r.(drawn := r.drawn + {r.nextId}, nextId := r.nextId + 1)
    case EnterTags(id, tags) =>
      && id in r.drawn && tags != []
      && Replaces(r.holders, r'.holders, id, [], tags)
      && r' == r.(holders := r'.holders, drawn := r.drawn - {id}, sessions := r.sessions[id := Tags(tags)])
    case EnterIdentity(id, node) =>
      && id in r.drawn
      && r' == r.(slots := r.slots[node := id], latest := r.latest[node := id],
                  drawn := r.drawn - {id}, sessions := r.sessions[id := Identity(node)])
    case Refuse(id) => id in r.drawn && r' == r.(drawn := r.drawn - {id})
    case Reregister(id, next) =>
      && id in r.sessions && r.sessions[id].Tags?
      && Replaces(r.holders, r'.holders, id, r.sessions[id].current, next)
      && r' == r.(holders := r'.holders, sessions := r.sessions[id := Tags(next)])
    case Exit(id) =>
      && id in r.sessions
      && match r.sessions[id]
         case Tags(current) =>
           && Replaces(r.holders, r'.holders, id, current, [])
           && r' == r.(holders := r'.holders, sessions := r.sessions - {id})
         case Identity(node) =>
           var slots := if node in r.slots && r.slots[node] == id then r.slots - {node} else r.slots;
           r' == r.(slots := slots, sessions := r.sessions - {id})
  }

  ghost predicate IsRun(relays: seq<Relay>, steps: seq<Step>) {
    && |relays| == |steps| + 1
    && relays[0] == Empty()
    && forall i | 0 <= i < |steps| :: Next(relays[i], relays[i + 1], steps[i])
  }

  // ---------------------------------------------------------------------
  // Invariant
  // ---------------------------------------------------------------------

  /** Session `x` is being served in tag mode and `t` is in its current set. */
  predicate Registers(r: Relay, x: SessionId, t: Tag) {
    x in r.sessions && r.sessions[x].Tags? && t in r.sessions[x].current
  }

  ghost predicate HoldersInv(r: Relay) {
    && TagsBounded(r.holders)
    && forall t, x | t in r.holders && x in r.holders[t] :: Registers(r, x, t)
  }

  ghost predicate SlotsInv(r: Relay) {
    && (forall node | node in r.slots ::
          node in r.latest && r.slots[node] == r.latest[node] && r.slots[node] in r.sessions &&
          r.sessions[r.slots[node]] == Identity(node))
    && (forall node | node in r.latest && r.latest[node] in r.sessions ::
          r.sessions[r.latest[node]] == Identity(node) && node in r.slots)
    && forall node | node in r.latest :: r.latest[node] !in r.drawn
  }

  ghost predicate IdsInv(r: Relay) {
    && (forall x | x in r.sessions :: x < r.nextId && x !in r.drawn)
    && (forall x | x in r.drawn :: x < r.nextId)
    && (forall node | node in r.latest :: r.latest[node] < r.nextId)
  }

  ghost predicate Inv(r: Relay) {
    HoldersInv(r) && SlotsInv(r) && IdsInv(r)
  }

  lemma ReplaceKeepsBounds(h: Holders, h': Holders, id: SessionId, current: seq<Tag>, next: seq<Tag>)
    requires TagsBounded(h) && Replaces(h, h', id, current, next)
    ensures TagsBounded(h')
  {
    forall t | t in h' ensures 1 <= |h'[t]| <= TAG_ENDS {
      assert HoldersOf(h', t) == h'[t] != {};
      if t !in next {
        assert h'[t] == Left(h, id, current, t) && t in h && h'[t] <= h[t];
        SubsetSize(h'[t], h[t]);
      }
    }
  }

  /** Every holder after a replacement held the tag before, or is `id` asking for it; `id` keeps only `next`. */
  lemma ReplaceHolders(h: Holders, h': Holders, id: SessionId, current: seq<Tag>, next: seq<Tag>, t: Tag, x: SessionId)
    requires Replaces(h, h', id, current, next)
    requires t in h' && x in h'[t]
    ensures x in HoldersOf(h, t) || (x == id && t in next)
    ensures x == id && t in current ==> t in next
  {
    assert x in HoldersOf(h', t);
    if t in next {
      assert TwoLargest(Left(h, id, current, t) + {id}, HoldersOf(h', t));
    }
  }

  lemma ReplaceKeepsHolders(r: Relay, r': Relay, id: SessionId, current: seq<Tag>, next: seq<Tag>)
    requires HoldersInv(r) && Replaces(r.holders, r'.holders, id, current, next)
    requires forall x | x != id && x in r.sessions :: x in r'.sessions && r'.sessions[x] == r.sessions[x]
    requires forall t | t in next :: Registers(r', id, t)
    requires forall t | t in r.holders && id in r.holders[t] :: t in current
    ensures HoldersInv(r')
  {
    ReplaceKeepsBounds(r.holders, r'.holders, id, current, next);
    forall t, x | t in r'.holders && x in r'.holders[t] ensures Registers(r', x, t) {
      ReplaceHolders(r.holders, r'.holders, id, current, next, t, x);
    }
  }

  lemma StepKeepsHolders(r: Relay, r': Relay, step: Step)
    requires Inv(r) && Next(r, r', step)
    ensures HoldersInv(r')
  {
    match step
    case EnterTags(id, tags) => ReplaceKeepsHolders(r, r', id, [], tags);
    case Reregister(id, next) => ReplaceKeepsHolders(r, r', id, r.sessions[id].current, next);
    case Exit(id) =>
      if r.sessions[id].Tags? {
        ReplaceKeepsHolders(r, r', id, r.sessions[id].current, []);
      }
    case _ =>
  }

  lemma StepKeepsSlots(r: Relay, r': Relay, step: Step)
    requires Inv(r) && Next(r, r', step)
    ensures SlotsInv(r') && IdsInv(r')
  {
  }

  lemma {:induction false} RunKeepsInv(relays: seq<Relay>, steps: seq<Step>, i: nat)
    requires IsRun(relays, steps) && i < |relays|
    ensures Inv(relays[i])
  {
    if i > 0 {
      RunKeepsInv(relays, steps, i - 1);
      StepKeepsHolders(relays[i - 1], relays[i], steps[i - 1]);
      StepKeepsSlots(relays[i - 1], relays[i], steps[i - 1]);
    }
  }

  // ---------------------------------------------------------------------
  // Main results
  // ---------------------------------------------------------------------

  /**
   In every reachable state a registered tag has one or two holders, each a
   session still being served whose current set contains the tag.
   */
  lemma HoldersAreLiveRegistrants(relays: seq<Relay>, steps: seq<Step>, i: nat)
    requires IsRun(relays, steps) && i < |relays|
    ensures forall t | t in relays[i].holders ::
              && 1 <= |relays[i].holders[t]| <= 2
              && forall x | x in relays[i].holders[t] :: Registers(relays[i], x, t)
  {
    RunKeepsInv(relays, steps, i);
  }

  /**
   Identity mode, newest wins: a node's slot is the last session that
   registered the node for as long as that session is served, and empty
   afterwards.  An older session's exit never takes the slot away.
   */
  lemma SlotIsNewestSession(relays: seq<Relay>, steps: seq<Step>, i: nat, node: NodeId)
    requires IsRun(relays, steps) && i < |relays|
    ensures var r := relays[i];
            if node in r.latest && r.latest[node] in r.sessions
            then node in r.slots && r.slots[node] == r.latest[node]
            else node !in r.slots
  {
    RunKeepsInv(relays, steps, i);
  }

  /** `id` occurs nowhere in the registry. */
  ghost predicate Gone(r: Relay, id: SessionId) {
    && id !in r.sessions && id !in r.drawn
    && (forall t | t in r.holders :: id !in r.holders[t])
    && (forall node | node in r.slots :: r.slots[node] != id)
  }

  lemma GoneStaysGone(r: Relay, r': Relay, step: Step, id: SessionId)
    requires Inv(r) && Next(r, r', step) && Gone(r, id) && id < r.nextId
    ensures Gone(r', id) && id < r'.nextId
  {
    StepKeepsHolders(r, r', step);
    StepKeepsSlots(r, r', step);
  }

  /**
   However a session ends, nothing of it is left in the registry, in that
   state and in every later one.
   */
  lemma {:induction false} ExitLeavesNoTrace(relays: seq<Relay>, steps: seq<Step>, i: nat, j: nat)
    requires IsRun(relays, steps) && i < |steps| && steps[i].Exit? && i < j < |relays|
    ensures Gone(relays[j], steps[i].id) && steps[i].id < relays[j].nextId
    decreases j
  {
    var id := steps[i].id;
    RunKeepsInv(relays, steps, j - 1);
    if j == i + 1 {
      RunKeepsInv(relays, steps, j);
      assert id !in relays[j].sessions;
    } else {
      ExitLeavesNoTrace(relays, steps, i, j - 1);
      GoneStaysGone(relays[j - 1], relays[j], steps[j - 1], id);
    }
  }

  // ---------------------------------------------------------------------
  // Delivery
  // ---------------------------------------------------------------------

  /** The sessions a `SendTag` from `sender` is queued to. */
  function Targets(r: Relay, sender: SessionId, t: Tag): set<SessionId> {
    HoldersOf(r.holders, t) - {sender}
  }

  /**
   A tag datagram goes only to served sessions that registered the tag, never
   back to its sender, to at most two, and to at most one when the sender
   holds the tag itself: the relay does not amplify.
   */
  lemma DeliveryIsToTheOtherEnd(relays: seq<Relay>, steps: seq<Step>, i: nat, sender: SessionId, t: Tag)
    requires IsRun(relays, steps) && i < |relays|
    ensures var r := relays[i];
            var targets := Targets(r, sender, t);
            && sender !in targets
            && (forall x | x in targets :: Registers(r, x, t))
            && |targets| <= 2
            && (sender in HoldersOf(r.holders, t) ==> |targets| <= 1)
  {
    RunKeepsInv(relays, steps, i);
  }

  /** A session that has just registered a tag holds it unless two sessions with larger ids do. */
  lemma RegistrantHoldsUnlessOlder(h: Holders, h': Holders, id: SessionId, current: seq<Tag>, next: seq<Tag>, t: Tag)
    requires TagsBounded(h) && Replaces(h, h', id, current, next) && t in next
    ensures id in HoldersOf(h', t) <==> !(|Left(h, id, current, t)| == TAG_ENDS && forall x | x in Left(h, id, current, t) :: id < x)
  {
    var left, after := Left(h, id, current, t), HoldersOf(h', t);
    SubsetSize(left, HoldersOf(h, t));
    if id !in after {
      assert after <= left;
      ProperSubsetSize(after, left + {id});
      SubsetSize(after, left);
      if x :| x in left && x !in after {
        ProperSubsetSize(after, left);
        assert false;
      }
    } else if |left| == TAG_ENDS && forall x | x in left :: id < x {
      if left <= after {
        assert left + {id} <= after;
        SubsetSize(left + {id}, after);
      }
    }
  }

  // ---------------------------------------------------------------------
  // How a holder loses a tag
  // ---------------------------------------------------------------------

  /** Session `x` asks for `t` while `id` and a third session hold it, and `id` is the smallest of the three. */
  predicate Evicts(h: Holders, x: SessionId, id: SessionId, t: Tag) {
    var others := HoldersOf(h, t) - {x};
    x != id && id < x && |others| == 2 && forall y | y in others :: id <= y
  }

  /** The step by which holder `id` of `t` loses it. */
  predicate LosesTag(r: Relay, step: Step, id: SessionId, t: Tag) {
    match step
    case EnterTags(x, tags) => t in tags && Evicts(r.holders, x, id, t)
    case Reregister(x, next) => if x == id then t !in next else t in next && Evicts(r.holders, x, id, t)
    case Exit(x) => x == id
    case _ => false
  }

  /** One registration by any session, seen from another holder of the tag. */
  lemma RegistrationEvicts(h: Holders, h': Holders, x: SessionId, current: seq<Tag>, next: seq<Tag>, id: SessionId, t: Tag)
    requires TagsBounded(h) && Replaces(h, h', x, current, next)
    requires x in HoldersOf(h, t) ==> t in current
    requires x != id && id in HoldersOf(h, t)
    ensures id in HoldersOf(h', t) <==> !(t in next && Evicts(h, x, id, t))
  {
    var left, after := Left(h, x, current, t), HoldersOf(h', t);
    assert left == HoldersOf(h, t) - {x};
    SubsetSize(left, HoldersOf(h, t));
    if t in next {
      ThirdOneOut(left, x, id, after);
    }
  }

  /** Of at most two holders and a newcomer, a holder goes exactly when it is the smallest of three. */
  lemma ThirdOneOut(left: set<SessionId>, x: SessionId, id: SessionId, after: set<SessionId>)
    requires id in left && x !in left && |left| <= TAG_ENDS && TwoLargest(left + {x}, after)
    ensures id !in after <==> id < x && |left| == TAG_ENDS && forall y | y in left :: id <= y
  {
    assert |left + {x}| == |left| + 1;
    if |left| < TAG_ENDS {
      if id !in after {
        ProperSubsetSize(after, left + {x});
      }
    } else if id !in after {
      ProperSubsetSize(after, left + {x});
      AllButOne(left + {x}, id, after);
      assert x in after && forall y | y in left && y != id :: y in after;
    } else if id < x && forall y | y in left :: id <= y {
      AllKept(left + {x}, id, after);
    }
  }

  /** What is kept of three without `id` is the other two. */
  lemma AllButOne(all: set<SessionId>, id: SessionId, after: set<SessionId>)
    requires id in all && after <= all - {id} && |after| + 1 == |all|
    ensures after == all - {id}
  {
    if y :| y in all - {id} && y !in after {
      ProperSubsetSize(after, all - {id});
    }
  }

  /** If the smallest is kept, everything is. */
  lemma AllKept(all: set<SessionId>, id: SessionId, after: set<SessionId>)
    requires TwoLargest(all, after) && id in after && forall y | y in all :: id <= y
    ensures after == all
  {
  }

  /** A holder stays a holder through a step exactly when the step is not one by which it loses the tag. */
  lemma HolderStep(r: Relay, r': Relay, step: Step, id: SessionId, t: Tag)
    requires Inv(r) && Next(r, r', step) && id in HoldersOf(r.holders, t)
    ensures id in HoldersOf(r'.holders, t) <==> !LosesTag(r, step, id, t)
  {
    match step
    case EnterTags(x, tags) => RegistrationEvicts(r.holders, r'.holders, x, [], tags, id, t);
    case Reregister(x, next) =>
      if x == id {
        OwnRegistration(r, r', id, next, t);
      } else {
        RegistrationEvicts(r.holders, r'.holders, x, r.sessions[x].current, next, id, t);
      }
    case Exit(x) =>
      if r.sessions[x].Tags? && x != id {
        RegistrationEvicts(r.holders, r'.holders, x, r.sessions[x].current, [], id, t);
      }
    case _ =>
  }

  lemma OwnRegistration(r: Relay, r': Relay, id: SessionId, next: seq<Tag>, t: Tag)
    requires Inv(r) && Next(r, r', Reregister(id, next)) && id in HoldersOf(r.holders, t)
    ensures id in HoldersOf(r'.holders, t) <==> t in next
  {
    if t in next {
      var left := Left(r.holders, id, r.sessions[id].current, t);
      ProperSubsetSize(left, HoldersOf(r.holders, t));
      RegistrantHoldsUnlessOlder(r.holders, r'.holders, id, r.sessions[id].current, next, t);
    }
  }

  ghost predicate HoldsAt(relays: seq<Relay>, m: nat, id: SessionId, t: Tag)
    requires m < |relays|
  {
    id in HoldersOf(relays[m].holders, t)
  }

  ghost predicate LosesAt(relays: seq<Relay>, steps: seq<Step>, m: nat, id: SessionId, t: Tag)
    requires m < |steps| && |relays| == |steps| + 1
  {
    LosesTag(relays[m], steps[m], id, t)
  }

  lemma HolderStepAt(relays: seq<Relay>, steps: seq<Step>, m: nat, id: SessionId, t: Tag)
    requires IsRun(relays, steps) && m < |steps| && HoldsAt(relays, m, id, t)
    ensures HoldsAt(relays, m + 1, id, t) <==> !LosesAt(relays, steps, m, id, t)
  {
    RunKeepsInv(relays, steps, m);
    HolderStep(relays[m], relays[m + 1], steps[m], id, t);
  }

  /**
   A session that holds a tag goes on holding it, through any number of steps
   of any session, exactly as long as no step is one by which it loses the
   tag: its own exit, its own registration without the tag, or a larger id
   joining while it is the smaller of two holders.
   */
  lemma {:induction false} HolderStays(relays: seq<Relay>, steps: seq<Step>, i: nat, k: nat, id: SessionId, t: Tag)
    requires IsRun(relays, steps) && i <= k < |relays| && HoldsAt(relays, i, id, t)
    ensures (forall m | i <= m <= k :: HoldsAt(relays, m, id, t))
            <==> forall m | i <= m < k :: !LosesAt(relays, steps, m, id, t)
    decreases k
  {
    if i < k {
      HolderStays(relays, steps, i, k - 1, id, t);
      if HoldsAt(relays, k - 1, id, t) {
        HolderStepAt(relays, steps, k - 1, id, t);
      }
    }
  }

  // ---------------------------------------------------------------------
  // A registration that evicts its own session
  // ---------------------------------------------------------------------

  /** Three sessions draw their ids; the one with the smallest registers last. */
  function LateSmallest(t: Tag): seq<Step> {
    [Draw, Draw, Draw, EnterTags(2, [t]), EnterTags(3, [t]), EnterTags(1, [t])]
  }

  function Entered(r: Relay, id: SessionId, t: Tag, kept: set<SessionId>): Relay {
    r.(holders := map[t := kept], drawn := r.drawn - {id}, sessions := r.sessions[id := Tags([t])])
  }

  lemma EntersWithOneTag(r: Relay, id: SessionId, t: Tag, kept: set<SessionId>)
    requires id in r.drawn && r.holders.Keys <= {t} && kept != {} && TwoLargest(HoldersOf(r.holders, t) + {id}, kept)
    ensures Next(r, Entered(r, id, t, kept), EnterTags(id, [t]))
  {
    var r' := Entered(r, id, t, kept);
    forall u ensures u !in [t] ==> HoldersOf(r'.holders, u) == Left(r.holders, id, [], u) {
    }
  }

  lemma RunSnoc(relays: seq<Relay>, steps: seq<Step>, r': Relay, step: Step)
    requires IsRun(relays, steps) && Next(relays[|steps|], r', step)
    ensures IsRun(relays + [r'], steps + [step])
  {
  }

  lemma ThreeDrawn() returns (relays: seq<Relay>)
    ensures IsRun(relays, [Draw, Draw, Draw])
    ensures relays[3] == Empty().(drawn := {1, 2, 3}, nextId := 4)
  {
    relays := [Empty(), Empty().(drawn := {1}, nextId := 2), Empty().(drawn := {1, 2}, nextId := 3),
               Empty().(drawn := {1, 2, 3}, nextId := 4)];
  }

  lemma LargerTwoStay()
    ensures TwoLargest({} + {2}, {2}) && TwoLargest({2} + {3}, {2, 3}) && TwoLargest({2, 3} + {1}, {2, 3})
  {
    assert |{2, 3} + {1}| == 3;
  }

  /** It does happen: session 1 is served with the tag in its current set, and does not hold it. */
  lemma SelfEvictionHappens(t: Tag) returns (relays: seq<Relay>)
    ensures IsRun(relays, LateSmallest(t))
    ensures Registers(relays[6], 1, t) && HoldersOf(relays[6].holders, t) == {2, 3}
  {
    LargerTwoStay();
    relays := ThreeDrawn();
    var r4 := Entered(relays[3], 2, t, {2});
    var r5 := Entered(r4, 3, t, {2, 3});
    EntersWithOneTag(relays[3], 2, t, {2});
    RunSnoc(relays, [Draw, Draw, Draw], r4, EnterTags(2, [t]));
    EntersWithOneTag(r4, 3, t, {2, 3});
    RunSnoc(relays + [r4], [Draw, Draw, Draw] + [EnterTags(2, [t])], r5, EnterTags(3, [t]));
    EntersWithOneTag(r5, 1, t, {2, 3});
    RunSnoc(relays + [r4] + [r5], [Draw, Draw, Draw] + [EnterTags(2, [t])] + [EnterTags(3, [t])],
            Entered(r5, 1, t, {2, 3}), EnterTags(1, [t]));
    relays := relays + [r4] + [r5] + [Entered(r5, 1, t, {2, 3})];
    assert LateSmallest(t) == [Draw, Draw, Draw] + [EnterTags(2, [t])] + [EnterTags(3, [t])] + [EnterTags(1, [t])];
  }
}
