/**
 The path socket's mutable state.  Class `Paths` carries its own history as
 ghost fields: every method extends it by the step it is, so whatever
 `PathRuns` proves of runs holds of every object at every moment.
 */
module PathSocket {
  import opened Core
  import opened PathState
  import opened PathRuns

  class Paths {
    const udp: Udp
    var peers: map<NodeId, Peer>
    var sessions: map<NodeId, SessionId>
    var nextSession: SessionId
    var byDirect: map<Addr, NodeId>
    var byKeyId: map<KeyId, NodeId>
    /** Every session told that it was superseded, in order. */
    var notified: seq<SessionId>

    ghost var states: seq<Inner>
    ghost var steps: seq<Step>

    function State(): Inner
      reads this
    {
      Inner(peers, sessions, nextSession, byDirect, byKeyId)
    }

    /** The history is a run that led here. */
    ghost predicate Historic()
      reads this
    {
      IsRun(udp, states, steps) && states[|steps|] == State()
    }

    ghost function History(): Log
      requires Historic()
      reads this
    {
      LogOf(states, steps, |steps|)
    }

    ghost predicate Valid()
      reads this
    {
      && Historic()
      && notified == History().told
      && KeysInv(State())
      && SlotInv(sessions, History()) && nextSession == |History().peers|
    }

    /** Since a moment with history `was` and `did`, exactly `more` happened. */
    ghost predicate Ran(was: seq<Inner>, did: seq<Step>, more: seq<Step>)
      reads this
    {
      was <= states && steps == did + more
    }

    constructor (udp: Udp)
      ensures Valid() && this.udp == udp && State() == EMPTY && steps == [] && notified == []
    {
      this.udp := udp;
      peers, sessions, nextSession, byDirect, byKeyId := map[], map[], 0, map[], map[];
      notified := [];
      states, steps := [EMPTY], [];
    }

    /** Enter a finished action into the history. */
    ghost method Record(step: Step)
      requires IsRun(udp, states, steps) && State() == Apply(udp, states[|steps|], step)
      requires notified == Logged(LogOf(states, steps, |steps|), states[|steps|], step).told
      modifies this`states, this`steps
      ensures Valid() && Ran(old(states), old(steps), [step])
    {
      var was, did := states, steps;
      RunSnoc(udp, was, did, step);
      states, steps := was + [State()], did + [step];
      LogIsHistory(was, did, states, steps, |did|);
      KeyIndexIsCurrent(udp, states, steps, |steps|);
      SlotsHold(udp, states, steps, |steps|);
    }

    /** The peer's entry, made first if there was none. */
    method Entry(p: NodeId) returns (e: Peer)
      modifies this`peers
      ensures e == PeerOf(old(State()), p) && State() == WithPeer(old(State()), p, e)
    {
      e := if p in peers then peers[p] else NEW_PEER;
      peers := peers[p := e];
    }

    method Register(p: NodeId)
      requires Valid()
      modifies this
      ensures Valid() && Ran(old(states), old(steps), [RegisterPeer(p)])
      ensures p in peers && State() == old(State()).(peers := old(peers)[p := PeerOf(old(State()), p)])
    {
      var e := Entry(p);
      Record(RegisterPeer(p));
    }

    method SetPeerCandidates(p: NodeId, candidates: seq<Addr>)
      requires Valid()
      modifies this
      ensures Valid() && Ran(old(states), old(steps), [Candidates(p, candidates)])
      ensures State() == SetCandidates(udp, old(State()), p, candidates)
    {
      var usable := [];
      for i := 0 to |candidates|
        invariant usable == Usable(udp, candidates[..i])
      {
        assert candidates[..i + 1][..i] == candidates[..i];
        var a := Unmapped(candidates[i]);
        if udp.Bound? && udp.v4 == a.V4? {
          usable := usable + [a];
        }
      }
      assert candidates[..|candidates|] == candidates;
      var e := Entry(p);
      peers := peers[p := e.(candidates := usable, updates := if e.updates + 1 == U32_LIMIT then 0 else e.updates + 1)];
      Record(Candidates(p, candidates));
    }

    method DropDirectProof(p: NodeId, session: SessionId)
      requires Valid()
      modifies this
      ensures Valid() && Ran(old(states), old(steps), [Drop(p, session)])
      ensures State() == DropDirect(old(State()), p, session)
    {
      if p in sessions && sessions[p] == session && p in peers && peers[p].direct.Some? {
        var proven := peers[p].direct.value;
        peers := peers[p := peers[p].(direct := None)];
        byDirect := byDirect - {proven.addr};
      }
      Record(Drop(p, session));
    }

    method BeginPeerSession(p: NodeId) returns (id: SessionId)
      requires Valid()
      modifies this
      ensures Valid() && Ran(old(states), old(steps), [Begin(p)])
      ensures State() == BeginSession(old(State()), p) && id == old(nextSession)
      ensures IsLive(State(), p, id) && (p in peers ==> peers[p].direct.None? && peers[p].pending == map[])
      ensures notified == if p in old(sessions) then old(notified) + [old(sessions)[p]] else old(notified)
    {
      id := nextSession;
      nextSession := nextSession + 1;
      if p in sessions {
        notified := notified + [sessions[p]];
      }
      sessions := sessions[p := id];
      if p in peers {
        var e := peers[p];
        peers := peers[p := e.(candidates := [], learned := map[], pending := map[], lastPing := map[], lastPong := map[], direct := None)];
        if e.direct.Some? {
          byDirect := byDirect - {e.direct.value.addr};
        }
      }
      Record(Begin(p));
    }

    method EndPeerSession(p: NodeId, session: SessionId)
      requires Valid()
      modifies this
      ensures Valid() && Ran(old(states), old(steps), [End(p, session)])
      ensures State() == EndSession(old(State()), p, session) && !IsLive(State(), p, session)
    {
      if p in sessions && sessions[p] == session {
        sessions := sessions - {p};
      }
      Record(End(p, session));
    }

    method RegisterProbeKey(p: NodeId, id: KeyId, key: Key)
      requires Valid()
      modifies this
      ensures Valid() && Ran(old(states), old(steps), [AddKey(p, id, key)])
      ensures State() == RegisterKey(old(State()), p, id, key) && ProbeSession(State(), id) == Some((p, key))
    {
      IndexKey(p, id, key);
      Record(AddKey(p, id, key));
    }

    method IndexKey(p: NodeId, id: KeyId, key: Key)
      modifies this`peers, this`byKeyId
      ensures State() == RegisterKey(old(State()), p, id, key)
    {
      var e := Entry(p);
      peers := peers[p := e.(probeKey := Some((id, key)))];
      if e.probeKey.Some? {
        byKeyId := byKeyId - {e.probeKey.value.0};
      }
      byKeyId := byKeyId[id := p];
    }

    method UnregisterProbeKey(id: KeyId)
      requires Valid()
      modifies this
      ensures Valid() && Ran(old(states), old(steps), [RemoveKey(id)])
      ensures State() == UnregisterKey(old(State()), id) && ProbeSession(State(), id).None?
    {
      if id in byKeyId {
        var p := byKeyId[id];
        byKeyId := byKeyId - {id};
        if p in peers && peers[p].probeKey.Some? && peers[p].probeKey.value.0 == id {
          peers := peers[p := peers[p].(probeKey := None)];
        }
      }
      Record(RemoveKey(id));
    }

    /** The listed candidates first, then each fresh learnt address not among them, in map order. */
    method ProbeTargets(p: NodeId, now: Time) returns (out: seq<Addr>)
      ensures PeerOf(State(), p).candidates <= out
      ensures forall a :: a in out <==> Target(State(), p, now, a)
      ensures var e := PeerOf(State(), p);
              forall i, j | |e.candidates| <= i < |out| && 0 <= j < i :: out[i] != out[j]
    {
      if p !in peers {
        return [];
      }
      var e := peers[p];
      out := e.candidates;
      var todo := e.learned.Keys;
      while todo != {}
        invariant todo <= e.learned.Keys && e.candidates <= out
        invariant forall a :: a in out <==> a in e.candidates || (a in e.learned && a !in todo && now - e.learned[a] < LEARNED_TTL)
        invariant forall i, j | |e.candidates| <= i < |out| && 0 <= j < i :: out[i] != out[j]
        decreases todo
      {
        var a :| a in todo;
        todo := todo - {a};
        if now - e.learned[a] < LEARNED_TTL && a !in out {
          out := out + [a];
        }
      }
    }

    /** `delivered` is what the UDP socket makes of the datagram; the probe is outstanding either way. */
    method SendPing(p: NodeId, a: Addr, nonce: Nonce, now: Time, delivered: bool) returns (sent: bool)
      requires Valid()
      modifies this
      ensures Valid() && Ran(old(states), old(steps), [Ping(p, a, nonce, now)])
      ensures State() == PathState.SendPing(udp, old(State()), p, a, nonce, now)
      ensures sent <==> CanPing(udp, old(State()), p) && delivered
      ensures sent ==> nonce in peers[p].pending && peers[p].pending[nonce] == (a, now)
    {
      sent := false;
      if udp.Bound? {
        var e := Entry(p);
        if e.probeKey.Some? {
          peers := peers[p := e.(pending := e.pending[nonce := (a, now)], lastPing := e.lastPing[a := now])];
          sent := delivered;
        }
      }
      Record(Ping(p, a, nonce, now));
    }

    /** Probes younger than the timeout stay as they are, the others go, and nothing else changes. */
    method ForgetStalePending(p: NodeId, now: Time)
      requires Valid()
      modifies this
      ensures Valid() && Ran(old(states), old(steps), [ForgetPending(p, now)])
      ensures p in peers
      ensures State() == old(State()).(peers := old(peers)[p := PeerOf(old(State()), p).(pending := peers[p].pending)])
      ensures var was := PeerOf(old(State()), p).pending;
              && (forall n :: n in peers[p].pending <==> n in was && now - was[n].1 < PROBE_TIMEOUT)
              && (forall n | n in peers[p].pending :: peers[p].pending[n] == was[n])
    {
      DropStalePending(p, now);
      Record(ForgetPending(p, now));
    }

    method DropStalePending(p: NodeId, now: Time)
      modifies this`peers
      ensures State() == PrunePending(old(State()), p, now)
    {
      var e := Entry(p);
      var pending := KeepPending(e.pending, now);
      assert pending == FreshPending(e.pending, now);
      peers := peers[p := e.(pending := pending)];
    }

    static method KeepPending(was: map<Nonce, (Addr, Time)>, now: Time) returns (pending: map<Nonce, (Addr, Time)>)
      ensures forall n :: n in pending <==> n in was && now - was[n].1 < PROBE_TIMEOUT
      ensures forall n | n in pending :: pending[n] == was[n]
    {
      pending := was;
      var todo := was.Keys;
      while todo != {}
        invariant todo <= was.Keys
        invariant forall n :: n in pending <==> n in was && (n in todo || now - was[n].1 < PROBE_TIMEOUT)
        invariant forall n | n in pending :: pending[n] == was[n]
        decreases todo
      {
        var n :| n in todo;
        todo := todo - {n};
        if now - was[n].1 >= PROBE_TIMEOUT {
          pending := pending - {n};
        }
      }
    }

    /** Learnt addresses seen within ten seconds stay as they are, the others go, and nothing else changes. */
    method ForgetStaleLearned(p: NodeId, now: Time)
      requires Valid()
      modifies this
      ensures Valid() && Ran(old(states), old(steps), [ForgetLearned(p, now)])
      ensures p !in old(peers) ==> State() == old(State())
      ensures p in old(peers) ==>
        var was := old(peers)[p].learned;
        && p in peers
        && State() == old(State()).(peers := old(peers)[p := old(peers)[p].(learned := peers[p].learned)])
        && (forall a :: a in peers[p].learned <==> a in was && now - was[a] < LEARNED_TTL)
        && (forall a | a in peers[p].learned :: peers[p].learned[a] == was[a])
    {
      if p in peers {
        var e := peers[p];
        var learned := KeepLearned(e.learned, now);
        peers := peers[p := e.(learned := learned)];
        assert learned == FreshLearned(e.learned, now);
      }
      Record(ForgetLearned(p, now));
    }

    static method KeepLearned(was: map<Addr, Time>, now: Time) returns (learned: map<Addr, Time>)
      ensures forall a :: a in learned <==> a in was && now - was[a] < LEARNED_TTL
      ensures forall a | a in learned :: learned[a] == was[a]
    {
      learned := was;
      var todo := was.Keys;
      while todo != {}
        invariant todo <= was.Keys
        invariant forall a :: a in learned <==> a in was && (a in todo || now - was[a] < LEARNED_TTL)
        invariant forall a | a in learned :: learned[a] == was[a]
        decreases todo
      {
        var a :| a in todo;
        todo := todo - {a};
        if now - was[a] >= LEARNED_TTL {
          learned := learned - {a};
        }
      }
    }

    method HandlePing(p: NodeId, from: Addr, now: Time) returns (answer: bool, probeBack: bool)
      requires Valid()
      modifies this
      ensures Valid() && Ran(old(states), old(steps), [PingIn(p, from, now)])
      ensures State() == GotPing(udp, old(State()), p, from, now)
      ensures answer == (udp.Bound? && AnswersPing(PeerOf(old(State()), p), from, now))
      ensures probeBack == (udp.Bound? && ProbesBack(PeerOf(old(State()), p), from, now))
    {
      answer, probeBack := false, false;
      if udp.Bound? {
        var e := Entry(p);
        e, answer, probeBack := NotePing(e, from, now);
        peers := peers[p := e];
      }
      Record(PingIn(p, from, now));
    }

    /** Both rate limits, and the address learnt, for one peer. */
    static method NotePing(e: Peer, from: Addr, now: Time) returns (after: Peer, answer: bool, probeBack: bool)
      ensures after == Pinged(e, from, now)
      ensures answer == AnswersPing(e, from, now) && probeBack == ProbesBack(e, from, now)
    {
      after := e;
      answer := from !in e.lastPong || now - e.lastPong[from] >= PONG_INTERVAL;
      var proved := e.direct.Some? && e.direct.value.addr == from && now - e.direct.value.provedAt < DIRECT_FRESH;
      var recent := from in e.lastPing && now - e.lastPing[from] < COUNTER_PROBE_INTERVAL;
      probeBack := !proved && !recent;
      if answer {
        after := after.(lastPong := after.lastPong[from := now]);
      }
      if from !in e.candidates {
        after := after.(learned := after.learned[from := now]);
      }
    }

    method HandlePong(p: NodeId, nonce: Nonce, from: Addr, now: Time)
      requires Valid()
      modifies this
      ensures Valid() && Ran(old(states), old(steps), [PongIn(p, nonce, from, now)])
      ensures State() == GotPong(udp, old(State()), p, nonce, from, now)
      ensures Accepts(udp, old(State()), p, nonce) ==> Route(udp, State(), p, now) == Some(from) && !Accepts(udp, State(), p, nonce)
    {
      if udp.Bound? && p in peers && nonce in peers[p].pending {
        var e := peers[p];
        e := e.(pending := e.pending - {nonce});
        e := e.(direct := Some(Proven(from, now)), learned := e.learned - {from});
        peers := peers[p := e];
        byDirect := byDirect[from := p];
      }
      Record(PongIn(p, nonce, from, now));
    }

    /**
     One probing round: forget what is stale, then ping every target once.
     The nonces, clock readings and socket results of its pings are inputs.
     */
    method SendProbes(p: NodeId, now: Time, targetsAt: Time, nonce: nat -> Nonce, at: nat -> Time, delivered: nat -> bool)
      returns (sent: nat, targets: seq<Addr>)
      requires Valid()
      modifies this
      ensures Valid()
      ensures Ran(old(states), old(steps), [ForgetPending(p, now), ForgetLearned(p, now)] + Pings(p, targets, nonce, at))
      ensures sent == if CanPing(udp, old(State()), p) then Count(delivered, |targets|) else 0
      ensures forall a :: a in targets <==>
                a in PeerOf(old(State()), p).candidates
                || (a in FreshLearned(PeerOf(old(State()), p).learned, now) && a in FreshLearned(PeerOf(old(State()), p).learned, targetsAt))
      ensures forall a | a in targets ::
                a in PeerOf(old(State()), p).candidates || HeardRecently(old(steps), |old(steps)|, p, a, targetsAt)
    {
      HeardWhenLearned(udp, states, steps, p, targetsAt);
      ForgetStalePending(p, now);
      ForgetStaleLearned(p, now);
      targets := ProbeTargets(p, targetsAt);
      sent := PingAll(p, targets, nonce, at, delivered);
    }

    method PingAll(p: NodeId, targets: seq<Addr>, nonce: nat -> Nonce, at: nat -> Time, delivered: nat -> bool)
      returns (sent: nat)
      requires Valid()
      modifies this
      ensures Valid() && Ran(old(states), old(steps), Pings(p, targets, nonce, at))
      ensures sent == if CanPing(udp, old(State()), p) then Count(delivered, |targets|) else 0
    {
      sent := 0;
      for k := 0 to |targets|
        invariant Valid() && CanPing(udp, State(), p) == CanPing(udp, old(State()), p)
        invariant sent == if CanPing(udp, State(), p) then Count(delivered, k) else 0
        invariant Ran(old(states), old(steps), Pings(p, targets[..k], nonce, at))
      {
        var ok := SendPing(p, targets[k], nonce(k), at(k), delivered(k));
        if ok {
          sent := sent + 1;
        }
        PingsSnoc(p, targets, nonce, at, k);
      }
      assert targets[..|targets|] == targets;
    }
  }

  function Pings(p: NodeId, targets: seq<Addr>, nonce: nat -> Nonce, at: nat -> Time): seq<Step> {
    seq(|targets|, k requires 0 <= k < |targets| => Ping(p, targets[k], nonce(k), at(k)))
  }

  /** How many of the first `n` hold. */
  function Count(holds: nat -> bool, n: nat): nat {
    if n == 0 then 0 else Count(holds, n - 1) + if holds(n - 1) then 1 else 0
  }

  lemma PingsSnoc(p: NodeId, targets: seq<Addr>, nonce: nat -> Nonce, at: nat -> Time, k: nat)
    requires k < |targets|
    ensures Pings(p, targets[..k + 1], nonce, at) == Pings(p, targets[..k], nonce, at) + [Ping(p, targets[k], nonce(k), at(k))]
  {
  }

  lemma HeardWhenLearned(udp: Udp, states: seq<Inner>, steps: seq<Step>, p: NodeId, now: Time)
    requires IsRun(udp, states, steps)
    ensures forall a | a in FreshLearned(PeerOf(states[|steps|], p).learned, now) :: HeardRecently(steps, |steps|, p, a, now)
  {
    forall a | a in FreshLearned(PeerOf(states[|steps|], p).learned, now) ensures HeardRecently(steps, |steps|, p, a, now) {
      LearnedWasHeard(udp, states, steps, |steps|, p, a);
    }
  }
}
