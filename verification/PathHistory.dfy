/**
 Every part of the path socket's state as a statement about its history: a
 part is there exactly when some step put it there and no step since took it
 away.
 */
module PathHistory {
  import opened Core
  import opened PathState
  import opened PathRuns
  import opened History
  import Selection

  type Fact = Inner -> bool
  type Happening = (Inner, Step) -> bool

  /** The moments at which a happening occurs. */
  function When(states: seq<Inner>, steps: seq<Step>, happens: Happening): nat -> bool {
    (i: nat) => i < |steps| && i < |states| && happens(states[i], steps[i])
  }

  /** A step makes the fact true, or leaves it true. */
  ghost predicate Explains(udp: Udp, fact: Fact, began: Happening, ended: Happening) {
    forall s, step :: fact(Apply(udp, s, step)) <==> began(s, step) || (fact(s) && !ended(s, step))
  }

  lemma {:induction false} FactIsHistory(udp: Udp, states: seq<Inner>, steps: seq<Step>, j: nat,
                                         fact: Fact, began: Happening, ended: Happening)
    requires IsRun(udp, states, steps) && j <= |steps| && !fact(EMPTY) && Explains(udp, fact, began, ended)
    ensures fact(states[j]) <==> Since(When(states, steps, began), When(states, steps, ended), j)
  {
    if j > 0 {
      FactIsHistory(udp, states, steps, j - 1, fact, began, ended);
      assert StepAt(udp, states, steps, j - 1);
      SinceStep(When(states, steps, began), When(states, steps, ended), j - 1);
    }
  }

  // ---------------------------------------------------------------------
  // One peer's entry
  // ---------------------------------------------------------------------

  /** What a step of the peer's own makes of its entry. */
  function EntryAfter(udp: Udp, s: Inner, step: Step, p: NodeId): Peer {
    var e := PeerOf(s, p);
    match step
    case RegisterPeer(_) => e
    case Candidates(_, list) => e.(candidates := Usable(udp, list), updates := (e.updates + 1) % U32_LIMIT)
    case Drop(_, session) => if IsLive(s, p, session) then e.(direct := None) else e
    case Begin(_) => NEW_PEER.(updates := e.updates, probeKey := e.probeKey)
    case End(_, _) => e
    case AddKey(_, id, key) => e.(probeKey := Some((id, key)))
    case RemoveKey(id) => if e.probeKey.Some? && e.probeKey.value.0 == id then e.(probeKey := None) else e
    case ForgetPending(_, now) => e.(pending := FreshPending(e.pending, now))
    case ForgetLearned(_, now) => e.(learned := FreshLearned(e.learned, now))
    case Ping(_, a, nonce, now) =>
      if CanPing(udp, s, p) then e.(pending := e.pending[nonce := (a, now)], lastPing := e.lastPing[a := now]) else e
    case PingIn(_, from, now) => if udp.Bound? then Pinged(e, from, now) else e
    case PongIn(_, nonce, from, now) =>
      if Accepts(udp, s, p, nonce)
      then e.(pending := e.pending - {nonce}, direct := Some(Proven(from, now)), learned := e.learned - {from}) else e
  }

  /** Whose entry a step is about: its peer's, or the one the forgotten key id is indexed for. */
  predicate Concerns(s: Inner, step: Step, p: NodeId) {
    if step.RemoveKey? then step.id in s.byKeyId && s.byKeyId[step.id] == p else step.peer == p
  }

  /** A step changes the entry it is about and no other. */
  lemma EntryStep(udp: Udp, s: Inner, step: Step, p: NodeId)
    ensures PeerOf(Apply(udp, s, step), p) == if Concerns(s, step, p) then EntryAfter(udp, s, step, p) else PeerOf(s, p)
  {
  }

  // ---------------------------------------------------------------------
  // Pings sent
  // ---------------------------------------------------------------------

  function PingedAt(p: NodeId, a: Addr, t: Time): Fact {
    (s: Inner) => a in PeerOf(s, p).lastPing && PeerOf(s, p).lastPing[a] == t
  }

  /** A ping to `a` is issued at `t`. */
  function PingTo(udp: Udp, p: NodeId, a: Addr, t: Time): Happening {
    (s: Inner, step: Step) => step.Ping? && step.peer == p && step.to == a && step.now == t && CanPing(udp, s, p)
  }

  /** Another ping to `a` is issued, or a new session begins. */
  function PingAgain(udp: Udp, p: NodeId, a: Addr): Happening {
    (s: Inner, step: Step) => step == Begin(p) || (step.Ping? && step.peer == p && step.to == a && CanPing(udp, s, p))
  }

  lemma PingStep(udp: Udp, s: Inner, step: Step, p: NodeId, a: Addr, t: Time)
    ensures PingedAt(p, a, t)(Apply(udp, s, step)) <==>
      PingTo(udp, p, a, t)(s, step) || (PingedAt(p, a, t)(s) && !PingAgain(udp, p, a)(s, step))
  {
    EntryStep(udp, s, step, p);
  }

  /** The latest ping to `a` in the current session was issued at `t`. */
  ghost predicate LastPingAt(udp: Udp, states: seq<Inner>, steps: seq<Step>, j: nat, p: NodeId, a: Addr, t: Time) {
    Since(When(states, steps, PingTo(udp, p, a, t)), When(states, steps, PingAgain(udp, p, a)), j)
  }

  lemma LastPing(udp: Udp, states: seq<Inner>, steps: seq<Step>, j: nat, p: NodeId, a: Addr, t: Time)
    requires IsRun(udp, states, steps) && j <= |steps|
    ensures PingedAt(p, a, t)(states[j]) <==> LastPingAt(udp, states, steps, j, p, a, t)
  {
    forall s, step ensures PingedAt(p, a, t)(Apply(udp, s, step)) <==>
      PingTo(udp, p, a, t)(s, step) || (PingedAt(p, a, t)(s) && !PingAgain(udp, p, a)(s, step))
    {
      PingStep(udp, s, step, p, a, t);
    }
    FactIsHistory(udp, states, steps, j, PingedAt(p, a, t), PingTo(udp, p, a, t), PingAgain(udp, p, a));
  }

  /**
   When a ping is probed back: exactly when there is a socket, datagrams for
   the peer do not already go direct to that address, and the latest ping this
   session sent to it is not under a second old.
   */
  lemma ProbesBackExactly(udp: Udp, states: seq<Inner>, steps: seq<Step>, j: nat, p: NodeId, from: Addr, now: Time)
    requires IsRun(udp, states, steps) && j <= |steps|
    ensures udp.Bound? && ProbesBack(PeerOf(states[j], p), from, now) <==>
      && udp.Bound?
      && Route(udp, states[j], p, now) != Some(from)
      && !exists t :: LastPingAt(udp, states, steps, j, p, from, t) && now - t < 1_000
  {
    forall t ensures PingedAt(p, from, t)(states[j]) <==> LastPingAt(udp, states, steps, j, p, from, t) {
      LastPing(udp, states, steps, j, p, from, t);
    }
    var e := PeerOf(states[j], p);
    if from in e.lastPing {
      assert PingedAt(p, from, e.lastPing[from])(states[j]);
    }
  }

  // ---------------------------------------------------------------------
  // Pings answered
  // ---------------------------------------------------------------------

  function AnsweredAt(p: NodeId, a: Addr, t: Time): Fact {
    (s: Inner) => a in PeerOf(s, p).lastPong && PeerOf(s, p).lastPong[a] == t
  }

  function AnswerTo(udp: Udp, p: NodeId, a: Addr, t: Time): Happening {
    (s: Inner, step: Step) => step == PingIn(p, a, t) && udp.Bound? && AnswersPing(PeerOf(s, p), a, t)
  }

  function AnswerAgain(udp: Udp, p: NodeId, a: Addr): Happening {
    (s: Inner, step: Step) =>
      step == Begin(p) || (step.PingIn? && step.peer == p && step.from == a && udp.Bound? && AnswersPing(PeerOf(s, p), a, step.now))
  }

  lemma AnswerStep(udp: Udp, s: Inner, step: Step, p: NodeId, a: Addr, t: Time)
    ensures AnsweredAt(p, a, t)(Apply(udp, s, step)) <==>
      AnswerTo(udp, p, a, t)(s, step) || (AnsweredAt(p, a, t)(s) && !AnswerAgain(udp, p, a)(s, step))
  {
    EntryStep(udp, s, step, p);
  }

  /** The latest answer to `a` in the current session was given at `t`. */
  ghost predicate LastAnswerAt(udp: Udp, states: seq<Inner>, steps: seq<Step>, j: nat, p: NodeId, a: Addr, t: Time) {
    Since(When(states, steps, AnswerTo(udp, p, a, t)), When(states, steps, AnswerAgain(udp, p, a)), j)
  }

  /** A ping is answered exactly when the latest answer to its address in this session is not under a second old. */
  lemma AnswersExactly(udp: Udp, states: seq<Inner>, steps: seq<Step>, j: nat, p: NodeId, from: Addr, now: Time)
    requires IsRun(udp, states, steps) && j <= |steps|
    ensures AnswersPing(PeerOf(states[j], p), from, now) <==>
      !exists t :: LastAnswerAt(udp, states, steps, j, p, from, t) && now - t < 1_000
  {
    forall t ensures AnsweredAt(p, from, t)(states[j]) <==> LastAnswerAt(udp, states, steps, j, p, from, t) {
      forall s, step ensures AnsweredAt(p, from, t)(Apply(udp, s, step)) <==>
        AnswerTo(udp, p, from, t)(s, step) || (AnsweredAt(p, from, t)(s) && !AnswerAgain(udp, p, from)(s, step))
      {
        AnswerStep(udp, s, step, p, from, t);
      }
      FactIsHistory(udp, states, steps, j, AnsweredAt(p, from, t), AnswerTo(udp, p, from, t), AnswerAgain(udp, p, from));
    }
    var e := PeerOf(states[j], p);
    if from in e.lastPong {
      assert AnsweredAt(p, from, e.lastPong[from])(states[j]);
    }
  }

  // ---------------------------------------------------------------------
  // Addresses learnt
  // ---------------------------------------------------------------------

  function LearntAt(p: NodeId, a: Addr, t: Time): Fact {
    (s: Inner) => a in PeerOf(s, p).learned && PeerOf(s, p).learned[a] == t
  }

  /** A ping from the unlisted address `a` arrives at `t`. */
  function Heard(udp: Udp, p: NodeId, a: Addr, t: Time): Happening {
    (s: Inner, step: Step) => step == PingIn(p, a, t) && udp.Bound? && a !in PeerOf(s, p).candidates
  }

  /** It is heard again, proves itself, goes stale at a round, or a new session begins. */
  function Unheard(udp: Udp, p: NodeId, a: Addr, t: Time): Happening {
    (s: Inner, step: Step) =>
      match step
      case Begin(q) => q == p
      case PingIn(q, from, _) => q == p && from == a && udp.Bound? && a !in PeerOf(s, p).candidates
      case PongIn(q, nonce, from, _) => q == p && from == a && Accepts(udp, s, p, nonce)
      case ForgetLearned(q, now) => q == p && now - t >= 10_000
      case _ => false
  }

  lemma LearntStep(udp: Udp, s: Inner, step: Step, p: NodeId, a: Addr, t: Time)
    ensures LearntAt(p, a, t)(Apply(udp, s, step)) <==>
      Heard(udp, p, a, t)(s, step) || (LearntAt(p, a, t)(s) && !Unheard(udp, p, a, t)(s, step))
  {
    EntryStep(udp, s, step, p);
  }

  ghost predicate HeardSince(udp: Udp, states: seq<Inner>, steps: seq<Step>, j: nat, p: NodeId, a: Addr, t: Time) {
    Since(When(states, steps, Heard(udp, p, a, t)), When(states, steps, Unheard(udp, p, a, t)), j)
  }

  /** A round's targets, exactly: the peer's list, and each unlisted address heard from under ten seconds ago and not proved since. */
  lemma TargetsExactly(udp: Udp, states: seq<Inner>, steps: seq<Step>, j: nat, p: NodeId, now: Time, a: Addr)
    requires IsRun(udp, states, steps) && j <= |steps|
    ensures Target(states[j], p, now, a) <==>
      a in PeerOf(states[j], p).candidates || exists t :: HeardSince(udp, states, steps, j, p, a, t) && now - t < 10_000
  {
    forall t ensures LearntAt(p, a, t)(states[j]) <==> HeardSince(udp, states, steps, j, p, a, t) {
      forall s, step ensures LearntAt(p, a, t)(Apply(udp, s, step)) <==>
        Heard(udp, p, a, t)(s, step) || (LearntAt(p, a, t)(s) && !Unheard(udp, p, a, t)(s, step))
      {
        LearntStep(udp, s, step, p, a, t);
      }
      FactIsHistory(udp, states, steps, j, LearntAt(p, a, t), Heard(udp, p, a, t), Unheard(udp, p, a, t));
    }
    var e := PeerOf(states[j], p);
    if a in e.learned {
      assert LearntAt(p, a, e.learned[a])(states[j]);
    }
  }

  // ---------------------------------------------------------------------
  // Probes outstanding
  // ---------------------------------------------------------------------

  function AwaitsPong(p: NodeId, n: Nonce, t: Time): Fact {
    (s: Inner) => n in PeerOf(s, p).pending && PeerOf(s, p).pending[n].1 == t
  }

  function Issued(udp: Udp, p: NodeId, n: Nonce, t: Time): Happening {
    (s: Inner, step: Step) => step.Ping? && step.peer == p && step.nonce == n && step.now == t && CanPing(udp, s, p)
  }

  /** The nonce is consumed, goes stale at a round, is drawn again, or a new session begins. */
  function Settled(udp: Udp, p: NodeId, n: Nonce, t: Time): Happening {
    (s: Inner, step: Step) =>
      match step
      case Begin(q) => q == p
      case Ping(q, _, nonce, _) => q == p && nonce == n && CanPing(udp, s, p)
      case PongIn(q, nonce, _, _) => q == p && nonce == n && udp.Bound?
      case ForgetPending(q, now) => q == p && now - t >= 5_000
      case _ => false
  }

  lemma PendingStep(udp: Udp, s: Inner, step: Step, p: NodeId, n: Nonce, t: Time)
    ensures AwaitsPong(p, n, t)(Apply(udp, s, step)) <==>
      Issued(udp, p, n, t)(s, step) || (AwaitsPong(p, n, t)(s) && !Settled(udp, p, n, t)(s, step))
  {
    EntryStep(udp, s, step, p);
  }

  ghost predicate OutstandingSince(udp: Udp, states: seq<Inner>, steps: seq<Step>, j: nat, p: NodeId, n: Nonce, t: Time) {
    Since(When(states, steps, Issued(udp, p, n, t)), When(states, steps, Settled(udp, p, n, t)), j)
  }

  /** A pong is accepted exactly when its nonce was issued to that peer in this session and is not settled since. */
  lemma AcceptsExactly(udp: Udp, states: seq<Inner>, steps: seq<Step>, j: nat, p: NodeId, n: Nonce)
    requires IsRun(udp, states, steps) && j <= |steps|
    ensures Accepts(udp, states[j], p, n) <==> udp.Bound? && exists t :: OutstandingSince(udp, states, steps, j, p, n, t)
  {
    forall t ensures AwaitsPong(p, n, t)(states[j]) <==> OutstandingSince(udp, states, steps, j, p, n, t) {
      forall s, step ensures AwaitsPong(p, n, t)(Apply(udp, s, step)) <==>
        Issued(udp, p, n, t)(s, step) || (AwaitsPong(p, n, t)(s) && !Settled(udp, p, n, t)(s, step))
      {
        PendingStep(udp, s, step, p, n, t);
      }
      FactIsHistory(udp, states, steps, j, AwaitsPong(p, n, t), Issued(udp, p, n, t), Settled(udp, p, n, t));
    }
    if Accepts(udp, states[j], p, n) {
      assert AwaitsPong(p, n, states[j].peers[p].pending[n].1)(states[j]);
    }
  }

  // ---------------------------------------------------------------------
  // Proofs and routes
  // ---------------------------------------------------------------------

  function ProvedTo(p: NodeId, proven: Proven): Fact {
    (s: Inner) => PeerOf(s, p).direct == Some(proven)
  }

  /** A pong from the address is accepted at that time. */
  function PongProves(udp: Udp, p: NodeId, proven: Proven): Happening {
    (s: Inner, step: Step) =>
      step.PongIn? && step.peer == p && Proven(step.from, step.now) == proven && Accepts(udp, s, p, step.nonce)
  }

  /** Another pong proves, the live session drops the proof, or a new session begins. */
  function ProofEnds(udp: Udp, p: NodeId): Happening {
    (s: Inner, step: Step) =>
      match step
      case Begin(q) => q == p
      case PongIn(q, nonce, _, _) => q == p && Accepts(udp, s, p, nonce)
      case Drop(q, session) => q == p && IsLive(s, p, session)
      case _ => false
  }

  lemma ProofStep(udp: Udp, s: Inner, step: Step, p: NodeId, proven: Proven)
    ensures ProvedTo(p, proven)(Apply(udp, s, step)) <==>
      PongProves(udp, p, proven)(s, step) || (ProvedTo(p, proven)(s) && !ProofEnds(udp, p)(s, step))
  {
    EntryStep(udp, s, step, p);
  }

  ghost predicate ProvedSince(udp: Udp, states: seq<Inner>, steps: seq<Step>, j: nat, p: NodeId, proven: Proven) {
    Since(When(states, steps, PongProves(udp, p, proven)), When(states, steps, ProofEnds(udp, p)), j)
  }

  /** Datagrams go direct to `a` exactly when its pong is the latest proof of the peer, stands, and is under 15 s old. */
  lemma RoutesExactly(udp: Udp, states: seq<Inner>, steps: seq<Step>, j: nat, p: NodeId, now: Time, a: Addr)
    requires IsRun(udp, states, steps) && j <= |steps|
    ensures Route(udp, states[j], p, now) == Some(a) <==>
      udp.Bound? && exists t :: ProvedSince(udp, states, steps, j, p, Proven(a, t)) && now - t < 15_000
  {
    forall proven ensures ProvedTo(p, proven)(states[j]) <==> ProvedSince(udp, states, steps, j, p, proven) {
      forall s, step ensures ProvedTo(p, proven)(Apply(udp, s, step)) <==>
        PongProves(udp, p, proven)(s, step) || (ProvedTo(p, proven)(s) && !ProofEnds(udp, p)(s, step))
      {
        ProofStep(udp, s, step, p, proven);
      }
      FactIsHistory(udp, states, steps, j, ProvedTo(p, proven), PongProves(udp, p, proven), ProofEnds(udp, p));
    }
    if p in states[j].peers && states[j].peers[p].direct.Some? {
      var proven := states[j].peers[p].direct.value;
      assert ProvedTo(p, proven)(states[j]) && proven == Proven(proven.addr, proven.provedAt);
    }
  }

  function AcceptedFrom(p: NodeId, a: Addr): Fact {
    (s: Inner) => a in s.byDirect && s.byDirect[a] == p
  }

  function IndexedTo(udp: Udp, p: NodeId, a: Addr): Happening {
    (s: Inner, step: Step) => step.PongIn? && step.peer == p && step.from == a && Accepts(udp, s, p, step.nonce)
  }

  /** Another peer proves the address, or any peer proved at it loses that proof. */
  function Unindexed(udp: Udp, p: NodeId, a: Addr): Happening {
    (s: Inner, step: Step) =>
      match step
      case PongIn(q, nonce, from, _) => q != p && from == a && Accepts(udp, s, q, nonce)
      case Begin(q) => SentTo(s, q, a)
      case Drop(q, session) => SentTo(s, q, a) && IsLive(s, q, session)
      case _ => false
  }

  lemma IndexStep(udp: Udp, s: Inner, step: Step, p: NodeId, a: Addr)
    ensures AcceptedFrom(p, a)(Apply(udp, s, step)) <==>
      IndexedTo(udp, p, a)(s, step) || (AcceptedFrom(p, a)(s) && !Unindexed(udp, p, a)(s, step))
  {
  }

  /** Datagrams from `a` are taken for `p`'s exactly when `p` proved it last and no peer proved at it lost its proof since. */
  lemma AttributesExactly(udp: Udp, states: seq<Inner>, steps: seq<Step>, j: nat, p: NodeId, a: Addr)
    requires IsRun(udp, states, steps) && j <= |steps|
    ensures a in states[j].byDirect && states[j].byDirect[a] == p <==>
      Since(When(states, steps, IndexedTo(udp, p, a)), When(states, steps, Unindexed(udp, p, a)), j)
  {
    forall s, step ensures AcceptedFrom(p, a)(Apply(udp, s, step)) <==>
      IndexedTo(udp, p, a)(s, step) || (AcceptedFrom(p, a)(s) && !Unindexed(udp, p, a)(s, step))
    {
      IndexStep(udp, s, step, p, a);
    }
    FactIsHistory(udp, states, steps, j, AcceptedFrom(p, a), IndexedTo(udp, p, a), Unindexed(udp, p, a));
  }

  // ---------------------------------------------------------------------
  // Keys, sessions and candidate lists
  // ---------------------------------------------------------------------

  function HasKey(p: NodeId, id: KeyId, key: Key): Fact {
    (s: Inner) => PeerOf(s, p).probeKey == Some((id, key))
  }

  function KeyGiven(p: NodeId, id: KeyId, key: Key): Happening {
    (s: Inner, step: Step) => step == AddKey(p, id, key)
  }

  /** The peer gets another key, or the one its key id is indexed for is forgotten. */
  function KeyTaken(p: NodeId, id: KeyId): Happening {
    (s: Inner, step: Step) =>
      (step.AddKey? && step.peer == p) || (step == RemoveKey(id) && id in s.byKeyId && s.byKeyId[id] == p)
  }

  lemma KeyStep(udp: Udp, s: Inner, step: Step, p: NodeId, id: KeyId, key: Key)
    ensures HasKey(p, id, key)(Apply(udp, s, step)) <==>
      KeyGiven(p, id, key)(s, step) || (HasKey(p, id, key)(s) && !KeyTaken(p, id)(s, step))
  {
    EntryStep(udp, s, step, p);
  }

  /** A peer's probe key is the last one given to it, until it is forgotten; a new session does not take it away. */
  lemma KeyIsLastGiven(udp: Udp, states: seq<Inner>, steps: seq<Step>, j: nat, p: NodeId, id: KeyId, key: Key)
    requires IsRun(udp, states, steps) && j <= |steps|
    ensures PeerOf(states[j], p).probeKey == Some((id, key)) <==>
      Since(When(states, steps, KeyGiven(p, id, key)), When(states, steps, KeyTaken(p, id)), j)
  {
    forall s, step ensures HasKey(p, id, key)(Apply(udp, s, step)) <==>
      KeyGiven(p, id, key)(s, step) || (HasKey(p, id, key)(s) && !KeyTaken(p, id)(s, step))
    {
      KeyStep(udp, s, step, p, id, key);
    }
    FactIsHistory(udp, states, steps, j, HasKey(p, id, key), KeyGiven(p, id, key), KeyTaken(p, id));
    assert PeerOf(states[j], p).probeKey == Some((id, key)) <==> HasKey(p, id, key)(states[j]);
  }

  function LiveFact(p: NodeId, id: SessionId): Fact {
    (s: Inner) => IsLive(s, p, id)
  }

  function Began(p: NodeId, id: SessionId): Happening {
    (s: Inner, step: Step) => step == Begin(p) && s.nextSession == id
  }

  function Over(p: NodeId, id: SessionId): Happening {
    (s: Inner, step: Step) => step == Begin(p) || step == End(p, id)
  }

  lemma LiveStep(udp: Udp, s: Inner, step: Step, p: NodeId, id: SessionId)
    ensures LiveFact(p, id)(Apply(udp, s, step)) <==>
      Began(p, id)(s, step) || (LiveFact(p, id)(s) && !Over(p, id)(s, step))
  {
  }

  /** A session is live exactly from its beginning until it ends or another one with its peer begins. */
  lemma LiveExactly(udp: Udp, states: seq<Inner>, steps: seq<Step>, j: nat, p: NodeId, id: SessionId)
    requires IsRun(udp, states, steps) && j <= |steps|
    ensures IsLive(states[j], p, id) <==> Since(When(states, steps, Began(p, id)), When(states, steps, Over(p, id)), j)
  {
    forall s, step ensures LiveFact(p, id)(Apply(udp, s, step)) <==>
      Began(p, id)(s, step) || (LiveFact(p, id)(s) && !Over(p, id)(s, step))
    {
      LiveStep(udp, s, step, p, id);
    }
    FactIsHistory(udp, states, steps, j, LiveFact(p, id), Began(p, id), Over(p, id));
  }

  /** The addresses of a list that a socket of one family can reach, with mapped addresses unmapped. */
  function Reachable(v4: bool, list: seq<Addr>): seq<Addr> {
    Selection.Select(seq(|list|, i requires 0 <= i < |list| => Unmapped(list[i])), (a: Addr) => a.V4? == v4, true)
  }

  lemma {:induction false} UsableIsReachable(udp: Udp, list: seq<Addr>)
    ensures Usable(udp, list) == if udp.Bound? then Reachable(udp.v4, list) else []
  {
    if list != [] {
      var shorter := list[..|list| - 1];
      UsableIsReachable(udp, shorter);
      var all := seq(|list|, i requires 0 <= i < |list| => Unmapped(list[i]));
      assert all[..|list| - 1] == seq(|shorter|, i requires 0 <= i < |shorter| => Unmapped(shorter[i]));
    }
  }

  /** Only an IPv6 address of the form ten zero bytes, two 0xff bytes and an IPv4 address is unmapped. */
  lemma UnmappedMeaning(a: Addr)
    ensures Unmapped(a) ==
      if a.V6? && (forall i | 0 <= i < 10 :: a.ip6[i] == 0) && a.ip6[10] == 255 && a.ip6[11] == 255
      then V4(a.ip6[12..], a.port) else a
  {
    if a.V6? {
      var head := a.ip6[..12];
      assert forall i | 0 <= i < 12 :: head[i] == a.ip6[i];
      if (forall i | 0 <= i < 10 :: a.ip6[i] == 0) && a.ip6[10] == 255 && a.ip6[11] == 255 {
        assert head == MAPPED_PREFIX;
      }
    }
  }

  function Listed(p: NodeId, list: seq<Addr>): Happening {
    (s: Inner, step: Step) => step == Candidates(p, list)
  }

  function ListReplaced(p: NodeId): Happening {
    (s: Inner, step: Step) => step == Begin(p) || (step.Candidates? && step.peer == p)
  }

  ghost predicate LastList(states: seq<Inner>, steps: seq<Step>, j: nat, p: NodeId, list: seq<Addr>) {
    Since(When(states, steps, Listed(p, list)), When(states, steps, ListReplaced(p)), j)
  }

  lemma CandidatesStep(udp: Udp, s: Inner, step: Step, p: NodeId)
    ensures PeerOf(Apply(udp, s, step), p).candidates
         == if step == Begin(p) then []
            else if step.Candidates? && step.peer == p then Usable(udp, step.candidates)
            else PeerOf(s, p).candidates
  {
    EntryStep(udp, s, step, p);
  }

  /** A peer's candidates are the reachable addresses of the last list it sent in this session; none before the first. */
  lemma {:induction false} CandidatesAreLastList(udp: Udp, states: seq<Inner>, steps: seq<Step>, j: nat, p: NodeId)
    requires IsRun(udp, states, steps) && j <= |steps|
    ensures forall list | LastList(states, steps, j, p, list) :: PeerOf(states[j], p).candidates == Usable(udp, list)
    ensures (forall list :: !LastList(states, steps, j, p, list)) ==> PeerOf(states[j], p).candidates == []
  {
    if j > 0 {
      CandidatesAreLastList(udp, states, steps, j - 1, p);
      assert StepAt(udp, states, steps, j - 1);
      CandidatesStep(udp, states[j - 1], steps[j - 1], p);
      forall list ensures LastList(states, steps, j, p, list) <==>
        Listed(p, list)(states[j - 1], steps[j - 1])
        || (LastList(states, steps, j - 1, p, list) && !ListReplaced(p)(states[j - 1], steps[j - 1]))
      {
        SinceStep(When(states, steps, Listed(p, list)), When(states, steps, ListReplaced(p)), j - 1);
      }
      if steps[j - 1].Candidates? && steps[j - 1].peer == p {
        assert LastList(states, steps, j, p, steps[j - 1].candidates);
      }
    }
  }
}
