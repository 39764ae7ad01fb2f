/**
 What every interleaving of the path socket's lock-protected actions keeps.
 Sessions, the control stream, the direct receive task and the probing loop
 are free to interleave in any order.
 */
module PathRuns {
  import opened Core
  import opened PathState

  datatype Step =
    | RegisterPeer(peer: NodeId)
    | Candidates(peer: NodeId, candidates: seq<Addr>)
    | Drop(peer: NodeId, session: SessionId)
    | Begin(peer: NodeId)
    | End(peer: NodeId, session: SessionId)
    | AddKey(peer: NodeId, id: KeyId, key: Key)
    | RemoveKey(id: KeyId)
    | ForgetPending(peer: NodeId, now: Time)
    | ForgetLearned(peer: NodeId, now: Time)
    | Ping(peer: NodeId, to: Addr, nonce: Nonce, now: Time)
    | PingIn(peer: NodeId, from: Addr, now: Time)
    | PongIn(peer: NodeId, nonce: Nonce, from: Addr, now: Time)

  function Apply(udp: Udp, s: Inner, step: Step): Inner {
    match step
    case RegisterPeer(p) => WithPeer(s, p, PeerOf(s, p))
    case Candidates(p, list) => SetCandidates(udp, s, p, list)
    case Drop(p, session) => DropDirect(s, p, session)
    case Begin(p) => BeginSession(s, p)
    case End(p, session) => EndSession(s, p, session)
    case AddKey(p, id, key) => RegisterKey(s, p, id, key)
    case RemoveKey(id) => UnregisterKey(s, id)
    case ForgetPending(p, now) => PrunePending(s, p, now)
    case ForgetLearned(p, now) => PruneLearned(s, p, now)
    case Ping(p, to, nonce, now) => SendPing(udp, s, p, to, nonce, now)
    case PingIn(p, from, now) => GotPing(udp, s, p, from, now)
    case PongIn(p, nonce, from, now) => GotPong(udp, s, p, nonce, from, now)
  }

  ghost predicate StepAt(udp: Udp, states: seq<Inner>, steps: seq<Step>, k: nat)
    requires k < |steps| && |states| == |steps| + 1
  {
    states[k + 1] == Apply(udp, states[k], steps[k])
  }

  ghost predicate IsRun(udp: Udp, states: seq<Inner>, steps: seq<Step>) {
    && |states| == |steps| + 1 && states[0] == EMPTY
    && forall k | 0 <= k < |steps| :: StepAt(udp, states, steps, k)
  }

  lemma RunSnoc(udp: Udp, states: seq<Inner>, steps: seq<Step>, step: Step)
    requires IsRun(udp, states, steps)
    ensures IsRun(udp, states + [Apply(udp, states[|steps|], step)], steps + [step])
  {
    var states', steps' := states + [Apply(udp, states[|steps|], step)], steps + [step];
    forall k | 0 <= k < |steps'| ensures StepAt(udp, states', steps', k) {
      if k < |steps| {
        assert StepAt(udp, states, steps, k);
      }
    }
  }

  // ---------------------------------------------------------------------
  // Where a proof comes from
  // ---------------------------------------------------------------------

  /** Step `k` issued `nonce` to peer `p`. */
  predicate Issues(udp: Udp, states: seq<Inner>, steps: seq<Step>, k: nat, p: NodeId, nonce: Nonce)
    requires k < |steps| && |states| == |steps| + 1
  {
    steps[k].Ping? && steps[k].peer == p && steps[k].nonce == nonce && CanPing(udp, states[k], p)
  }

  /** Step `k` proved `from` for peer `p` by consuming `nonce`. */
  predicate Proves(udp: Udp, states: seq<Inner>, steps: seq<Step>, k: nat, p: NodeId, nonce: Nonce, proven: Proven)
    requires k < |steps| && |states| == |steps| + 1
  {
    steps[k] == PongIn(p, nonce, proven.addr, proven.provedAt) && Accepts(udp, states[k], p, nonce)
  }

  predicate BeginsAt(steps: seq<Step>, k: nat, p: NodeId)
    requires k < |steps|
  {
    steps[k].Begin? && steps[k].peer == p
  }

  /** No session with `p` began after step `k` and before state `i`. */
  ghost predicate SameSession(steps: seq<Step>, k: nat, i: nat, p: NodeId)
    requires i <= |steps|
  {
    forall m | k < m < i :: !BeginsAt(steps, m, p)
  }

  /** The nonce is outstanding because this side issued it within the current session. */
  ghost predicate FromOwnPing(udp: Udp, states: seq<Inner>, steps: seq<Step>, i: nat, p: NodeId, nonce: Nonce)
    requires i <= |steps| && |states| == |steps| + 1
  {
    exists k :: 0 <= k < i && Issues(udp, states, steps, k, p, nonce) && SameSession(steps, k, i, p)
  }

  /** The proof was made by a pong that consumed such a nonce, within the current session. */
  ghost predicate FromOwnPong(udp: Udp, states: seq<Inner>, steps: seq<Step>, i: nat, p: NodeId, proven: Proven)
    requires i <= |steps| && |states| == |steps| + 1
  {
    exists j, nonce :: 0 <= j < i && Proves(udp, states, steps, j, p, nonce, proven) && SameSession(steps, j, i, p)
                       && FromOwnPing(udp, states, steps, j, p, nonce)
  }

  ghost predicate OnceProved(udp: Udp, states: seq<Inner>, steps: seq<Step>, i: nat, p: NodeId, a: Addr)
    requires i <= |steps| && |states| == |steps| + 1
  {
    exists j, nonce, t :: 0 <= j < i && Proves(udp, states, steps, j, p, nonce, Proven(a, t))
  }

  ghost predicate PendingInv(udp: Udp, states: seq<Inner>, steps: seq<Step>, i: nat)
    requires i <= |steps| && |states| == |steps| + 1
  {
    forall p, n | p in states[i].peers && n in states[i].peers[p].pending :: FromOwnPing(udp, states, steps, i, p, n)
  }

  ghost predicate ProofInv(udp: Udp, states: seq<Inner>, steps: seq<Step>, i: nat)
    requires i <= |steps| && |states| == |steps| + 1
  {
    forall p | p in states[i].peers && states[i].peers[p].direct.Some? ::
      FromOwnPong(udp, states, steps, i, p, states[i].peers[p].direct.value)
  }

  ghost predicate IndexInv(udp: Udp, states: seq<Inner>, steps: seq<Step>, i: nat)
    requires i <= |steps| && |states| == |steps| + 1
  {
    forall a | a in states[i].byDirect :: OnceProved(udp, states, steps, i, states[i].byDirect[a], a)
  }

  lemma OwnPingLasts(udp: Udp, states: seq<Inner>, steps: seq<Step>, i: nat, p: NodeId, nonce: Nonce)
    requires i < |steps| && |states| == |steps| + 1
    requires FromOwnPing(udp, states, steps, i, p, nonce) && !BeginsAt(steps, i, p)
    ensures FromOwnPing(udp, states, steps, i + 1, p, nonce)
  {
    var k :| 0 <= k < i && Issues(udp, states, steps, k, p, nonce) && SameSession(steps, k, i, p);
    assert SameSession(steps, k, i + 1, p);
  }

  lemma OwnPongLasts(udp: Udp, states: seq<Inner>, steps: seq<Step>, i: nat, p: NodeId, proven: Proven)
    requires i < |steps| && |states| == |steps| + 1
    requires FromOwnPong(udp, states, steps, i, p, proven) && !BeginsAt(steps, i, p)
    ensures FromOwnPong(udp, states, steps, i + 1, p, proven)
  {
    var j, nonce :| 0 <= j < i && Proves(udp, states, steps, j, p, nonce, proven) && SameSession(steps, j, i, p)
                    && FromOwnPing(udp, states, steps, j, p, nonce);
    assert SameSession(steps, j, i + 1, p);
  }

  /** A nonce is outstanding after a step only if it was before, or the step issued it. */
  lemma PendingSource(udp: Udp, s: Inner, step: Step, p: NodeId, n: Nonce)
    requires var s' := Apply(udp, s, step); p in s'.peers && n in s'.peers[p].pending
    ensures || (p in s.peers && n in s.peers[p].pending && !(step.Begin? && step.peer == p))
            || (step.Ping? && step.peer == p && step.nonce == n && CanPing(udp, s, p))
  {
  }

  /** A proof stands after a step only if it stood before, or the step accepted its pong. */
  lemma ProofSource(udp: Udp, s: Inner, step: Step, p: NodeId)
    requires var s' := Apply(udp, s, step); p in s'.peers && s'.peers[p].direct.Some?
    ensures var proven := Apply(udp, s, step).peers[p].direct.value;
            || (p in s.peers && s.peers[p].direct == Some(proven) && !(step.Begin? && step.peer == p))
            || (step.PongIn? && step == PongIn(p, step.nonce, proven.addr, proven.provedAt) && Accepts(udp, s, p, step.nonce))
  {
  }

  lemma IndexSource(udp: Udp, s: Inner, step: Step, a: Addr)
    requires a in Apply(udp, s, step).byDirect
    ensures var p := Apply(udp, s, step).byDirect[a];
            || (a in s.byDirect && s.byDirect[a] == p)
            || (step.PongIn? && step.peer == p && step.from == a && Accepts(udp, s, p, step.nonce))
  {
  }

  lemma {:induction false} PendingHolds(udp: Udp, states: seq<Inner>, steps: seq<Step>, i: nat)
    requires IsRun(udp, states, steps) && i <= |steps|
    ensures PendingInv(udp, states, steps, i)
  {
    if i > 0 {
      PendingHolds(udp, states, steps, i - 1);
      assert StepAt(udp, states, steps, i - 1);
      forall p, n | p in states[i].peers && n in states[i].peers[p].pending ensures FromOwnPing(udp, states, steps, i, p, n) {
        PendingSource(udp, states[i - 1], steps[i - 1], p, n);
        if Issues(udp, states, steps, i - 1, p, n) {
          assert SameSession(steps, i - 1, i, p);
        } else {
          OwnPingLasts(udp, states, steps, i - 1, p, n);
        }
      }
    }
  }

  lemma {:induction false} ProofHolds(udp: Udp, states: seq<Inner>, steps: seq<Step>, i: nat)
    requires IsRun(udp, states, steps) && i <= |steps|
    ensures ProofInv(udp, states, steps, i)
  {
    if i > 0 {
      ProofHolds(udp, states, steps, i - 1);
      PendingHolds(udp, states, steps, i - 1);
      assert StepAt(udp, states, steps, i - 1);
      forall p | p in states[i].peers && states[i].peers[p].direct.Some?
        ensures FromOwnPong(udp, states, steps, i, p, states[i].peers[p].direct.value)
      {
        var proven, step := states[i].peers[p].direct.value, steps[i - 1];
        ProofSource(udp, states[i - 1], step, p);
        if step.PongIn? && Proves(udp, states, steps, i - 1, p, step.nonce, proven) {
          assert FromOwnPing(udp, states, steps, i - 1, p, step.nonce);
          assert SameSession(steps, i - 1, i, p);
        } else {
          OwnPongLasts(udp, states, steps, i - 1, p, proven);
        }
      }
    }
  }

  lemma {:induction false} IndexHolds(udp: Udp, states: seq<Inner>, steps: seq<Step>, i: nat)
    requires IsRun(udp, states, steps) && i <= |steps|
    ensures IndexInv(udp, states, steps, i)
  {
    if i > 0 {
      IndexHolds(udp, states, steps, i - 1);
      assert StepAt(udp, states, steps, i - 1);
      forall a | a in states[i].byDirect ensures OnceProved(udp, states, steps, i, states[i].byDirect[a], a) {
        var p, step := states[i].byDirect[a], steps[i - 1];
        IndexSource(udp, states[i - 1], step, a);
        if step.PongIn? && step.peer == p && step.from == a && Accepts(udp, states[i - 1], p, step.nonce) {
          assert Proves(udp, states, steps, i - 1, p, step.nonce, Proven(a, step.now));
        } else {
          var j, nonce, t :| 0 <= j < i - 1 && Proves(udp, states, steps, j, p, nonce, Proven(a, t));
        }
      }
    }
  }

  /**
   Direct-proof soundness.  In every run a peer's proof was made by a pong that
   consumed a nonce this side had issued to that very peer, both within the
   peer's current session; and any address whose datagrams are attributed to a
   peer was once so proved for that peer.
   */
  lemma DirectProofsAreSound(udp: Udp, states: seq<Inner>, steps: seq<Step>, i: nat)
    requires IsRun(udp, states, steps) && i < |states|
    ensures forall p | p in states[i].peers && states[i].peers[p].direct.Some? ::
              FromOwnPong(udp, states, steps, i, p, states[i].peers[p].direct.value)
    ensures forall a | a in states[i].byDirect :: OnceProved(udp, states, steps, i, states[i].byDirect[a], a)
  {
    ProofHolds(udp, states, steps, i);
    IndexHolds(udp, states, steps, i);
  }

  // ---------------------------------------------------------------------
  // A nonce proves at most once per issue
  // ---------------------------------------------------------------------

  ghost function IssueCount(udp: Udp, states: seq<Inner>, steps: seq<Step>, i: nat, p: NodeId, n: Nonce): nat
    requires i <= |steps| && |states| == |steps| + 1
  {
    if i == 0 then 0
    else IssueCount(udp, states, steps, i - 1, p, n) + if Issues(udp, states, steps, i - 1, p, n) then 1 else 0
  }

  ghost function ProofCount(udp: Udp, states: seq<Inner>, steps: seq<Step>, i: nat, p: NodeId, n: Nonce): nat
    requires i <= |steps| && |states| == |steps| + 1
  {
    if i == 0 then 0
    else
      var step := steps[i - 1];
      ProofCount(udp, states, steps, i - 1, p, n)
      + if step.PongIn? && step.peer == p && step.nonce == n && Accepts(udp, states[i - 1], p, n) then 1 else 0
  }

  function Outstanding(s: Inner, p: NodeId, n: Nonce): nat {
    if p in s.peers && n in s.peers[p].pending then 1 else 0
  }

  lemma OutstandingStep(udp: Udp, s: Inner, step: Step, p: NodeId, n: Nonce)
    ensures var s' := Apply(udp, s, step);
            var issued := if step.Ping? && step.peer == p && step.nonce == n && CanPing(udp, s, p) then 1 else 0;
            var proved := if step.PongIn? && step.peer == p && step.nonce == n && Accepts(udp, s, p, n) then 1 else 0;
            Outstanding(s', p, n) + proved <= Outstanding(s, p, n) + issued
  {
  }

  /** No nonce proves more often than it was issued, so a nonce drawn once proves at most once. */
  lemma {:induction false} ProofsNeedIssues(udp: Udp, states: seq<Inner>, steps: seq<Step>, i: nat, p: NodeId, n: Nonce)
    requires IsRun(udp, states, steps) && i <= |steps|
    ensures ProofCount(udp, states, steps, i, p, n) + Outstanding(states[i], p, n) <= IssueCount(udp, states, steps, i, p, n)
  {
    if i > 0 {
      ProofsNeedIssues(udp, states, steps, i - 1, p, n);
      assert StepAt(udp, states, steps, i - 1);
      OutstandingStep(udp, states[i - 1], steps[i - 1], p, n);
    }
  }

  // ---------------------------------------------------------------------
  // Expiry
  // ---------------------------------------------------------------------

  /** The nonce was issued at time `t` within the current session, after step `j` or less than the timeout before `now`. */
  ghost predicate TimelyPing(udp: Udp, states: seq<Inner>, steps: seq<Step>, j: nat, now: Time,
                             i: nat, p: NodeId, nonce: Nonce, t: Time)
    requires i <= |steps| && |states| == |steps| + 1
  {
    exists k :: 0 <= k < i && Issues(udp, states, steps, k, p, nonce) && SameSession(steps, k, i, p)
                && steps[k].now == t && (k > j || now - t < PROBE_TIMEOUT)
  }

  lemma TimelyPingLasts(udp: Udp, states: seq<Inner>, steps: seq<Step>, j: nat, now: Time,
                        i: nat, p: NodeId, nonce: Nonce, t: Time)
    requires i < |steps| && |states| == |steps| + 1
    requires TimelyPing(udp, states, steps, j, now, i, p, nonce, t) && !BeginsAt(steps, i, p)
    ensures TimelyPing(udp, states, steps, j, now, i + 1, p, nonce, t)
  {
    var k :| 0 <= k < i && Issues(udp, states, steps, k, p, nonce) && SameSession(steps, k, i, p)
             && steps[k].now == t && (k > j || now - t < PROBE_TIMEOUT);
    assert SameSession(steps, k, i + 1, p);
  }

  /** An outstanding nonce keeps the time it was issued at. */
  lemma PendingTime(udp: Udp, s: Inner, step: Step, p: NodeId, n: Nonce)
    requires var s' := Apply(udp, s, step); p in s'.peers && n in s'.peers[p].pending
    ensures var t := Apply(udp, s, step).peers[p].pending[n].1;
            || (p in s.peers && n in s.peers[p].pending && s.peers[p].pending[n].1 == t && !(step.Begin? && step.peer == p))
            || (step.Ping? && step.peer == p && step.nonce == n && step.now == t && CanPing(udp, s, p))
    ensures step.ForgetPending? && step.peer == p ==> step.now - Apply(udp, s, step).peers[p].pending[n].1 < PROBE_TIMEOUT
  {
  }

  /** What is outstanding after the stale probes were forgotten at step `j` was issued since, or was not stale. */
  lemma {:induction false} PendingIsTimely(udp: Udp, states: seq<Inner>, steps: seq<Step>, j: nat, now: Time,
                                           i: nat, p: NodeId, n: Nonce)
    requires IsRun(udp, states, steps) && i <= |steps| && j < i && steps[j] == ForgetPending(p, now)
    requires p in states[i].peers && n in states[i].peers[p].pending
    ensures TimelyPing(udp, states, steps, j, now, i, p, n, states[i].peers[p].pending[n].1)
    decreases i
  {
    assert StepAt(udp, states, steps, i - 1);
    PendingTime(udp, states[i - 1], steps[i - 1], p, n);
    var t := states[i].peers[p].pending[n].1;
    if Issues(udp, states, steps, i - 1, p, n) && steps[i - 1].now == t {
      assert SameSession(steps, i - 1, i, p);
    } else if i - 1 > j {
      PendingIsTimely(udp, states, steps, j, now, i - 1, p, n);
      TimelyPingLasts(udp, states, steps, j, now, i - 1, p, n, t);
    } else {
      PendingHasTime(udp, states, steps, i - 1, p, n);
      var k :| IssuedAt(udp, states, steps, i - 1, p, n, t, k);
      assert SameSession(steps, k, i, p);
    }
  }

  ghost predicate IssuedAt(udp: Udp, states: seq<Inner>, steps: seq<Step>, i: nat, p: NodeId, n: Nonce, t: Time, k: nat)
    requires i <= |steps| && |states| == |steps| + 1
  {
    k < i && Issues(udp, states, steps, k, p, n) && SameSession(steps, k, i, p) && steps[k].now == t
  }

  lemma {:induction false} PendingHasTime(udp: Udp, states: seq<Inner>, steps: seq<Step>, i: nat, p: NodeId, n: Nonce)
    requires IsRun(udp, states, steps) && i <= |steps|
    requires p in states[i].peers && n in states[i].peers[p].pending
    ensures exists k :: IssuedAt(udp, states, steps, i, p, n, states[i].peers[p].pending[n].1, k)
  {
    assert i > 0;
    assert StepAt(udp, states, steps, i - 1);
    PendingTime(udp, states[i - 1], steps[i - 1], p, n);
    var t := states[i].peers[p].pending[n].1;
    if Issues(udp, states, steps, i - 1, p, n) && steps[i - 1].now == t {
      assert IssuedAt(udp, states, steps, i, p, n, t, i - 1);
    } else {
      PendingHasTime(udp, states, steps, i - 1, p, n);
      var k :| IssuedAt(udp, states, steps, i - 1, p, n, t, k);
      assert IssuedAt(udp, states, steps, i, p, n, t, k);
    }
  }

  /**
   A forgotten probe never proves.  Once a probing round has forgotten the
   stale probes of a peer at `now`, any later proof of that peer consumes a
   nonce issued after that, or less than five seconds before `now`.
   */
  lemma ForgottenProbeNeverProves(udp: Udp, states: seq<Inner>, steps: seq<Step>, j: nat, now: Time,
                                  k: nat, p: NodeId, n: Nonce, proven: Proven)
    requires IsRun(udp, states, steps) && j < k < |steps| && steps[j] == ForgetPending(p, now)
    requires Proves(udp, states, steps, k, p, n, proven)
    ensures exists m :: 0 <= m < k && Issues(udp, states, steps, m, p, n) && SameSession(steps, m, k, p)
                        && (m > j || now - steps[m].now < PROBE_TIMEOUT)
  {
    PendingIsTimely(udp, states, steps, j, now, k, p, n);
    var t := states[k].peers[p].pending[n].1;
    var m :| 0 <= m < k && Issues(udp, states, steps, m, p, n) && SameSession(steps, m, k, p)
             && steps[m].now == t && (m > j || now - t < PROBE_TIMEOUT);
  }

  /** A ping from `a` at time `t` arrived at step `k`, within the session current in state `i`. */
  ghost predicate HeardAt(steps: seq<Step>, i: nat, p: NodeId, a: Addr, t: Time, k: nat)
    requires i <= |steps|
  {
    k < i && steps[k] == PingIn(p, a, t) && SameSession(steps, k, i, p)
  }

  lemma LearnedSource(udp: Udp, s: Inner, step: Step, p: NodeId, a: Addr)
    requires var s' := Apply(udp, s, step); p in s'.peers && a in s'.peers[p].learned
    ensures var t := Apply(udp, s, step).peers[p].learned[a];
            || (p in s.peers && a in s.peers[p].learned && s.peers[p].learned[a] == t && !(step.Begin? && step.peer == p))
            || step == PingIn(p, a, t)
  {
  }

  lemma {:induction false} LearnedWasHeard(udp: Udp, states: seq<Inner>, steps: seq<Step>, i: nat, p: NodeId, a: Addr)
    requires IsRun(udp, states, steps) && i <= |steps|
    requires p in states[i].peers && a in states[i].peers[p].learned
    ensures exists k :: HeardAt(steps, i, p, a, states[i].peers[p].learned[a], k)
  {
    assert i > 0;
    assert StepAt(udp, states, steps, i - 1);
    LearnedSource(udp, states[i - 1], steps[i - 1], p, a);
    var t := states[i].peers[p].learned[a];
    if steps[i - 1] == PingIn(p, a, t) {
      assert HeardAt(steps, i, p, a, t, i - 1);
    } else {
      LearnedWasHeard(udp, states, steps, i - 1, p, a);
      var k :| HeardAt(steps, i - 1, p, a, t, k);
      assert HeardAt(steps, i, p, a, t, k);
    }
  }

  /** A probing round at `now` pings `a`. */
  predicate Target(s: Inner, p: NodeId, now: Time, a: Addr) {
    a in PeerOf(s, p).candidates || a in FreshLearned(PeerOf(s, p).learned, now)
  }

  /** A ping from `a` arrived in the current session less than ten seconds before `now`. */
  ghost predicate HeardRecently(steps: seq<Step>, i: nat, p: NodeId, a: Addr, now: Time)
    requires i <= |steps|
  {
    exists k, t :: HeardAt(steps, i, p, a, t, k) && now - t < LEARNED_TTL
  }

  /** A round probes an address the peer did not list only within ten seconds of a ping from it. */
  lemma ProbedOnlyWhileHeard(udp: Udp, states: seq<Inner>, steps: seq<Step>, i: nat, p: NodeId, now: Time, a: Addr)
    requires IsRun(udp, states, steps) && i <= |steps| && Target(states[i], p, now, a)
    ensures a in PeerOf(states[i], p).candidates || HeardRecently(steps, i, p, a, now)
  {
    if a !in PeerOf(states[i], p).candidates {
      LearnedWasHeard(udp, states, steps, i, p, a);
    }
  }

  // ---------------------------------------------------------------------
  // Candidate lists
  // ---------------------------------------------------------------------

  ghost function ListsReceived(steps: seq<Step>, i: nat, p: NodeId): nat
    requires i <= |steps|
  {
    if i == 0 then 0
    else ListsReceived(steps, i - 1, p) + if steps[i - 1].Candidates? && steps[i - 1].peer == p then 1 else 0
  }

  /** A peer's counter is the number of lists it sent, modulo 2^32, over all of its sessions. */
  lemma {:induction false} UpdatesCountLists(udp: Udp, states: seq<Inner>, steps: seq<Step>, i: nat, p: NodeId)
    requires IsRun(udp, states, steps) && i <= |steps|
    ensures PeerOf(states[i], p).updates == ListsReceived(steps, i, p) % U32_LIMIT
  {
    if i > 0 {
      UpdatesCountLists(udp, states, steps, i - 1, p);
      assert StepAt(udp, states, steps, i - 1);
      UpdatesStep(udp, states[i - 1], steps[i - 1], p);
    }
  }

  lemma UpdatesStep(udp: Udp, s: Inner, step: Step, p: NodeId)
    ensures PeerOf(Apply(udp, s, step), p).updates
         == if step.Candidates? && step.peer == p then (PeerOf(s, p).updates + 1) % U32_LIMIT else PeerOf(s, p).updates
  {
  }

  // ---------------------------------------------------------------------
  // Relay-only
  // ---------------------------------------------------------------------

  ghost predicate NothingDirect(s: Inner) {
    && s.byDirect == map[]
    && forall p | p in s.peers ::
         s.peers[p].candidates == [] && s.peers[p].pending == map[] && s.peers[p].learned == map[] && s.peers[p].direct.None?
  }

  lemma RelayOnlyProbeStep(s: Inner, step: Step)
    requires NothingDirect(s) && (step.Ping? || step.PingIn? || step.PongIn? || step.ForgetPending? || step.ForgetLearned?)
    ensures NothingDirect(Apply(RelayOnly, s, step))
  {
  }

  lemma RelayOnlyStep(s: Inner, step: Step)
    requires NothingDirect(s)
    ensures NothingDirect(Apply(RelayOnly, s, step))
  {
    match step
    case Ping(_, _, _, _) => RelayOnlyProbeStep(s, step);
    case PingIn(_, _, _) => RelayOnlyProbeStep(s, step);
    case PongIn(_, _, _, _) => RelayOnlyProbeStep(s, step);
    case ForgetPending(_, _) => RelayOnlyProbeStep(s, step);
    case ForgetLearned(_, _) => RelayOnlyProbeStep(s, step);
    case Candidates(_, list) => assert Usable(RelayOnly, list) == [];
    case _ =>
  }

  /** A relay-only instance never holds a candidate, an outstanding probe, a learnt address or a proof, and never sends direct. */
  lemma {:induction false} RelayOnlyIsNeverDirect(states: seq<Inner>, steps: seq<Step>, i: nat)
    requires IsRun(RelayOnly, states, steps) && i < |states|
    ensures NothingDirect(states[i])
    ensures forall p, now :: Route(RelayOnly, states[i], p, now).None?
  {
    if i > 0 {
      RelayOnlyIsNeverDirect(states, steps, i - 1);
      assert StepAt(RelayOnly, states, steps, i - 1);
      RelayOnlyStep(states[i - 1], steps[i - 1]);
    }
  }

  // ---------------------------------------------------------------------
  // The two directions of the direct index
  // ---------------------------------------------------------------------

  predicate SentTo(s: Inner, p: NodeId, a: Addr) {
    p in s.peers && s.peers[p].direct.Some? && s.peers[p].direct.value.addr == a
  }

  /** Every address a peer is sent to is one its datagrams are accepted from. */
  ghost predicate TwoWay(s: Inner) {
    forall p, a | SentTo(s, p, a) :: a in s.byDirect && s.byDirect[a] == p
  }

  /** The step accepts a pong from an address that another peer's proof already names. */
  ghost predicate Steals(udp: Udp, s: Inner, step: Step) {
    step.PongIn? && Accepts(udp, s, step.peer, step.nonce) && exists p :: p != step.peer && SentTo(s, p, step.from)
  }

  lemma StealingBreaksTwoWay(udp: Udp, s: Inner, step: Step)
    requires Steals(udp, s, step)
    ensures !TwoWay(Apply(udp, s, step))
  {
    var p :| p != step.peer && SentTo(s, p, step.from);
    assert SentTo(Apply(udp, s, step), p, step.from);
  }

  lemma PongKeepsTwoWay(udp: Udp, s: Inner, step: Step)
    requires TwoWay(s) && step.PongIn? && !Steals(udp, s, step)
    ensures TwoWay(Apply(udp, s, step))
  {
    var s' := Apply(udp, s, step);
    forall p, a | SentTo(s', p, a) ensures a in s'.byDirect && s'.byDirect[a] == p {
      if p != step.peer || !Accepts(udp, s, step.peer, step.nonce) {
        assert SentTo(s, p, a);
      }
    }
  }

  lemma OthersKeepTwoWay(udp: Udp, s: Inner, step: Step)
    requires TwoWay(s) && !step.PongIn?
    ensures TwoWay(Apply(udp, s, step))
  {
    var s' := Apply(udp, s, step);
    forall p, a | SentTo(s', p, a) ensures a in s'.byDirect && s'.byDirect[a] == p {
      ProofSource(udp, s, step, p);
      assert SentTo(s, p, a);
      if step.Begin? || step.Drop? {
        assert step.peer != p || s' == s;
        if step.peer in s.peers && s.peers[step.peer].direct.Some? {
          assert SentTo(s, step.peer, s.peers[step.peer].direct.value.addr);
        }
      }
    }
  }

  ghost predicate StealsAt(udp: Udp, states: seq<Inner>, steps: seq<Step>, k: nat)
    requires k < |steps| && |states| == |steps| + 1
  {
    Steals(udp, states[k], steps[k])
  }

  /**
   Direct paths work in both directions throughout a run if and only if no
   accepted pong of that run comes from an address another peer is proved at.
   */
  lemma {:induction false} TwoWayUnlessStolen(udp: Udp, states: seq<Inner>, steps: seq<Step>, i: nat)
    requires IsRun(udp, states, steps) && i <= |steps|
    ensures (forall k | 0 <= k <= i :: TwoWay(states[k])) <==> (forall k | 0 <= k < i :: !StealsAt(udp, states, steps, k))
  {
    if i > 0 {
      TwoWayUnlessStolen(udp, states, steps, i - 1);
      assert StepAt(udp, states, steps, i - 1);
      var s, step := states[i - 1], steps[i - 1];
      if StealsAt(udp, states, steps, i - 1) {
        StealingBreaksTwoWay(udp, s, step);
      } else if TwoWay(s) {
        if step.PongIn? { PongKeepsTwoWay(udp, s, step); } else { OthersKeepTwoWay(udp, s, step); }
      }
    }
  }

  /**
   Two peers behind one address break it: the second proof takes over the
   index entry, and when that peer's proof is dropped the first peer is still
   sent to the address while its datagrams from there are no longer accepted.
   */
  lemma SharedAddressBreaksTwoWay(udp: Udp, s: Inner, p: NodeId, q: NodeId, n: Nonce, from: Addr, now: Time, session: SessionId)
    requires p != q && p in s.peers && s.peers[p].direct == Some(Proven(from, now))
    requires Accepts(udp, s, q, n) && IsLive(s, q, session)
    ensures var after := DropDirect(GotPong(udp, s, q, n, from, now), q, session);
            Route(udp, after, p, now) == Some(from) && from !in after.byDirect
  {
  }

  /** Two peers, each with its own key, are probed at one address and both answer from it. */
  function SharedAddressRun(p: NodeId, q: NodeId, a: Addr, i: KeyId, j: KeyId, key: Key, key': Key, m: Nonce, n: Nonce): seq<Step> {
    [AddKey(p, i, key), AddKey(q, j, key'), Ping(p, a, m, 0), Ping(q, a, n, 0), PongIn(p, m, a, 0), PongIn(q, n, a, 0)]
  }

  /**
   It does happen.  In this run of any instance with a UDP socket each pong
   arrives under a key id that resolves to the peer it proves, and the run ends
   without the two-way property.
   */
  lemma SharedAddressHappens(udp: Udp, p: NodeId, q: NodeId, a: Addr, i: KeyId, j: KeyId, key: Key, key': Key, m: Nonce, n: Nonce)
    returns (states: seq<Inner>)
    requires udp.Bound? && p != q && i != j && key != key' && m != n
    ensures IsRun(udp, states, SharedAddressRun(p, q, a, i, j, key, key', m, n)) && |states| == 7
    ensures ProbeSession(states[4], i) == Some((p, key)) && ProbeSession(states[5], j) == Some((q, key'))
    ensures TwoWay(states[5]) && !TwoWay(states[6])
  {
    var steps := SharedAddressRun(p, q, a, i, j, key, key', m, n);
    var s1 := Apply(udp, EMPTY, steps[0]);
    var s2 := Apply(udp, s1, steps[1]);
    var s3 := Apply(udp, s2, steps[2]);
    var s4 := Apply(udp, s3, steps[3]);
    BothAnswer(udp, s4, p, q, a, i, j, key, key', m, n);
    var s5 := Apply(udp, s4, steps[4]);
    states := [EMPTY, s1, s2, s3, s4, s5, Apply(udp, s5, steps[5])];
  }

  /** Both keys resolve, one probe to each peer is outstanding, and nothing is proved. */
  predicate BothProbed(s: Inner, p: NodeId, q: NodeId, i: KeyId, j: KeyId, key: Key, key': Key, m: Nonce, n: Nonce) {
    && ProbeSession(s, i) == Some((p, key)) && ProbeSession(s, j) == Some((q, key'))
    && m in s.peers[p].pending && n in s.peers[q].pending
    && (forall r | r in s.peers :: s.peers[r].direct.None?)
  }

  lemma BothAnswer(udp: Udp, s: Inner, p: NodeId, q: NodeId, a: Addr, i: KeyId, j: KeyId, key: Key, key': Key, m: Nonce, n: Nonce)
    requires udp.Bound? && p != q && BothProbed(s, p, q, i, j, key, key', m, n)
    ensures var s' := Apply(udp, s, PongIn(p, m, a, 0));
            && ProbeSession(s', j) == Some((q, key')) && TwoWay(s')
            && !TwoWay(Apply(udp, s', PongIn(q, n, a, 0)))
  {
    var s' := Apply(udp, s, PongIn(p, m, a, 0));
    assert SentTo(s', p, a);
    StealingBreaksTwoWay(udp, s', PongIn(q, n, a, 0));
  }

  // ---------------------------------------------------------------------
  // Newest session wins
  // ---------------------------------------------------------------------

  /** What became of each session: its peer, who was told, and who freed the slot itself. */
  datatype Log = Log(peers: seq<NodeId>, told: seq<SessionId>, ended: seq<SessionId>)

  function Logged(log: Log, s: Inner, step: Step): Log {
    match step
    case Begin(p) =>
      Log(log.peers + [p], if p in s.sessions then log.told + [s.sessions[p]] else log.told, log.ended)
    case End(p, session) => if IsLive(s, p, session) then log.(ended := log.ended + [session]) else log
    case _ => log
  }

  ghost function LogOf(states: seq<Inner>, steps: seq<Step>, i: nat): Log
    requires i <= |steps| && |states| == |steps| + 1
  {
    if i == 0 then Log([], [], []) else Logged(LogOf(states, steps, i - 1), states[i - 1], steps[i - 1])
  }

  /** The log of a state does not depend on what happens after it. */
  lemma {:induction false} LogIsHistory(states: seq<Inner>, steps: seq<Step>, states': seq<Inner>, steps': seq<Step>, i: nat)
    requires i <= |steps| && |states| == |steps| + 1 && |states'| == |steps'| + 1
    requires states <= states' && steps <= steps'
    ensures LogOf(states, steps, i) == LogOf(states', steps', i)
  {
    if i > 0 {
      LogIsHistory(states, steps, states', steps', i - 1);
    }
  }

  type Slots = map<NodeId, SessionId>

  function Live(slots: Slots, log: Log, id: SessionId): nat
    requires id < |log.peers|
  {
    if log.peers[id] in slots && slots[log.peers[id]] == id then 1 else 0
  }

  /** A taken slot is held by the newest session begun for its peer. */
  ghost predicate NewestInv(slots: Slots, log: Log) {
    forall p | p in slots ::
      && slots[p] < |log.peers| && log.peers[slots[p]] == p
      && forall id | slots[p] < id < |log.peers| :: log.peers[id] != p
  }

  function Fates(slots: Slots, log: Log, id: SessionId): nat
    requires id < |log.peers|
  {
    Live(slots, log, id) + multiset(log.told)[id] + multiset(log.ended)[id]
  }

  ghost predicate OneFate(slots: Slots, log: Log) {
    && (forall id | 0 <= id < |log.peers| :: Fates(slots, log, id) == 1)
    && (forall id | id in log.told || id in log.ended :: id < |log.peers|)
  }

  ghost predicate SlotInv(slots: Slots, log: Log) {
    NewestInv(slots, log) && OneFate(slots, log)
  }

  lemma Appended(told: seq<SessionId>, id: SessionId)
    ensures forall x :: multiset(told + [id])[x] == multiset(told)[x] + if x == id then 1 else 0
    ensures forall x :: x in told + [id] <==> x in told || x == id
  {
    assert multiset(told + [id]) == multiset(told) + multiset{id};
  }

  function LogBegin(slots: Slots, log: Log, p: NodeId): Log {
    Log(log.peers + [p], if p in slots then log.told + [slots[p]] else log.told, log.ended)
  }

  lemma BeginKeepsFate(slots: Slots, log: Log, p: NodeId, id: SessionId)
    requires SlotInv(slots, log) && id <= |log.peers|
    ensures Fates(slots[p := |log.peers|], LogBegin(slots, log, p), id) == 1
  {
    if p in slots {
      Appended(log.told, slots[p]);
      assert Fates(slots, log, slots[p]) == 1;
    }
    if id < |log.peers| {
      assert Fates(slots, log, id) == 1;
    } else {
      assert id !in log.told && id !in log.ended;
    }
  }

  lemma BeginKeepsSlots(slots: Slots, log: Log, p: NodeId)
    requires SlotInv(slots, log)
    ensures SlotInv(slots[p := |log.peers|], LogBegin(slots, log, p))
  {
    var slots', log' := slots[p := |log.peers|], LogBegin(slots, log, p);
    forall id | 0 <= id < |log'.peers| ensures Fates(slots', log', id) == 1 {
      BeginKeepsFate(slots, log, p, id);
    }
    assert NewestInv(slots', log');
    if p in slots {
      Appended(log.told, slots[p]);
    }
  }

  lemma EndKeepsSlots(slots: Slots, log: Log, p: NodeId)
    requires SlotInv(slots, log) && p in slots
    ensures SlotInv(slots - {p}, log.(ended := log.ended + [slots[p]]))
  {
    Appended(log.ended, slots[p]);
    forall id | 0 <= id < |log.peers| ensures Fates(slots - {p}, log.(ended := log.ended + [slots[p]]), id) == 1 {
      assert Fates(slots, log, id) == 1;
    }
  }

  /** What a step does to the slots, the counter and the log. */
  lemma SlotsStep(udp: Udp, s: Inner, log: Log, step: Step)
    requires s.nextSession == |log.peers|
    ensures var s', log' := Apply(udp, s, step), Logged(log, s, step);
            && s'.nextSession == |log'.peers|
            && match step
               case Begin(p) => s'.sessions == s.sessions[p := |log.peers|] && log' == LogBegin(s.sessions, log, p)
               case End(p, session) =>
                 if IsLive(s, p, session)
                 then s'.sessions == s.sessions - {p} && log' == log.(ended := log.ended + [s.sessions[p]])
                 else s'.sessions == s.sessions && log' == log
               case _ => s'.sessions == s.sessions && log' == log
  {
  }

  lemma {:induction false} SlotsHold(udp: Udp, states: seq<Inner>, steps: seq<Step>, i: nat)
    requires IsRun(udp, states, steps) && i <= |steps|
    ensures states[i].nextSession == |LogOf(states, steps, i).peers|
    ensures SlotInv(states[i].sessions, LogOf(states, steps, i))
  {
    if i > 0 {
      SlotsHold(udp, states, steps, i - 1);
      assert StepAt(udp, states, steps, i - 1);
      var s, log, step := states[i - 1], LogOf(states, steps, i - 1), steps[i - 1];
      SlotsStep(udp, s, log, step);
      match step
      case Begin(p) => BeginKeepsSlots(s.sessions, log, p);
      case End(p, session) => if IsLive(s, p, session) { EndKeepsSlots(s.sessions, log, p); }
      case _ =>
    }
  }

  /**
   Newest wins.  In every run each begun session is in exactly one of three
   conditions: it is the live one, it was told once that it was superseded, or
   it freed its slot itself; and a peer's slot, when taken, is held by the
   newest session begun for that peer.
   */
  lemma NewestSessionWins(udp: Udp, states: seq<Inner>, steps: seq<Step>, i: nat)
    requires IsRun(udp, states, steps) && i < |states|
    ensures var s, log := states[i], LogOf(states, steps, i);
            && s.nextSession == |log.peers|
            && (forall id | 0 <= id < |log.peers| :: Live(s.sessions, log, id) + multiset(log.told)[id] + multiset(log.ended)[id] == 1)
            && (forall p | p in s.sessions ::
                  && s.sessions[p] < |log.peers| && log.peers[s.sessions[p]] == p
                  && forall id | s.sessions[p] < id < |log.peers| :: log.peers[id] != p)
  {
    SlotsHold(udp, states, steps, i);
    var s, log := states[i], LogOf(states, steps, i);
    forall id | 0 <= id < |log.peers| ensures Live(s.sessions, log, id) + multiset(log.told)[id] + multiset(log.ended)[id] == 1 {
      assert Fates(s.sessions, log, id) == 1;
    }
  }

  /** A session that was superseded can neither free the slot nor drop the proof of the one that replaced it. */
  lemma {:induction false} SupersededSessionIsPowerless(udp: Udp, states: seq<Inner>, steps: seq<Step>, i: nat, p: NodeId, id: SessionId)
    requires IsRun(udp, states, steps) && i < |states|
    requires id in LogOf(states, steps, i).told
    ensures Apply(udp, states[i], End(p, id)) == states[i]
    ensures Apply(udp, states[i], Drop(p, id)) == states[i]
  {
    SlotsHold(udp, states, steps, i);
    var s, log := states[i], LogOf(states, steps, i);
    assert multiset(log.told)[id] >= 1;
    assert Fates(s.sessions, log, id) == 1;
    assert Live(s.sessions, log, id) == 0;
    assert !IsLive(s, p, id);
  }

  // ---------------------------------------------------------------------
  // Probe keys
  // ---------------------------------------------------------------------

  /** Every index entry names a peer whose current key has that id. */
  ghost predicate KeysInv(s: Inner) {
    forall id | id in s.byKeyId :: HasKeyId(s, s.byKeyId[id], id)
  }

  lemma KeylessStep(udp: Udp, s: Inner, step: Step)
    requires KeysInv(s) && !step.AddKey? && !step.RemoveKey?
    ensures KeysInv(Apply(udp, s, step))
  {
    var s' := Apply(udp, s, step);
    forall id | id in s'.byKeyId ensures HasKeyId(s', s'.byKeyId[id], id) {
      assert HasKeyId(s, s.byKeyId[id], id);
    }
  }

  lemma KeysStep(udp: Udp, s: Inner, step: Step)
    requires KeysInv(s)
    ensures KeysInv(Apply(udp, s, step))
  {
    if !step.AddKey? && !step.RemoveKey? {
      KeylessStep(udp, s, step);
      return;
    }
    var s' := Apply(udp, s, step);
    forall id | id in s'.byKeyId ensures HasKeyId(s', s'.byKeyId[id], id) {
      if id in s.byKeyId {
        assert HasKeyId(s, s.byKeyId[id], id);
      }
    }
  }

  /**
   In every run, a key id that resolves names a peer whose current key it is,
   and forgetting a key that is not a peer's current one leaves that peer's
   key and its index entry alone.
   */
  lemma {:induction false} KeyIndexIsCurrent(udp: Udp, states: seq<Inner>, steps: seq<Step>, i: nat)
    requires IsRun(udp, states, steps) && i < |states|
    ensures KeysInv(states[i])
    ensures forall id | id in states[i].byKeyId ::
              && ProbeSession(states[i], id).Some?
              && states[i].peers[ProbeSession(states[i], id).value.0].probeKey == Some((id, ProbeSession(states[i], id).value.1))
    ensures forall p, current, other | HasKeyId(states[i], p, current) && other != current ::
              var after := Apply(udp, states[i], RemoveKey(other));
              && after.peers[p] == states[i].peers[p]
              && (current in after.byKeyId <==> current in states[i].byKeyId)
              && (current in after.byKeyId ==> after.byKeyId[current] == states[i].byKeyId[current])
  {
    if i > 0 {
      KeyIndexIsCurrent(udp, states, steps, i - 1);
      assert StepAt(udp, states, steps, i - 1);
      KeysStep(udp, states[i - 1], steps[i - 1]);
    }
  }

  // ---------------------------------------------------------------------
  // Pongs are rate limited
  // ---------------------------------------------------------------------

  /** Step `k` answers a ping that came from `a`. */
  ghost predicate AnswersAt(udp: Udp, states: seq<Inner>, steps: seq<Step>, k: nat, p: NodeId, a: Addr)
    requires k < |steps| && |states| == |steps| + 1
  {
    steps[k].PingIn? && steps[k].peer == p && steps[k].from == a && udp.Bound? &&
    AnswersPing(PeerOf(states[k], p), a, steps[k].now)
  }

  lemma PongTimeStep(udp: Udp, s: Inner, step: Step, p: NodeId, a: Addr)
    requires p in s.peers && a in s.peers[p].lastPong && !(step.Begin? && step.peer == p)
    ensures var s' := Apply(udp, s, step);
            && p in s'.peers && a in s'.peers[p].lastPong
            && (s'.peers[p].lastPong[a] == s.peers[p].lastPong[a]
                || (s'.peers[p].lastPong[a] >= s.peers[p].lastPong[a] + PONG_INTERVAL))
  {
  }

  lemma {:induction false} PongTimeKept(udp: Udp, states: seq<Inner>, steps: seq<Step>, j: nat, k: nat, p: NodeId, a: Addr)
    requires IsRun(udp, states, steps) && j < k <= |steps|
    requires AnswersAt(udp, states, steps, j, p, a) && SameSession(steps, j, k, p)
    ensures p in states[k].peers && a in states[k].peers[p].lastPong && states[k].peers[p].lastPong[a] >= steps[j].now
    decreases k
  {
    assert StepAt(udp, states, steps, k - 1);
    if k > j + 1 {
      assert SameSession(steps, j, k - 1, p);
      PongTimeKept(udp, states, steps, j, k - 1, p, a);
      assert !BeginsAt(steps, k - 1, p);
      PongTimeStep(udp, states[k - 1], steps[k - 1], p, a);
    }
  }

  /** Within one session, two answers to the same address are at least a second apart, however often a ping is replayed. */
  lemma PongsAreRateLimited(udp: Udp, states: seq<Inner>, steps: seq<Step>, j: nat, k: nat, p: NodeId, a: Addr)
    requires IsRun(udp, states, steps) && j < k < |steps| && SameSession(steps, j, k, p)
    requires AnswersAt(udp, states, steps, j, p, a) && AnswersAt(udp, states, steps, k, p, a)
    ensures steps[k].now >= steps[j].now + PONG_INTERVAL
  {
    PongTimeKept(udp, states, steps, j, k, p, a);
  }
}
