/**
 The session loop and the path socket together: each iteration of the loop
 reads the proof that a run of the path socket holds at that moment.
 */
module SessionPaths {
  import opened Core
  import opened PathState
  import PathRuns
  import SessionRuns
  import Status = SessionStatus

  /** What the loop reads of the peer's proof; there is none to read without a socket. */
  function ProofOf(udp: Udp, s: Inner, p: NodeId): Option<Proven> {
    if udp.RelayOnly? then None else PeerOf(s, p).direct
  }

  function ProvedAt(proof: Option<Proven>): Option<Time> {
    if proof.None? then None else Some(proof.value.provedAt)
  }

  /** Iteration `k` of the loop reads the proof in path state `views[k]`. */
  ghost predicate ReadsAt(udp: Udp, states: seq<Inner>, p: NodeId, ins: seq<Status.Input>, views: seq<nat>, k: nat)
    requires k < |ins| && |views| == |ins|
  {
    views[k] < |states| && ins[k].provedAt == ProvedAt(ProofOf(udp, states[views[k]], p))
  }

  /** A run of the path socket and a run of the loop of a session with `p` on top of it. */
  ghost predicate IsRun(udp: Udp, states: seq<Inner>, steps: seq<PathRuns.Step>, p: NodeId,
                        allowDirect: bool, snaps: seq<Status.Snapshot>, ins: seq<Status.Input>, views: seq<nat>) {
    && PathRuns.IsRun(udp, states, steps)
    && Status.IsRun(allowDirect, snaps, ins)
    && |views| == |ins| && forall k | 0 <= k < |ins| :: ReadsAt(udp, states, p, ins, views, k)
  }

  lemma DirectIffFresh(l: Status.Locals, status: Status.PathStatus, i: Status.Input)
    requires SessionRuns.Carrying(status)
    ensures SessionRuns.After(status, Status.WhileUp(true, l, status, i).moves) == Status.Direct
            <==> Status.Fresh(i.provedAt, i.clock.freshAt)
  {
  }

  /**
   The report follows the socket.  A relay-up iteration of a session that
   allows direct paths ends in Direct if and only if the path socket, in the
   state the iteration read, sends that peer's datagrams direct.
   */
  lemma StatusFollowsSocket(udp: Udp, states: seq<Inner>, steps: seq<PathRuns.Step>, p: NodeId,
                            snaps: seq<Status.Snapshot>, ins: seq<Status.Input>, views: seq<nat>, k: nat)
    requires IsRun(udp, states, steps, p, true, snaps, ins, views)
    requires k < |ins| && SessionRuns.RelayUp(snaps[k], ins[k])
    ensures snaps[k + 1].trace != []
    ensures Status.Last(snaps[k + 1].trace) == Status.Direct
            <==> views[k] < |states| && Route(udp, states[views[k]], p, ins[k].clock.freshAt).Some?
  {
    SessionRuns.RunKeepsInv(true, snaps, ins, k);
    assert Status.StepAt(true, snaps, ins, k);
    SessionRuns.UpStep(true, snaps[k], snaps[k + 1], ins[k]);
    DirectIffFresh(Status.Noted(snaps[k].locals, ins[k]), SessionRuns.Underlying(snaps[k]), ins[k]);
    assert ReadsAt(udp, states, p, ins, views, k);
  }

  /** Every session with `p` begun before state `i` began before step `m`. */
  ghost predicate SinceEveryBegin(steps: seq<PathRuns.Step>, i: nat, m: nat, p: NodeId)
    requires i <= |steps|
  {
    forall b | 0 <= b < i && PathRuns.BeginsAt(steps, b, p) :: b < m
  }

  /** Step `m` issued a nonce to `p` and step `j` proved `proven` with it, both since the last session with `p` began. */
  ghost predicate ProvedBy(udp: Udp, states: seq<Inner>, steps: seq<PathRuns.Step>, i: nat, p: NodeId, proven: Proven,
                           m: nat, j: nat, nonce: Nonce)
    requires i <= |steps| && |states| == |steps| + 1
  {
    && m < j < i && SinceEveryBegin(steps, i, m, p)
    && PathRuns.Issues(udp, states, steps, m, p, nonce)
    && PathRuns.Proves(udp, states, steps, j, p, nonce, proven)
  }

  lemma ProofIsOfThisSession(udp: Udp, states: seq<Inner>, steps: seq<PathRuns.Step>, i: nat, p: NodeId)
    requires PathRuns.IsRun(udp, states, steps) && i < |states| && p in states[i].peers && states[i].peers[p].direct.Some?
    ensures exists m, j, nonce :: ProvedBy(udp, states, steps, i, p, states[i].peers[p].direct.value, m, j, nonce)
  {
    var proven := states[i].peers[p].direct.value;
    PathRuns.DirectProofsAreSound(udp, states, steps, i);
    assert PathRuns.FromOwnPong(udp, states, steps, i, p, proven);
    var j, nonce :| 0 <= j < i && PathRuns.Proves(udp, states, steps, j, p, nonce, proven)
                    && PathRuns.SameSession(steps, j, i, p) && PathRuns.FromOwnPing(udp, states, steps, j, p, nonce);
    var m :| 0 <= m < j && PathRuns.Issues(udp, states, steps, m, p, nonce) && PathRuns.SameSession(steps, m, j, p);
    forall b | 0 <= b < i && PathRuns.BeginsAt(steps, b, p) ensures b < m {
      assert b != j && b != m;
      assert !(m < b < j) && !(j < b < i);
    }
    assert ProvedBy(udp, states, steps, i, p, proven, m, j, nonce);
  }

  /**
   Direct rests on this session's own proof.  When an iteration ends in
   Direct, the peer's proof is younger than 15 s, and both the ping and the
   pong that made it came after the latest session with that peer began.
   */
  lemma DirectRestsOnOwnProof(udp: Udp, states: seq<Inner>, steps: seq<PathRuns.Step>, p: NodeId, allowDirect: bool,
                              snaps: seq<Status.Snapshot>, ins: seq<Status.Input>, views: seq<nat>, k: nat)
    requires IsRun(udp, states, steps, p, allowDirect, snaps, ins, views)
    requires k < |ins| && SessionRuns.RelayUp(snaps[k], ins[k])
    requires snaps[k + 1].trace != [] && Status.Last(snaps[k + 1].trace) == Status.Direct
    ensures views[k] < |states| && p in states[views[k]].peers && states[views[k]].peers[p].direct.Some?
    ensures var proven := states[views[k]].peers[p].direct.value;
            && ins[k].clock.freshAt - proven.provedAt < DIRECT_FRESH
            && exists m, j, nonce :: ProvedBy(udp, states, steps, views[k], p, proven, m, j, nonce)
  {
    SessionRuns.DirectIsFresh(allowDirect, snaps, ins, k);
    assert ReadsAt(udp, states, p, ins, views, k);
    ProofIsOfThisSession(udp, states, steps, views[k], p);
  }

  // ---------------------------------------------------------------------
  // Dropping
  // ---------------------------------------------------------------------

  lemma {:induction false} PeersLogGrows(states: seq<Inner>, steps: seq<PathRuns.Step>, i: nat, j: nat)
    requires i <= j <= |steps| && |states| == |steps| + 1
    ensures PathRuns.LogOf(states, steps, i).peers <= PathRuns.LogOf(states, steps, j).peers
    decreases j
  {
    if i < j {
      PeersLogGrows(states, steps, i, j - 1);
    }
  }

  /** A session is no longer live once a later one with the same peer began. */
  lemma LaterBeginSupersedes(udp: Udp, states: seq<Inner>, steps: seq<PathRuns.Step>, b: nat, c: nat, i: nat, p: NodeId)
    requires PathRuns.IsRun(udp, states, steps) && b < c < i <= |steps|
    requires PathRuns.BeginsAt(steps, b, p) && PathRuns.BeginsAt(steps, c, p)
    ensures !IsLive(states[i], p, states[b].nextSession)
  {
    PathRuns.SlotsHold(udp, states, steps, b);
    PathRuns.SlotsHold(udp, states, steps, c);
    PathRuns.SlotsHold(udp, states, steps, i);
    PeersLogGrows(states, steps, b + 1, c);
    PeersLogGrows(states, steps, c + 1, i);
    var log := PathRuns.LogOf(states, steps, i);
    assert PathRuns.LogOf(states, steps, c + 1).peers[states[c].nextSession] == p;
    assert log.peers[states[c].nextSession] == p;
  }

  /**
   A superseded session drops nothing.  The drop that the loop asks for when
   it leaves Direct changes no state once a later session with the peer began:
   the proof that later session stands on is safe from it.
   */
  lemma SupersededLoopDropsNothing(udp: Udp, states: seq<Inner>, steps: seq<PathRuns.Step>, p: NodeId, b: nat, c: nat, d: nat)
    requires PathRuns.IsRun(udp, states, steps) && b < c < d < |steps|
    requires PathRuns.BeginsAt(steps, b, p) && PathRuns.BeginsAt(steps, c, p)
    requires steps[d] == PathRuns.Drop(p, states[b].nextSession)
    ensures states[d + 1] == states[d]
  {
    LaterBeginSupersedes(udp, states, steps, b, c, d, p);
    assert PathRuns.StepAt(udp, states, steps, d);
  }
}
