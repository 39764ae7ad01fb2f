/** What every run of the session loop keeps: legal walks, timed statuses and the probing cooldown. */
module SessionRuns {
  import opened Core
  import opened SessionStatus
  import PathState

  predicate Carrying(s: PathStatus) {
    s == Relayed || s == Probing || s == Direct
  }

  /** How a carrying session may move while its relay is up. */
  predicate PathMove(from: PathStatus, to: PathStatus) {
    match from
    case Relayed => to == Probing || to == Direct
    case Probing => to == Direct || to == Relayed
    case Direct => to == Relayed
    case _ => false
  }

  /** Which status may follow position `k` of a trace. */
  predicate LegalMove(trace: seq<PathStatus>, k: nat)
    requires k + 1 < |trace|
  {
    var from, to := trace[k], trace[k + 1];
    || (k == 0 && from == Rendezvous && to == Relayed)
    || (Carrying(from) && (PathMove(from, to) || to == Reconnecting || to.Failed?))
    || (from == Reconnecting && (to.Failed? || (k > 0 && Carrying(to) && to == trace[k - 1])))
  }

  ghost predicate LegalWalk(trace: seq<PathStatus>) {
    && |trace| >= 2 && trace[0] == Rendezvous
    && forall k | 0 <= k < |trace| - 1 :: LegalMove(trace, k)
  }

  ghost predicate StaysOnRelay(trace: seq<PathStatus>) {
    forall k | 0 <= k < |trace| :: trace[k] != Probing && trace[k] != Direct
  }

  lemma ExtendWalk(trace: seq<PathStatus>, to: PathStatus)
    requires LegalWalk(trace) && LegalMove(trace + [to], |trace| - 1)
    ensures LegalWalk(trace + [to])
  {
    forall k | 0 <= k < |trace| ensures LegalMove(trace + [to], k) {
      if k < |trace| - 1 {
        assert LegalMove(trace, k);
      }
    }
  }

  // ---------------------------------------------------------------------
  // Invariant
  // ---------------------------------------------------------------------

  /** The status underneath an outage: the current one, or the one the outage suspended. */
  function Underlying(s: Snapshot): PathStatus
    requires s.trace != []
  {
    if Last(s.trace) == Reconnecting then s.locals.previous else Last(s.trace)
  }

  ghost predicate Inv(allowDirect: bool, s: Snapshot) {
    && LegalWalk(s.trace)
    && (!allowDirect ==> StaysOnRelay(s.trace))
    && (!s.exited ==>
          && Carrying(Underlying(s))
          && (!allowDirect ==> Underlying(s) == Relayed)
          && (Last(s.trace) == Reconnecting ==> s.trace[|s.trace| - 2] == s.locals.previous)
          && (s.locals.roundEnds.Some? <==> Underlying(s) == Probing))
  }

  /** The status an iteration leaves when it starts from `status` and reports at most one. */
  function After(status: PathStatus, moves: seq<PathStatus>): PathStatus {
    if moves == [] then status else moves[|moves| - 1]
  }

  /** One relay-up pass in a carrying status. */
  lemma UpPass(allowDirect: bool, l: Locals, status: PathStatus, i: Input)
    requires Carrying(status) && (!allowDirect ==> status == Relayed)
    requires l.roundEnds.Some? <==> status == Probing
    ensures var o := WhileUp(allowDirect, l, status, i);
            var now := After(status, o.moves);
            && |o.moves| <= 1 && !o.exit && o.locals.previous == l.previous
            && (now == status || PathMove(status, now))
            && (!allowDirect ==> now == Relayed)
            && (o.locals.roundEnds.Some? <==> now == Probing)
            && (now == Direct ==> Fresh(i.provedAt, i.clock.freshAt))
            && (status == Probing && i.clock.endAt >= l.roundEnds.value ==> now != Probing)
            && (now == Probing ==>
                  o.locals.roundEnds == if status == Probing then l.roundEnds else Some(i.clock.startAt + PROBE_ROUND))
            && (o.dropsDirect <==> status == Direct && now == Relayed)
  {
  }

  lemma MovedAllOne(trace: seq<PathStatus>, a: PathStatus)
    requires trace != []
    ensures MovedAll(trace, [a]) == Moved(trace, a)
  {
    assert [a][1..] == [];
  }

  lemma MovedAllSplit(trace: seq<PathStatus>, a: PathStatus, moves: seq<PathStatus>)
    requires trace != []
    ensures MovedAll(trace, [a] + moves) == MovedAll(Moved(trace, a), moves)
  {
    assert ([a] + moves)[1..] == moves;
  }

  /** Reporting the outcome of an up pass extends the walk legally. */
  lemma UpPassExtends(trace: seq<PathStatus>, moves: seq<PathStatus>)
    requires LegalWalk(trace) && Carrying(Last(trace)) && |moves| <= 1
    requires After(Last(trace), moves) == Last(trace) || PathMove(Last(trace), After(Last(trace), moves))
    ensures LegalWalk(MovedAll(trace, moves)) && Last(MovedAll(trace, moves)) == After(Last(trace), moves)
    ensures After(Last(trace), moves) == Relayed && StaysOnRelay(trace) ==> StaysOnRelay(MovedAll(trace, moves))
  {
    if |moves| == 1 {
      assert moves == [moves[0]];
      MovedAllOne(trace, moves[0]);
      if Last(trace) != moves[0] {
        ExtendWalk(trace, moves[0]);
      }
    }
  }

  /** The loop resumes from an outage with exactly what the outage suspended, then makes its up pass. */
  lemma UpStep(allowDirect: bool, s: Snapshot, s': Snapshot, i: Input)
    requires Inv(allowDirect, s) && Next(allowDirect, s, s', i)
    requires RelayUp(s, i)
    ensures Inv(allowDirect, s') && !s'.exited
    ensures var o := WhileUp(allowDirect, Noted(s.locals, i), Underlying(s), i);
            s'.locals == o.locals && Last(s'.trace) == After(Underlying(s), o.moves)
  {
    var l, status := Noted(s.locals, i), Underlying(s);
    assert l.previous == s.locals.previous && l.roundEnds == s.locals.roundEnds;
    UpPass(allowDirect, l, status, i);
    var o := WhileUp(allowDirect, l, status, i);
    var resumed := s.trace;
    if Last(s.trace) == Reconnecting {
      resumed := s.trace + [status];
      ExtendWalk(s.trace, status);
      MovedAllSplit(s.trace, status, o.moves);
    }
    UpPassExtends(resumed, o.moves);
    assert s'.trace == MovedAll(resumed, o.moves);
  }

  /** The wait ended without ending the session, and the relay is up. */
  predicate RelayUp(s: Snapshot, i: Input) {
    && !i.event.Supplanted? && !i.event.Closed?
    && Noted(s.locals, i).relay == Up
  }

  lemma DownStep(allowDirect: bool, s: Snapshot, s': Snapshot, i: Input)
    requires Inv(allowDirect, s) && Next(allowDirect, s, s', i)
    requires !RelayUp(s, i)
    ensures Inv(allowDirect, s')
    ensures !s'.exited ==> Last(s'.trace) == Reconnecting && Underlying(s') == Underlying(s)
    ensures s'.locals == Noted(s.locals, i).(previous := s'.locals.previous) || s'.exited
  {
    var o := Iterate(allowDirect, s.locals, Last(s.trace), i);
    assert Noted(s.locals, i).previous == s.locals.previous;
    assert Noted(s.locals, i).roundEnds == s.locals.roundEnds;
    assert |o.moves| <= 1;
    if |o.moves| == 1 {
      assert o.moves == [o.moves[0]];
      MovedAllOne(s.trace, o.moves[0]);
      if Last(s.trace) != o.moves[0] {
        ExtendWalk(s.trace, o.moves[0]);
      }
    }
  }

  lemma {:induction false} RunKeepsInv(allowDirect: bool, snaps: seq<Snapshot>, ins: seq<Input>, k: nat)
    requires IsRun(allowDirect, snaps, ins) && k < |snaps|
    ensures Inv(allowDirect, snaps[k])
  {
    if k > 0 {
      RunKeepsInv(allowDirect, snaps, ins, k - 1);
      assert StepAt(allowDirect, snaps, ins, k - 1);
      if RelayUp(snaps[k - 1], ins[k - 1]) {
        UpStep(allowDirect, snaps[k - 1], snaps[k], ins[k - 1]);
      } else {
        DownStep(allowDirect, snaps[k - 1], snaps[k], ins[k - 1]);
      }
    }
  }

  // ---------------------------------------------------------------------
  // Main results
  // ---------------------------------------------------------------------

  /**
   Every status trace of every run starts Rendezvous, Relayed; consecutive
   statuses differ; nothing follows a failure; what follows an outage is a
   failure or exactly the status before it; and with direct paths declined
   neither Probing nor Direct ever occurs.
   */
  lemma TracesAreLegalWalks(allowDirect: bool, snaps: seq<Snapshot>, ins: seq<Input>, n: nat)
    requires IsRun(allowDirect, snaps, ins) && n < |snaps|
    ensures var trace := snaps[n].trace;
            && |trace| >= 2 && trace[0] == Rendezvous && trace[1] == Relayed
            && (forall k | 0 <= k < |trace| - 1 :: trace[k] != trace[k + 1])
            && (forall k | 0 <= k < |trace| - 1 :: !trace[k].Failed?)
            && (forall k | 0 < k < |trace| - 1 && trace[k] == Reconnecting ::
                  trace[k + 1].Failed? || trace[k + 1] == trace[k - 1])
            && (!allowDirect ==> StaysOnRelay(trace))
            && LegalWalk(trace)
  {
    RunKeepsInv(allowDirect, snaps, ins, n);
    var trace := snaps[n].trace;
    assert LegalMove(trace, 0);
    forall k | 0 <= k < |trace| - 1 ensures trace[k] != trace[k + 1] && !trace[k].Failed? {
      assert LegalMove(trace, k);
    }
    forall k | 0 < k < |trace| - 1 && trace[k] == Reconnecting ensures trace[k + 1].Failed? || trace[k + 1] == trace[k - 1] {
      assert LegalMove(trace, k);
    }
  }

  /** At the end of every relay-up iteration, Direct rests on a proof younger than 15 s. */
  lemma DirectIsFresh(allowDirect: bool, snaps: seq<Snapshot>, ins: seq<Input>, k: nat)
    requires IsRun(allowDirect, snaps, ins) && k < |ins| && RelayUp(snaps[k], ins[k])
    requires snaps[k + 1].trace != [] && Last(snaps[k + 1].trace) == Direct
    ensures ins[k].provedAt.Some? && ins[k].clock.freshAt - ins[k].provedAt.value < 15_000
  {
    RunKeepsInv(allowDirect, snaps, ins, k);
    assert StepAt(allowDirect, snaps, ins, k);
    UpStep(allowDirect, snaps[k], snaps[k + 1], ins[k]);
    UpPass(allowDirect, Noted(snaps[k].locals, ins[k]), Underlying(snaps[k]), ins[k]);
  }

  /** Iteration `k` starts a probing round. */
  ghost predicate StartsRound(snaps: seq<Snapshot>, ins: seq<Input>, k: nat)
    requires k < |ins| && |snaps| == |ins| + 1
  {
    && snaps[k].trace != [] && snaps[k + 1].trace != []
    && RelayUp(snaps[k], ins[k])
    && Underlying(snaps[k]) != Probing && Last(snaps[k + 1].trace) == Probing
  }

  /** The loop still runs at `n` and is probing, or suspended while probing. */
  ghost predicate StillProbing(snaps: seq<Snapshot>, n: nat)
    requires n < |snaps|
  {
    snaps[n].trace != [] && !snaps[n].exited && Underlying(snaps[n]) == Probing
  }

  /** What one iteration does to the deadline of the round it leaves running. */
  ghost predicate CarriesDeadline(s: Snapshot, s': Snapshot, i: Input) {
    && s.trace != []
    && s'.locals.roundEnds == if Underlying(s) == Probing then s.locals.roundEnds else Some(i.clock.startAt + PROBE_ROUND)
  }

  lemma RoundStep(allowDirect: bool, s: Snapshot, s': Snapshot, i: Input)
    requires Inv(allowDirect, s) && Next(allowDirect, s, s', i)
    requires s'.trace != [] && !s'.exited && Underlying(s') == Probing
    ensures CarriesDeadline(s, s', i)
  {
    if RelayUp(s, i) {
      UpStep(allowDirect, s, s', i);
      UpPass(allowDirect, Noted(s.locals, i), Underlying(s), i);
    } else {
      DownStep(allowDirect, s, s', i);
    }
  }

  lemma RoundStepAt(allowDirect: bool, snaps: seq<Snapshot>, ins: seq<Input>, k: nat)
    requires IsRun(allowDirect, snaps, ins) && k < |ins| && StillProbing(snaps, k + 1)
    ensures CarriesDeadline(snaps[k], snaps[k + 1], ins[k])
  {
    RunKeepsInv(allowDirect, snaps, ins, k);
    assert StepAt(allowDirect, snaps, ins, k);
    RoundStep(allowDirect, snaps[k], snaps[k + 1], ins[k]);
  }

  /** A round keeps its deadline for as long as it lasts, through outages included. */
  lemma {:induction false} RoundKeepsDeadline(allowDirect: bool, snaps: seq<Snapshot>, ins: seq<Input>, k: nat, m: nat)
    requires IsRun(allowDirect, snaps, ins) && k < m < |snaps|
    requires StartsRound(snaps, ins, k)
    requires forall n | k < n <= m :: StillProbing(snaps, n)
    ensures snaps[m].locals.roundEnds == Some(ins[k].clock.startAt + 5_000)
    decreases m
  {
    assert StillProbing(snaps, m);
    RoundStepAt(allowDirect, snaps, ins, m - 1);
    if m > k + 1 {
      assert StillProbing(snaps, m - 1);
      RoundKeepsDeadline(allowDirect, snaps, ins, k, m - 1);
    }
  }

  /**
   A probing round never outlives its five seconds: the first relay-up
   iteration whose clock is at or past the deadline leaves Probing, however
   many outages suspended the round in between.
   */
  lemma RoundEndsByDeadline(allowDirect: bool, snaps: seq<Snapshot>, ins: seq<Input>, k: nat, m: nat)
    requires IsRun(allowDirect, snaps, ins) && k < m < |ins|
    requires StartsRound(snaps, ins, k)
    requires forall n | k < n <= m :: StillProbing(snaps, n)
    requires RelayUp(snaps[m], ins[m]) && ins[m].clock.endAt >= ins[k].clock.startAt + 5_000
    ensures snaps[m + 1].trace != [] && (Last(snaps[m + 1].trace) == Direct || Last(snaps[m + 1].trace) == Relayed)
  {
    RunKeepsInv(allowDirect, snaps, ins, m);
    assert StillProbing(snaps, m);
    RoundKeepsDeadline(allowDirect, snaps, ins, k, m);
    assert StepAt(allowDirect, snaps, ins, m);
    UpStep(allowDirect, snaps[m], snaps[m + 1], ins[m]);
    UpPass(allowDirect, Noted(snaps[m].locals, ins[m]), Underlying(snaps[m]), ins[m]);
  }

  /** Iteration `k` gives up a round or loses a direct path. */
  ghost predicate FallsBack(snaps: seq<Snapshot>, ins: seq<Input>, k: nat)
    requires k < |ins| && |snaps| == |ins| + 1
  {
    && snaps[k].trace != [] && snaps[k + 1].trace != []
    && RelayUp(snaps[k], ins[k])
    && (Underlying(snaps[k]) == Probing || Underlying(snaps[k]) == Direct)
    && Last(snaps[k + 1].trace) == Relayed
  }

  ghost predicate NobodyAsks(snaps: seq<Snapshot>, ins: seq<Input>, k: nat)
    requires k < |ins| && |snaps| == |ins| + 1
  {
    !Requested(Noted(snaps[k].locals, ins[k]), ins[k])
  }

  lemma UpPassAttempt(allowDirect: bool, l: Locals, status: PathStatus, i: Input)
    requires !Requested(l, i)
    ensures var o := WhileUp(allowDirect, l, status, i);
            o.locals.nextAttempt == l.nextAttempt || o.locals.nextAttempt == i.clock.coolAt + PROBE_COOLDOWN
    ensures var o := WhileUp(allowDirect, l, status, i);
            status == Relayed && After(status, o.moves) == Probing ==> i.clock.gateAt >= l.nextAttempt
  {
  }

  lemma FallBackStep(allowDirect: bool, s: Snapshot, s': Snapshot, i: Input)
    requires Inv(allowDirect, s) && Next(allowDirect, s, s', i) && RelayUp(s, i)
    requires Underlying(s) == Probing || Underlying(s) == Direct
    requires s'.trace != [] && Last(s'.trace) == Relayed
    ensures s'.locals.nextAttempt == i.clock.coolAt + PROBE_COOLDOWN
  {
    UpStep(allowDirect, s, s', i);
  }

  lemma UnaskedStep(allowDirect: bool, s: Snapshot, s': Snapshot, i: Input)
    requires Inv(allowDirect, s) && Next(allowDirect, s, s', i) && !s'.exited
    requires !Requested(Noted(s.locals, i), i)
    ensures s'.locals.nextAttempt == s.locals.nextAttempt || s'.locals.nextAttempt == i.clock.coolAt + PROBE_COOLDOWN
  {
    if RelayUp(s, i) {
      UpStep(allowDirect, s, s', i);
      UpPassAttempt(allowDirect, Noted(s.locals, i), Underlying(s), i);
    } else {
      DownStep(allowDirect, s, s', i);
    }
  }

  lemma {:induction false} CooldownKept(allowDirect: bool, snaps: seq<Snapshot>, ins: seq<Input>, k: nat, m: nat)
    requires IsRun(allowDirect, snaps, ins) && k < m < |snaps|
    requires FallsBack(snaps, ins, k)
    requires forall n | k < n < m :: NobodyAsks(snaps, ins, n)
    requires !snaps[m].exited
    ensures snaps[m].locals.nextAttempt >= ins[k].clock.coolAt + PROBE_COOLDOWN
    decreases m
  {
    RunKeepsInv(allowDirect, snaps, ins, m - 1);
    assert StepAt(allowDirect, snaps, ins, m - 1);
    if m == k + 1 {
      FallBackStep(allowDirect, snaps[k], snaps[m], ins[k]);
    } else {
      CooldownKept(allowDirect, snaps, ins, k, m - 1);
      assert Earlier(ins, k, m - 1) && ins[m - 1].clock.Forward();
      assert NobodyAsks(snaps, ins, m - 1);
      UnaskedStep(allowDirect, snaps[m - 1], snaps[m], ins[m - 1]);
    }
  }

  /**
   After a failed round or a lost direct path, no new round starts for thirty
   seconds unless this side, the peer or an interface change asks for one.
   */
  lemma CooldownBeforeNextRound(allowDirect: bool, snaps: seq<Snapshot>, ins: seq<Input>, k: nat, m: nat)
    requires IsRun(allowDirect, snaps, ins) && k < m < |ins|
    requires FallsBack(snaps, ins, k) && StartsRound(snaps, ins, m)
    requires forall n | k < n <= m :: NobodyAsks(snaps, ins, n)
    ensures ins[m].clock.gateAt >= ins[k].clock.coolAt + 30_000
  {
    assert StepAt(allowDirect, snaps, ins, m);
    CooldownKept(allowDirect, snaps, ins, k, m);
    RunKeepsInv(allowDirect, snaps, ins, m);
    assert NobodyAsks(snaps, ins, m);
    UpStep(allowDirect, snaps[m], snaps[m + 1], ins[m]);
    var l := Noted(snaps[m].locals, ins[m]);
    UpPass(allowDirect, l, Underlying(snaps[m]), ins[m]);
    UpPassAttempt(allowDirect, l, Underlying(snaps[m]), ins[m]);
  }
}
