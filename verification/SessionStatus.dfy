/**
 The path status of one session: `transition`, which records it, and `drive`,
 the loop that moves it.  One iteration of the loop is the function `Iterate`;
 everything the loop reads from outside (the event it woke on, the path
 socket's answers and each clock reading) is its input.
 */
module SessionStatus {
  import opened Core
  import PathState

  type Time = PathState.Time

  const PROBE_ROUND := 5_000
  const PROBE_COOLDOWN := 30_000
  const REPROVE_INTERVAL := 5_000
  const RESEND_INTERVAL := 500
  const REFLECTOR_GRACE := 300
  const HISTORY_CAP := 256

  datatype FailReason = RelayGone | NoRendezvous | WrongIdentity | TimedOut | Superseded

  datatype PathStatus =
    | Idle
    | Rendezvous
    | Relayed
    | Probing
    | Direct
    | Reconnecting
    | Failed(reason: FailReason)

  datatype RelayStatus = Connecting | Up | RelayReconnecting | RelaySuperseded | RelayFailed

  datatype CloseReason = LocallyClosed | ApplicationClosed | IdleTimeout | OtherError

  /** What ended the wait of one iteration. */
  datatype Event =
    | Supplanted                       // a newer session took the peer's slot
    | Closed(reason: CloseReason)      // the QUIC connection ended
    | RelayEvent(status: RelayStatus)  // next relay status, or a resync after a lag
    | RelayEventsEnded
    | InterfaceChanged
    | InterfaceMonitorEnded
    | Tick

  datatype Asked = Nobody | Here | Peer

  /** The clock readings of one iteration, in the order the loop takes them. */
  datatype Clock = Clock(netAt: Time, dueAt: Time, askedAt: Time, freshAt: Time, gateAt: Time,
                         startAt: Time, sentAt: Time, endAt: Time, coolAt: Time)
  {
    predicate Forward() {
      netAt <= dueAt <= askedAt <= freshAt <= gateAt <= startAt <= sentAt <= endAt <= coolAt
    }
  }

  datatype Input = Input(
    event: Event,
    switched: Option<RelayStatus>,  // the peer is now reached on another relay driver
    provedAt: Option<Time>,         // when the path socket's current direct proof was made
    candidates: nat,                // how many candidates the peer offered
    asked: Asked,
    clock: Clock
  )

  /** The local variables of the loop. */
  datatype Locals = Locals(
    relay: RelayStatus,
    previous: PathStatus,          // the status an outage interrupted
    roundEnds: Option<Time>,       // when the running probing round gives up
    nextAttempt: Time,
    lastProbe: Time,
    announced: bool,
    reannounceAt: Option<Time>,
    netAlive: bool
  )

  /** One iteration: new locals, the statuses reported in order, probing rounds sent, and whether the loop ends. */
  datatype Outcome = Outcome(locals: Locals, moves: seq<PathStatus>, probes: nat, dropsDirect: bool, exit: bool)

  function Initially(relay: RelayStatus, now: Time, probeDelay: Time): Locals {
    Locals(relay, Relayed, None, now + probeDelay, ReproveDue(now), false, None, true)
  }

  /** One re-prove interval ago, or now on a clock that has not run that long. */
  function ReproveDue(now: Time): Time {
    if now >= REPROVE_INTERVAL then now - REPROVE_INTERVAL else now
  }

  predicate Fresh(provedAt: Option<Time>, now: Time) {
    provedAt.Some? && now - provedAt.value < PathState.DIRECT_FRESH
  }

  // ---------------------------------------------------------------------
  // One iteration
  // ---------------------------------------------------------------------

  function OnClosed(status: PathStatus, reason: CloseReason): seq<PathStatus> {
    if status.Failed? then []
    else
      match reason
      case LocallyClosed => []
      case ApplicationClosed => []
      case IdleTimeout => [Failed(TimedOut)]
      case OtherError => [Failed(RelayGone)]
  }

  /** The relay and interface bookkeeping before the status is looked at. */
  function Noted(l: Locals, i: Input): Locals {
    var l := if i.event.RelayEvent? then l.(relay := i.event.status) else l;
    var l := if i.switched.Some? then l.(relay := i.switched.value) else l;
    match i.event
    case InterfaceChanged => if l.netAlive then l.(reannounceAt := Some(i.clock.netAt + REFLECTOR_GRACE)) else l
    case InterfaceMonitorEnded => l.(netAlive := false)
    case _ => l
  }

  /** Whether this iteration re-announces, and who asked for a round by now. */
  predicate Announces(l: Locals, i: Input) {
    l.reannounceAt.Some? && i.clock.dueAt >= l.reannounceAt.value
  }

  predicate Requested(l: Locals, i: Input) {
    Announces(l, i) || i.asked != Nobody
  }

  function Asking(l: Locals, i: Input): Locals {
    var l' := if Announces(l, i) then l.(reannounceAt := None) else l;
    if Requested(l, i) then l'.(nextAttempt := i.clock.askedAt, lastProbe := ReproveDue(i.clock.askedAt)) else l'
  }

  function WhileRelayed(l: Locals, i: Input): Outcome {
    var c := i.clock;
    if Fresh(i.provedAt, c.freshAt) then Outcome(l, [Direct], 0, false, false)
    else if i.candidates == 0 then
      Outcome(l.(announced := true), if l.announced then [] else [Relayed], 0, false, false)
    else if c.gateAt < l.nextAttempt then Outcome(l, [], 0, false, false)
    else Outcome(l.(roundEnds := Some(c.startAt + PROBE_ROUND), lastProbe := c.sentAt), [Probing], 1, false, false)
  }

  function WhileProbing(l: Locals, i: Input): Outcome {
    var c := i.clock;
    if Fresh(i.provedAt, c.freshAt) then Outcome(l.(roundEnds := None), [Direct], 0, false, false)
    else
      var resend := c.gateAt - l.lastProbe >= RESEND_INTERVAL;
      var l := if resend then l.(lastProbe := c.sentAt) else l;
      var probes := if resend then 1 else 0;
      if l.roundEnds.Some? && c.endAt >= l.roundEnds.value
      then Outcome(l.(roundEnds := None, nextAttempt := c.coolAt + PROBE_COOLDOWN), [Relayed], probes, false, false)
      else Outcome(l, [], probes, false, false)
  }

  function WhileDirect(l: Locals, i: Input): Outcome {
    var c := i.clock;
    if Fresh(i.provedAt, c.freshAt) then
      var reprove := c.gateAt - l.lastProbe >= REPROVE_INTERVAL;
      Outcome(if reprove then l.(lastProbe := c.sentAt) else l, [], if reprove then 1 else 0, false, false)
    else Outcome(l.(nextAttempt := c.coolAt + PROBE_COOLDOWN), [Relayed], 0, true, false)
  }

  /** The relay is up: what the loop does in `status`. */
  function WhileUp(allowDirect: bool, l: Locals, status: PathStatus, i: Input): Outcome {
    if !allowDirect then
      if status == Relayed && !l.announced then Outcome(l.(announced := true), [Relayed], 0, false, false)
      else Outcome(l, [], 0, false, false)
    else
      var l := Asking(l, i);
      match status
      case Relayed => WhileRelayed(l, i)
      case Probing => WhileProbing(l, i)
      case Direct => WhileDirect(l, i)
      case _ => Outcome(l, [], 0, false, false)
  }

  function Iterate(allowDirect: bool, l: Locals, status: PathStatus, i: Input): Outcome {
    match i.event
    case Supplanted => Outcome(l, [Failed(Superseded)], 0, false, true)
    case Closed(reason) => Outcome(l, OnClosed(status, reason), 0, false, true)
    case _ =>
      var l := Noted(l, i);
      if status.Failed? then Outcome(l, [], 0, false, true)
      else
        match l.relay
        case RelaySuperseded => Outcome(l, [Failed(Superseded)], 0, false, true)
        case RelayFailed => Outcome(l, [Failed(RelayGone)], 0, false, true)
        case Up =>
          if status == Reconnecting then
            var o := WhileUp(allowDirect, l, l.previous, i);
            o.(moves := [l.previous] + o.moves)
          else WhileUp(allowDirect, l, status, i)
        case _ =>
          if status == Reconnecting then Outcome(l, [], 0, false, false)
          else Outcome(l.(previous := status), [Reconnecting], 0, false, false)
  }

  // ---------------------------------------------------------------------
  // Recording
  // ---------------------------------------------------------------------

  function Last(trace: seq<PathStatus>): PathStatus
    requires trace != []
  {
    trace[|trace| - 1]
  }

  /** Reporting the current status again is not a transition. */
  function Moved(trace: seq<PathStatus>, status: PathStatus): (r: seq<PathStatus>)
    requires trace != []
    ensures r != []
  {
    if Last(trace) == status then trace else trace + [status]
  }

  function MovedAll(trace: seq<PathStatus>, moves: seq<PathStatus>): (r: seq<PathStatus>)
    requires trace != []
    ensures r != []
    decreases |moves|
  {
    if moves == [] then trace else MovedAll(Moved(trace, moves[0]), moves[1..])
  }

  /** The loop between two iterations; `exited` once `drive` has returned. */
  datatype Snapshot = Snapshot(locals: Locals, trace: seq<PathStatus>, exited: bool)

  ghost predicate Starts(s: Snapshot) {
    && s.trace == [Rendezvous, Relayed] && !s.exited
    && exists relay, now, delay :: s.locals == Initially(relay, now, delay)
  }

  ghost predicate Next(allowDirect: bool, s: Snapshot, s': Snapshot, i: Input) {
    && !s.exited && s.trace != [] && i.clock.Forward()
    && var o := Iterate(allowDirect, s.locals, Last(s.trace), i);
       s' == Snapshot(o.locals, MovedAll(s.trace, o.moves), o.exit)
  }

  ghost predicate StepAt(allowDirect: bool, snaps: seq<Snapshot>, ins: seq<Input>, k: nat)
    requires k < |ins| && |snaps| == |ins| + 1
  {
    Next(allowDirect, snaps[k], snaps[k + 1], ins[k])
  }

  /** Iteration `j` read every clock before iteration `k` did. */
  ghost predicate Earlier(ins: seq<Input>, j: nat, k: nat)
    requires j < |ins| && k < |ins|
  {
    ins[j].clock.coolAt <= ins[k].clock.netAt
  }

  ghost predicate Timed(ins: seq<Input>) {
    && (forall k | 0 <= k < |ins| :: ins[k].clock.Forward())
    && (forall j, k | 0 <= j < k < |ins| :: Earlier(ins, j, k))
  }

  ghost predicate IsRun(allowDirect: bool, snaps: seq<Snapshot>, ins: seq<Input>) {
    && |snaps| == |ins| + 1 && Starts(snaps[0]) && Timed(ins)
    && (forall k | 0 <= k < |ins| :: StepAt(allowDirect, snaps, ins, k))
  }

  lemma RunSnoc(allowDirect: bool, snaps: seq<Snapshot>, ins: seq<Input>, s: Snapshot, i: Input)
    requires IsRun(allowDirect, snaps, ins) && Timed(ins + [i])
    requires Next(allowDirect, snaps[|ins|], s, i)
    ensures IsRun(allowDirect, snaps + [s], ins + [i])
  {
    forall k | 0 <= k < |ins + [i]| ensures StepAt(allowDirect, snaps + [s], ins + [i], k) {
      if k < |ins| {
        assert StepAt(allowDirect, snaps, ins, k);
      }
    }
  }

  lemma TimedPrefix(ins: seq<Input>, n: nat)
    requires Timed(ins) && n <= |ins|
    ensures Timed(ins[..n])
  {
    forall j, k | 0 <= j < k < n ensures Earlier(ins[..n], j, k) {
      assert Earlier(ins, j, k);
    }
  }

  class SessionInner {
    const allowDirect: bool
    var status: PathStatus
    var history: seq<PathStatus>
    /** Every status so far, oldest first, with no bound. */
    ghost var trace: seq<PathStatus>

    ghost predicate Valid()
      reads this
    {
      && trace != [] && status == Last(trace)
      && history == trace[..Min(256, |trace|)]
    }

    /** A session starts at `Rendezvous` and reports `Relayed` once its handshake is through. */
    constructor Start(allowDirect: bool)
      ensures Valid() && trace == [Rendezvous, Relayed] && this.allowDirect == allowDirect
    {
      this.allowDirect := allowDirect;
      status := Rendezvous;
      history := [Rendezvous];
      trace := [Rendezvous];
      new;
      Transition(Relayed);
    }

    method Transition(next: PathStatus)
      requires Valid()
      modifies this
      ensures Valid() && trace == Moved(old(trace), next)
    {
      if status == next {
        return;
      }
      status := next;
      if |history| < HISTORY_CAP {
        history := history + [next];
      }
      trace := trace + [next];
    }

    method TransitionAll(moves: seq<PathStatus>)
      requires Valid()
      modifies this
      ensures Valid() && trace == MovedAll(old(trace), moves)
    {
      for k := 0 to |moves|
        invariant Valid()
        invariant MovedAll(trace, moves[k..]) == MovedAll(old(trace), moves)
      {
        assert moves[k..][1..] == moves[k + 1..];
        Transition(moves[k]);
      }
    }

    /** The loop, over however many iterations `ins` describes; `snaps` is the run it makes. */
    method Drive(start: Locals, ins: seq<Input>) returns (ghost snaps: seq<Snapshot>)
      requires Valid() && trace == [Rendezvous, Relayed]
      requires exists relay, now, delay :: start == Initially(relay, now, delay)
      requires Timed(ins)
      modifies this
      ensures Valid()
      ensures 1 <= |snaps| <= |ins| + 1 && IsRun(allowDirect, snaps, ins[..|snaps| - 1])
      ensures snaps[|snaps| - 1].trace == trace
      ensures |snaps| <= |ins| ==> snaps[|snaps| - 1].exited
    {
      var locals := start;
      snaps := [Snapshot(start, trace, false)];
      TimedPrefix(ins, 0);
      var k := 0;
      while k < |ins|
        invariant 0 <= k <= |ins| && |snaps| == k + 1
        invariant Valid()
        invariant IsRun(allowDirect, snaps, ins[..k])
        invariant snaps[k] == Snapshot(locals, trace, false)
      {
        ghost var before := snaps[k];
        var o := Iterate(allowDirect, locals, status, ins[k]);
        TransitionAll(o.moves);
        locals := o.locals;
        ghost var after := Snapshot(locals, trace, o.exit);
        assert ins[..k + 1] == ins[..k] + [ins[k]];
        TimedPrefix(ins, k + 1);
        RunSnoc(allowDirect, snaps, ins[..k], after, ins[k]);
        snaps := snaps + [after];
        k := k + 1;
        if o.exit {
          return;
        }
      }
      assert ins[..|ins|] == ins;
    }
  }
}
