/**
 The session loop's decisions as statements about its run: which status each
 iteration reports and why, when probing rounds start, when probes are sent,
 and how a session ends.
 */
module SessionHistory {
  import opened Core
  import opened SessionStatus
  import opened SessionRuns
  import opened History

  // ---------------------------------------------------------------------
  // How an iteration ends
  // ---------------------------------------------------------------------

  /** The failure a closing event is reported as, if any. */
  lemma EndsExactly(allowDirect: bool, snaps: seq<Snapshot>, ins: seq<Input>, k: nat)
    requires IsRun(allowDirect, snaps, ins) && k < |ins|
    ensures snaps[k].trace != []
    ensures var s, s', event, relay := snaps[k], snaps[k + 1], ins[k].event, Noted(snaps[k].locals, ins[k]).relay;
      && (s'.exited <==> event.Supplanted? || event.Closed? || relay == RelaySuperseded || relay == RelayFailed)
      && (event == Supplanted ==> s'.trace == s.trace + [Failed(Superseded)])
      && (event == Closed(IdleTimeout) ==> s'.trace == s.trace + [Failed(TimedOut)])
      && (event == Closed(OtherError) ==> s'.trace == s.trace + [Failed(RelayGone)])
      && (event == Closed(LocallyClosed) || event == Closed(ApplicationClosed) ==> s'.trace == s.trace)
      && (!event.Supplanted? && !event.Closed? ==>
            && (relay == RelaySuperseded ==> s'.trace == s.trace + [Failed(Superseded)])
            && (relay == RelayFailed ==> s'.trace == s.trace + [Failed(RelayGone)])
            && (relay == Connecting || relay == RelayReconnecting ==>
                  s'.trace == if Last(s.trace) == Reconnecting then s.trace else s.trace + [Reconnecting]))
  {
    RunKeepsInv(allowDirect, snaps, ins, k);
    assert StepAt(allowDirect, snaps, ins, k);
    NotFailed(allowDirect, snaps[k]);
    if RelayUp(snaps[k], ins[k]) {
      UpStep(allowDirect, snaps[k], snaps[k + 1], ins[k]);
    } else {
      DownTrace(allowDirect, snaps[k], snaps[k + 1], ins[k]);
    }
  }

  lemma NotFailed(allowDirect: bool, s: Snapshot)
    requires Inv(allowDirect, s) && !s.exited
    ensures !Last(s.trace).Failed?
  {
  }

  lemma DownTrace(allowDirect: bool, s: Snapshot, s': Snapshot, i: Input)
    requires Inv(allowDirect, s) && Next(allowDirect, s, s', i) && !RelayUp(s, i) && !Last(s.trace).Failed?
    ensures var moves := Iterate(allowDirect, s.locals, Last(s.trace), i).moves;
      && |moves| <= 1 && s'.trace == if moves == [] then s.trace else Moved(s.trace, moves[0])
  {
    var moves := Iterate(allowDirect, s.locals, Last(s.trace), i).moves;
    if |moves| == 1 {
      assert moves == [moves[0]];
      MovedAllOne(s.trace, moves[0]);
    }
  }

  // ---------------------------------------------------------------------
  // Facts about the loop's variables
  // ---------------------------------------------------------------------

  type Happening = (Snapshot, Input) -> bool

  function When(snaps: seq<Snapshot>, ins: seq<Input>, happens: Happening): nat -> bool {
    (k: nat) => k < |ins| && k < |snaps| && happens(snaps[k], ins[k])
  }

  ghost predicate ExplainsAt(snaps: seq<Snapshot>, ins: seq<Input>, k: nat, fact: Locals -> bool, began: Happening, ended: Happening)
    requires k < |ins| && |snaps| == |ins| + 1
  {
    fact(snaps[k + 1].locals) <==> began(snaps[k], ins[k]) || (fact(snaps[k].locals) && !ended(snaps[k], ins[k]))
  }

  /** The fact began at an iteration before `j` and has not ended since, or held from the start. */
  ghost predicate HoldsSince(snaps: seq<Snapshot>, ins: seq<Input>, j: nat, initially: bool, began: Happening, ended: Happening) {
    || Since(When(snaps, ins, began), When(snaps, ins, ended), j)
    || (initially && Never(When(snaps, ins, ended), j))
  }

  lemma {:induction false} FactIsHistory(snaps: seq<Snapshot>, ins: seq<Input>, j: nat, fact: Locals -> bool, began: Happening, ended: Happening)
    requires |snaps| == |ins| + 1 && j <= |ins|
    requires forall k | 0 <= k < j :: ExplainsAt(snaps, ins, k, fact, began, ended)
    ensures fact(snaps[j].locals) <==> HoldsSince(snaps, ins, j, fact(snaps[0].locals), began, ended)
  {
    if j > 0 {
      FactIsHistory(snaps, ins, j - 1, fact, began, ended);
      assert ExplainsAt(snaps, ins, j - 1, fact, began, ended);
      SinceStep(When(snaps, ins, began), When(snaps, ins, ended), j - 1);
      NeverStep(When(snaps, ins, ended), j - 1);
    }
  }

  /** What one iteration that does not end the loop leaves in its variables. */
  function LocalsAfter(allowDirect: bool, s: Snapshot, i: Input): Locals
    requires s.trace != []
  {
    if RelayUp(s, i) then WhileUp(allowDirect, Noted(s.locals, i), Underlying(s), i).locals else Noted(s.locals, i)
  }

  lemma LocalsStep(allowDirect: bool, snaps: seq<Snapshot>, ins: seq<Input>, k: nat)
    requires IsRun(allowDirect, snaps, ins) && k < |ins| && !snaps[k + 1].exited
    ensures Inv(allowDirect, snaps[k]) && !snaps[k].exited
    ensures var l := LocalsAfter(allowDirect, snaps[k], ins[k]);
            snaps[k + 1].locals == l.(previous := snaps[k + 1].locals.previous)
  {
    RunKeepsInv(allowDirect, snaps, ins, k);
    assert StepAt(allowDirect, snaps, ins, k);
    if RelayUp(snaps[k], ins[k]) {
      UpStep(allowDirect, snaps[k], snaps[k + 1], ins[k]);
    } else {
      DownStep(allowDirect, snaps[k], snaps[k + 1], ins[k]);
    }
  }

  /** What the pass itself leaves of the relay and the interface bookkeeping. */
  lemma UpKeeps(allowDirect: bool, l: Locals, status: PathStatus, i: Input)
    ensures var after := WhileUp(allowDirect, l, status, i).locals;
      after.relay == l.relay && after.netAlive == l.netAlive
      && after.reannounceAt == if allowDirect && Announces(l, i) then None else l.reannounceAt
  {
  }

  lemma StillRunning(allowDirect: bool, snaps: seq<Snapshot>, ins: seq<Input>, k: nat, j: nat)
    requires IsRun(allowDirect, snaps, ins) && k <= j <= |ins| && !snaps[j].exited
    ensures !snaps[k].exited
  {
    if k < j {
      assert StepAt(allowDirect, snaps, ins, k);
    }
  }

  // ---------------------------------------------------------------------
  // The relay
  // ---------------------------------------------------------------------

  /** What an iteration learns of the relay: the driver it switched to, else the event it woke on. */
  function Report(i: Input): Option<RelayStatus> {
    if i.switched.Some? then i.switched else if i.event.RelayEvent? then Some(i.event.status) else None
  }

  function Reports(r: RelayStatus): Happening {
    (s: Snapshot, i: Input) => Report(i) == Some(r)
  }

  function ReportsAny(): Happening {
    (s: Snapshot, i: Input) => Report(i).Some?
  }

  function RelayFact(r: RelayStatus): Locals -> bool {
    (l: Locals) => l.relay == r
  }

  lemma RelayStep(allowDirect: bool, s: Snapshot, i: Input)
    requires s.trace != []
    ensures LocalsAfter(allowDirect, s, i).relay == Noted(s.locals, i).relay
    ensures Noted(s.locals, i).relay == if Report(i).Some? then Report(i).value else s.locals.relay
  {
    UpKeeps(allowDirect, Noted(s.locals, i), Underlying(s), i);
  }

  /** The relay status the loop acts on is the latest one reported to it. */
  lemma RelayIsLatestReport(allowDirect: bool, snaps: seq<Snapshot>, ins: seq<Input>, j: nat, r: RelayStatus)
    requires IsRun(allowDirect, snaps, ins) && j <= |ins| && !snaps[j].exited
    ensures snaps[j].locals.relay == r <==> HoldsSince(snaps, ins, j, snaps[0].locals.relay == r, Reports(r), ReportsAny())
  {
    forall k | 0 <= k < j ensures ExplainsAt(snaps, ins, k, RelayFact(r), Reports(r), ReportsAny()) {
      StillRunning(allowDirect, snaps, ins, k + 1, j);
      LocalsStep(allowDirect, snaps, ins, k);
      RelayStep(allowDirect, snaps[k], ins[k]);
    }
    FactIsHistory(snaps, ins, j, RelayFact(r), Reports(r), ReportsAny());
  }

  // ---------------------------------------------------------------------
  // Interface changes
  // ---------------------------------------------------------------------

  /** A re-announcement is due now: 300 ms have passed since the change it is for. */
  predicate DueNow(s: Snapshot, i: Input) {
    var at := if i.event.InterfaceChanged? && s.locals.netAlive then Some(i.clock.netAt + 300) else s.locals.reannounceAt;
    at.Some? && i.clock.dueAt >= at.value
  }

  lemma AnnouncesWhenDue(s: Snapshot, i: Input)
    ensures Announces(Noted(s.locals, i), i) <==> DueNow(s, i)
  {
  }

  /** Another change, or the re-announcement it was for. */
  function ChangeHandled(allowDirect: bool): Happening {
    (s: Snapshot, i: Input) =>
      || (i.event.InterfaceChanged? && s.locals.netAlive)
      || (allowDirect && RelayUp(s, i) && DueNow(s, i))
  }

  /** An interface change whose re-announcement is due at `t` and is not made at once. */
  function ChangedUnannounced(allowDirect: bool, t: Time): Happening {
    (s: Snapshot, i: Input) =>
      && i.event.InterfaceChanged? && s.locals.netAlive && t == i.clock.netAt + 300
      && !(allowDirect && RelayUp(s, i) && DueNow(s, i))
  }

  function DueFact(t: Time): Locals -> bool {
    (l: Locals) => l.reannounceAt == Some(t)
  }

  function MonitorEnds(): Happening {
    (s: Snapshot, i: Input) => i.event.InterfaceMonitorEnded?
  }

  function Nothing(): Happening {
    (s: Snapshot, i: Input) => false
  }

  function AliveFact(): Locals -> bool {
    (l: Locals) => l.netAlive
  }

  lemma AliveStep(allowDirect: bool, s: Snapshot, i: Input)
    requires s.trace != []
    ensures LocalsAfter(allowDirect, s, i).netAlive <==> s.locals.netAlive && !i.event.InterfaceMonitorEnded?
  {
    UpKeeps(allowDirect, Noted(s.locals, i), Underlying(s), i);
  }

  /** Interface changes are listened to until the monitor ends. */
  lemma MonitorIsHeardUntilItEnds(allowDirect: bool, snaps: seq<Snapshot>, ins: seq<Input>, j: nat)
    requires IsRun(allowDirect, snaps, ins) && j <= |ins| && !snaps[j].exited
    ensures snaps[j].locals.netAlive <==> Never(When(snaps, ins, MonitorEnds()), j)
  {
    forall k | 0 <= k < j ensures ExplainsAt(snaps, ins, k, AliveFact(), Nothing(), MonitorEnds()) {
      StillRunning(allowDirect, snaps, ins, k + 1, j);
      LocalsStep(allowDirect, snaps, ins, k);
      AliveStep(allowDirect, snaps[k], ins[k]);
    }
    FactIsHistory(snaps, ins, j, AliveFact(), Nothing(), MonitorEnds());
  }

  lemma ReannounceStep(allowDirect: bool, s: Snapshot, i: Input, t: Time)
    requires Inv(allowDirect, s) && !s.exited
    ensures LocalsAfter(allowDirect, s, i).reannounceAt == Some(t) <==>
      || ChangedUnannounced(allowDirect, t)(s, i)
      || (s.locals.reannounceAt == Some(t) && !ChangeHandled(allowDirect)(s, i))
  {
    UpKeeps(allowDirect, Noted(s.locals, i), Underlying(s), i);
  }

  /** A re-announcement is due 300 ms after the latest interface change, until an iteration makes it. */
  lemma ReannounceIsDue(allowDirect: bool, snaps: seq<Snapshot>, ins: seq<Input>, j: nat, t: Time)
    requires IsRun(allowDirect, snaps, ins) && j <= |ins| && !snaps[j].exited
    ensures snaps[j].locals.reannounceAt == Some(t) <==>
      HoldsSince(snaps, ins, j, false, ChangedUnannounced(allowDirect, t), ChangeHandled(allowDirect))
  {
    forall k | 0 <= k < j ensures ExplainsAt(snaps, ins, k, DueFact(t), ChangedUnannounced(allowDirect, t), ChangeHandled(allowDirect)) {
      StillRunning(allowDirect, snaps, ins, k + 1, j);
      LocalsStep(allowDirect, snaps, ins, k);
      ReannounceStep(allowDirect, snaps[k], ins[k], t);
    }
    FactIsHistory(snaps, ins, j, DueFact(t), ChangedUnannounced(allowDirect, t), ChangeHandled(allowDirect));
  }

  // ---------------------------------------------------------------------
  // When the next round may start
  // ---------------------------------------------------------------------

  /** The proof the iteration read is under 15 s old. */
  predicate SeesFreshProof(i: Input) {
    i.provedAt.Some? && i.clock.freshAt - i.provedAt.value < 15_000
  }

  /** Someone asks for a round in this iteration: this side, the peer, or a due re-announcement. */
  predicate Asks(s: Snapshot, i: Input) {
    i.asked == Here || i.asked == Asked.Peer || DueNow(s, i)
  }

  /** The iteration gives up a round at its deadline, or finds the proof of a direct path gone or old. */
  predicate GivesUp(s: Snapshot, i: Input)
    requires s.trace != []
  {
    && !SeesFreshProof(i)
    && ((Underlying(s) == Probing && s.locals.roundEnds.Some? && i.clock.endAt >= s.locals.roundEnds.value) || Underlying(s) == Direct)
  }

  /** The time from which a round may start, when this iteration sets it. */
  function SetsAttempt(s: Snapshot, i: Input): Option<Time> {
    if s.trace == [] || !RelayUp(s, i) then None
    else if GivesUp(s, i) then Some(i.clock.coolAt + 30_000)
    else if Asks(s, i) then Some(i.clock.askedAt)
    else None
  }

  function AttemptSetTo(t: Time): Happening {
    (s: Snapshot, i: Input) => SetsAttempt(s, i) == Some(t)
  }

  function AttemptSet(): Happening {
    (s: Snapshot, i: Input) => SetsAttempt(s, i).Some?
  }

  function AttemptFact(t: Time): Locals -> bool {
    (l: Locals) => l.nextAttempt == t
  }

  lemma AttemptStep(s: Snapshot, i: Input)
    requires Inv(true, s) && !s.exited
    ensures LocalsAfter(true, s, i).nextAttempt
         == if SetsAttempt(s, i).Some? then SetsAttempt(s, i).value else s.locals.nextAttempt
  {
    if RelayUp(s, i) {
      AskingAttempt(Noted(s.locals, i), i);
      if Underlying(s) == Relayed {
        assert !GivesUp(s, i);
      }
    }
  }

  /** A request makes a round startable and probes due; nothing else of them changes before the status is looked at. */
  lemma AskingAttempt(l: Locals, i: Input)
    ensures Asking(l, i).nextAttempt == if Requested(l, i) then i.clock.askedAt else l.nextAttempt
    ensures Asking(l, i).roundEnds == l.roundEnds
  {
  }

  /** A round may start 30 s after the last failure, or at once after a later request; at first, after the settle delay. */
  ghost predicate AttemptFrom(snaps: seq<Snapshot>, ins: seq<Input>, j: nat, t: Time)
    requires |snaps| > 0
  {
    HoldsSince(snaps, ins, j, snaps[0].locals.nextAttempt == t, AttemptSetTo(t), AttemptSet())
  }

  lemma AttemptIsLastSet(snaps: seq<Snapshot>, ins: seq<Input>, j: nat, t: Time)
    requires IsRun(true, snaps, ins) && j <= |ins| && !snaps[j].exited
    ensures snaps[j].locals.nextAttempt == t <==> AttemptFrom(snaps, ins, j, t)
  {
    forall k | 0 <= k < j ensures ExplainsAt(snaps, ins, k, AttemptFact(t), AttemptSetTo(t), AttemptSet()) {
      StillRunning(true, snaps, ins, k + 1, j);
      LocalsStep(true, snaps, ins, k);
      AttemptStep(snaps[k], ins[k]);
    }
    FactIsHistory(snaps, ins, j, AttemptFact(t), AttemptSetTo(t), AttemptSet());
  }

  // ---------------------------------------------------------------------
  // The status table
  // ---------------------------------------------------------------------

  /** What a relay-up iteration makes of the status it found. */
  lemma UpTable(l: Locals, status: PathStatus, i: Input)
    requires Carrying(status) && i.clock.Forward()
    ensures var after := SessionRuns.After(status, WhileUp(true, l, status, i).moves);
      && (after == Direct <==> SeesFreshProof(i))
      && (after == Probing <==>
            && !SeesFreshProof(i)
            && match status
               case Relayed => i.candidates > 0 && (Requested(l, i) || i.clock.gateAt >= l.nextAttempt)
               case Probing => !(l.roundEnds.Some? && i.clock.endAt >= l.roundEnds.value)
               case _ => false)
      && (after == Direct || after == Probing || after == Relayed)
  {
  }

  /**
   When a round starts.  A relay-up iteration that finds the session Relayed
   ends Probing if and only if it sees no fresh proof, the peer listed a
   candidate, and someone asks for a round or the time for one has come: 30 s
   after the last failure, at once after a later request, or the settle delay.
   */
  lemma RoundStartsExactly(snaps: seq<Snapshot>, ins: seq<Input>, k: nat)
    requires IsRun(true, snaps, ins) && k < |ins| && RelayUp(snaps[k], ins[k])
    requires snaps[k].trace != [] && Underlying(snaps[k]) == Relayed
    ensures snaps[k + 1].trace != []
    ensures Last(snaps[k + 1].trace) == Probing <==>
      && !SeesFreshProof(ins[k]) && ins[k].candidates >= 1
      && (Asks(snaps[k], ins[k]) || exists t :: AttemptFrom(snaps, ins, k, t) && ins[k].clock.gateAt >= t)
  {
    UpAt(snaps, ins, k);
    AttemptIsLastSet(snaps, ins, k, snaps[k].locals.nextAttempt);
    if t :| AttemptFrom(snaps, ins, k, t) && ins[k].clock.gateAt >= t {
      AttemptIsLastSet(snaps, ins, k, t);
    }
  }

  lemma UpAt(snaps: seq<Snapshot>, ins: seq<Input>, k: nat)
    requires IsRun(true, snaps, ins) && k < |ins| && RelayUp(snaps[k], ins[k])
    ensures !snaps[k].exited && Inv(true, snaps[k]) && snaps[k + 1].trace != [] && Carrying(Underlying(snaps[k]))
    ensures var l, status, i := Noted(snaps[k].locals, ins[k]), Underlying(snaps[k]), ins[k];
      var last := Last(snaps[k + 1].trace);
      && (last == Direct <==> SeesFreshProof(i))
      && (last == Probing <==>
            && !SeesFreshProof(i)
            && match status
               case Relayed => i.candidates > 0 && (Requested(l, i) || i.clock.gateAt >= snaps[k].locals.nextAttempt)
               case Probing => !(snaps[k].locals.roundEnds.Some? && i.clock.endAt >= snaps[k].locals.roundEnds.value)
               case _ => false)
      && (last == Direct || last == Probing || last == Relayed)
  {
    RunKeepsInv(true, snaps, ins, k);
    assert StepAt(true, snaps, ins, k);
    UpStep(true, snaps[k], snaps[k + 1], ins[k]);
    UpTable(Noted(snaps[k].locals, ins[k]), Underlying(snaps[k]), ins[k]);
  }

  /** The other two statuses: a round ends in Direct on a fresh proof and in Relayed at its deadline; Direct ends without one. */
  lemma RoundEndsExactly(snaps: seq<Snapshot>, ins: seq<Input>, k: nat)
    requires IsRun(true, snaps, ins) && k < |ins| && RelayUp(snaps[k], ins[k])
    requires snaps[k].trace != [] && (Underlying(snaps[k]) == Probing || Underlying(snaps[k]) == Direct)
    ensures snaps[k + 1].trace != []
    ensures Last(snaps[k + 1].trace) == Direct <==> SeesFreshProof(ins[k])
    ensures Last(snaps[k + 1].trace) == Relayed <==> GivesUp(snaps[k], ins[k])
  {
    UpAt(snaps, ins, k);
  }

  // ---------------------------------------------------------------------
  // Probes
  // ---------------------------------------------------------------------

  /** How many probing rounds an iteration sends. */
  function Sends(s: Snapshot, i: Input): nat
    requires s.trace != []
  {
    Iterate(true, s.locals, Last(s.trace), i).probes
  }

  /** The time probes count as last sent, when this iteration sets it: the sending, or a request that makes them due. */
  function SetsProbeClock(s: Snapshot, i: Input): Option<Time> {
    if s.trace == [] || !RelayUp(s, i) then None
    else if Sends(s, i) > 0 then Some(i.clock.sentAt)
    else if Asks(s, i) then Some(if i.clock.askedAt >= 5_000 then i.clock.askedAt - 5_000 else i.clock.askedAt)
    else None
  }

  function ProbeClockSetTo(t: Time): Happening {
    (s: Snapshot, i: Input) => SetsProbeClock(s, i) == Some(t)
  }

  function ProbeClockSet(): Happening {
    (s: Snapshot, i: Input) => SetsProbeClock(s, i).Some?
  }

  function ProbeFact(t: Time): Locals -> bool {
    (l: Locals) => l.lastProbe == t
  }

  lemma SendsWhileUp(s: Snapshot, i: Input)
    requires Inv(true, s) && !s.exited
    ensures Sends(s, i) == if RelayUp(s, i) then WhileUp(true, Noted(s.locals, i), Underlying(s), i).probes else 0
  {
  }

  lemma ProbeClockStep(s: Snapshot, i: Input)
    requires Inv(true, s) && !s.exited
    ensures LocalsAfter(true, s, i).lastProbe
         == if SetsProbeClock(s, i).Some? then SetsProbeClock(s, i).value else s.locals.lastProbe
  {
    SendsWhileUp(s, i);
    if RelayUp(s, i) {
      var l := Noted(s.locals, i);
      SendingSetsClock(l, Underlying(s), i);
      AnnouncesWhenDue(s, i);
    }
  }

  lemma SendingSetsClock(l: Locals, status: PathStatus, i: Input)
    ensures var o := WhileUp(true, l, status, i);
      o.locals.lastProbe == if o.probes > 0 then i.clock.sentAt
                            else if Requested(l, i) then ReproveDue(i.clock.askedAt)
                            else l.lastProbe
  {
  }

  /** Probes were last sent, or last made due, at `t`. */
  ghost predicate ProbedFrom(snaps: seq<Snapshot>, ins: seq<Input>, j: nat, t: Time)
    requires |snaps| > 0
  {
    HoldsSince(snaps, ins, j, snaps[0].locals.lastProbe == t, ProbeClockSetTo(t), ProbeClockSet())
  }

  lemma ProbeClockIsLastSet(snaps: seq<Snapshot>, ins: seq<Input>, j: nat, t: Time)
    requires IsRun(true, snaps, ins) && j <= |ins| && !snaps[j].exited
    ensures snaps[j].locals.lastProbe == t <==> ProbedFrom(snaps, ins, j, t)
  {
    forall k | 0 <= k < j ensures ExplainsAt(snaps, ins, k, ProbeFact(t), ProbeClockSetTo(t), ProbeClockSet()) {
      StillRunning(true, snaps, ins, k + 1, j);
      LocalsStep(true, snaps, ins, k);
      ProbeClockStep(snaps[k], ins[k]);
    }
    FactIsHistory(snaps, ins, j, ProbeFact(t), ProbeClockSetTo(t), ProbeClockSet());
  }

  /** The time probes count as last sent within iteration `k`, a request of that iteration included. */
  ghost predicate ProbeClock(snaps: seq<Snapshot>, ins: seq<Input>, k: nat, t: Time)
    requires k < |ins| && |snaps| == |ins| + 1
  {
    if Asks(snaps[k], ins[k]) then
      t == if ins[k].clock.askedAt >= 5_000 then ins[k].clock.askedAt - 5_000 else ins[k].clock.askedAt
    else ProbedFrom(snaps, ins, k, t)
  }

  /**
   When probes are sent.  An iteration sends one round of probes when it
   starts a round, when it stays in a round without a fresh proof and the last
   were sent 500 ms ago, and when it stays Direct and the last were sent 5 s
   ago; in every other iteration it sends none.
   */
  lemma ProbesExactly(snaps: seq<Snapshot>, ins: seq<Input>, k: nat)
    requires IsRun(true, snaps, ins) && k < |ins| && snaps[k].trace != [] && snaps[k + 1].trace != []
    ensures Sends(snaps[k], ins[k]) ==
      if !RelayUp(snaps[k], ins[k]) then 0
      else
        match Underlying(snaps[k])
        case Relayed => if Last(snaps[k + 1].trace) == Probing then 1 else 0
        case Probing =>
          if !SeesFreshProof(ins[k]) && exists t :: ProbeClock(snaps, ins, k, t) && ins[k].clock.gateAt - t >= 500 then 1 else 0
        case Direct =>
          if SeesFreshProof(ins[k]) && exists t :: ProbeClock(snaps, ins, k, t) && ins[k].clock.gateAt - t >= 5_000 then 1 else 0
        case _ => 0
  {
    RunKeepsInv(true, snaps, ins, k);
    assert StepAt(true, snaps, ins, k);
    SendsWhileUp(snaps[k], ins[k]);
    if RelayUp(snaps[k], ins[k]) {
      UpAt(snaps, ins, k);
      ProbeClockAt(snaps, ins, k);
      assert ProbeClock(snaps, ins, k, Asking(Noted(snaps[k].locals, ins[k]), ins[k]).lastProbe);
    }
  }

  lemma ProbeClockAt(snaps: seq<Snapshot>, ins: seq<Input>, k: nat)
    requires IsRun(true, snaps, ins) && k < |ins| && !snaps[k].exited
    ensures forall t :: ProbeClock(snaps, ins, k, t) <==> t == Asking(Noted(snaps[k].locals, ins[k]), ins[k]).lastProbe
  {
    forall t ensures snaps[k].locals.lastProbe == t <==> ProbedFrom(snaps, ins, k, t) {
      ProbeClockIsLastSet(snaps, ins, k, t);
    }
  }

  // ---------------------------------------------------------------------
  // The rest of the table
  // ---------------------------------------------------------------------

  /** The loop drops the peer's proof exactly when it finds itself Direct without a fresh one. */
  lemma DropsExactly(snaps: seq<Snapshot>, ins: seq<Input>, k: nat)
    requires IsRun(true, snaps, ins) && k < |ins| && snaps[k].trace != []
    ensures Iterate(true, snaps[k].locals, Last(snaps[k].trace), ins[k]).dropsDirect <==>
      RelayUp(snaps[k], ins[k]) && Underlying(snaps[k]) == Direct && !SeesFreshProof(ins[k])
  {
    RunKeepsInv(true, snaps, ins, k);
    assert StepAt(true, snaps, ins, k);
  }

  /** A session that declines direct paths sends no probe and drops no proof. */
  lemma DeclinedSendsNothing(l: Locals, status: PathStatus, i: Input)
    ensures var o := Iterate(false, l, status, i); o.probes == 0 && !o.dropsDirect
  {
  }

  /** The first round waits for the settle delay, and the first probes are due at once. */
  lemma StartsSettled(relay: RelayStatus, now: Time, delay: Time)
    ensures var l := Initially(relay, now, delay);
      && l.relay == relay && l.nextAttempt == now + delay && l.roundEnds == None && l.reannounceAt == None && l.netAlive
      && l.lastProbe == if now >= 5_000 then now - 5_000 else now
  {
  }
}
