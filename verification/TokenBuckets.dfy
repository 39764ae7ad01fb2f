/**
 The relay's two token buckets: the per-session byte budget and the
 reflector's per-source limiter.  Times and token counts are reals.
 */
module TokenBuckets {
  import opened Core

  type Time = real    // seconds
  type Source = Bytes // an IP address in its octets

  datatype Bucket = Bucket(tokens: real, last: Time)

  function Least(a: real, b: real): real {
    if a < b then a else b
  }

  /** Tokens earned between two times. */
  function Earned(rate: real, start: Time, end: Time): real {
    (end - start) * rate
  }

  /** What a rate allows in so many seconds. */
  function Worth(rate: real, seconds: real): real {
    rate * seconds
  }

  function Refilled(b: Bucket, rate: real, cap: real, now: Time): real {
    Least(b.tokens + Earned(rate, b.last, now), cap)
  }

  /** One request for `amount`: the bucket it leaves and the answer. */
  function Take(b: Bucket, rate: real, cap: real, amount: real, now: Time): (Bucket, bool) {
    var tokens := Refilled(b, rate, cap, now);
    if tokens >= amount then (Bucket(tokens - amount, now), true) else (Bucket(tokens, now), false)
  }

  // ---------------------------------------------------------------------
  // The byte budget
  // ---------------------------------------------------------------------

  class ByteBudget {
    const perSecond: nat
    var tokens: real
    var last: Time

    constructor (perSecond: nat, now: Time)
      ensures this.perSecond == perSecond && tokens == perSecond as real && last == now
    {
      this.perSecond := perSecond;
      tokens, last := perSecond as real, now;
    }

    /** A rate of zero limits nothing. */
    method Allow(bytes: nat, now: Time) returns (ok: bool)
      modifies this
      ensures perSecond == 0 ==> ok && tokens == old(tokens) && last == old(last)
      ensures perSecond > 0 ==>
                (Bucket(tokens, last), ok)
                == Take(Bucket(old(tokens), old(last)), perSecond as real, perSecond as real, bytes as real, now)
    {
      if perSecond == 0 {
        return true;
      }
      var rate, want := perSecond as real, bytes as real;
      tokens := Least(tokens + Earned(rate, last, now), rate);
      last := now;
      if tokens >= want {
        tokens := tokens - want;
        return true;
      }
      return false;
    }
  }

  // ---------------------------------------------------------------------
  // Call sequences on one bucket
  // ---------------------------------------------------------------------

  datatype Call = Call(amount: real, at: Time)

  ghost predicate Ordered(calls: seq<Call>) {
    && (forall k | 0 <= k < |calls| :: calls[k].amount >= 0.0)
    && (forall j, k | 0 <= j <= k < |calls| :: calls[j].at <= calls[k].at)
  }

  ghost function BucketAt(b: Bucket, rate: real, cap: real, calls: seq<Call>, k: nat): Bucket
    requires k <= |calls|
  {
    if k == 0 then b else Take(BucketAt(b, rate, cap, calls, k - 1), rate, cap, calls[k - 1].amount, calls[k - 1].at).0
  }

  ghost predicate AllowedAt(b: Bucket, rate: real, cap: real, calls: seq<Call>, k: nat)
    requires k < |calls|
  {
    Take(BucketAt(b, rate, cap, calls, k), rate, cap, calls[k].amount, calls[k].at).1
  }

  /** What calls `i` up to `j` were granted in all. */
  ghost function Granted(b: Bucket, rate: real, cap: real, calls: seq<Call>, i: nat, j: nat): real
    requires i <= j <= |calls|
  {
    if i == j then 0.0
    else Granted(b, rate, cap, calls, i, j - 1) + if AllowedAt(b, rate, cap, calls, j - 1) then calls[j - 1].amount else 0.0
  }

  lemma EarnedAdds(rate: real, a: Time, b: Time, c: Time)
    ensures Earned(rate, a, b) + Earned(rate, b, c) == Earned(rate, a, c)
  {
  }

  lemma EarnedGrows(rate: real, a: Time, b: Time)
    requires rate >= 0.0 && a <= b
    ensures Earned(rate, a, b) >= 0.0
  {
  }

  /** A longer wait than `n` seconds earns at least `n` times the rate. */
  lemma EarnedAtLeast(rate: real, a: Time, b: Time, n: real)
    requires rate >= 0.0 && b - a >= n
    ensures Earned(rate, a, b) >= n * rate
  {
    EarnedGrows(rate, a, b - n);
    EarnedAdds(rate, a, b - n, b);
    assert Earned(rate, b - n, b) == n * rate;
  }

  lemma BurstPlusEarned(rate: real, n: real, a: Time, b: Time)
    ensures n * rate + Earned(rate, a, b) == Worth(rate, n + (b - a))
  {
  }

  lemma OneSecondPlusEarned(rate: real, a: Time, b: Time)
    ensures rate + Earned(rate, a, b) == Worth(rate, 1.0 + (b - a))
  {
    BurstPlusEarned(rate, 1.0, a, b);
  }

  /** What a request is granted, plus what it leaves, is at most what was there and what was earned. */
  lemma GrantAndLeft(b: Bucket, rate: real, cap: real, amount: real, now: Time)
    ensures var (after, ok) := Take(b, rate, cap, amount, now);
            var total := (if ok then amount else 0.0) + after.tokens;
            total <= cap && total <= b.tokens + Earned(rate, b.last, now) && after.last == now
  {
  }

  lemma GrantStep(b: Bucket, rate: real, cap: real, amount: real, now: Time, granted: real, start: Time)
    requires granted + b.tokens <= cap + Earned(rate, start, b.last)
    ensures var (after, ok) := Take(b, rate, cap, amount, now);
            granted + (if ok then amount else 0.0) + after.tokens <= cap + Earned(rate, start, now)
  {
    GrantAndLeft(b, rate, cap, amount, now);
    EarnedAdds(rate, start, b.last, now);
  }

  lemma TakeLeavesNoDebt(b: Bucket, rate: real, cap: real, amount: real, now: Time)
    requires rate >= 0.0 && cap >= 0.0 && b.tokens >= 0.0 && b.last <= now
    ensures Take(b, rate, cap, amount, now).0.tokens >= 0.0
  {
    EarnedGrows(rate, b.last, now);
  }

  lemma {:induction false} BucketStaysPositive(b: Bucket, rate: real, cap: real, calls: seq<Call>, k: nat)
    requires rate >= 0.0 && cap >= 0.0 && b.tokens >= 0.0 && Ordered(calls) && k <= |calls|
    requires k > 0 ==> b.last <= calls[0].at
    ensures BucketAt(b, rate, cap, calls, k).tokens >= 0.0
    ensures BucketAt(b, rate, cap, calls, k).last == if k == 0 then b.last else calls[k - 1].at
  {
    if k > 0 {
      BucketStaysPositive(b, rate, cap, calls, k - 1);
      TakeLeavesNoDebt(BucketAt(b, rate, cap, calls, k - 1), rate, cap, calls[k - 1].amount, calls[k - 1].at);
    }
  }

  lemma {:induction false} GrantedPlusLeft(b: Bucket, rate: real, cap: real, calls: seq<Call>, i: nat, j: nat)
    requires rate >= 0.0 && cap >= 0.0 && b.tokens >= 0.0 && Ordered(calls) && i < j <= |calls|
    requires b.last <= calls[0].at
    ensures Granted(b, rate, cap, calls, i, j) + BucketAt(b, rate, cap, calls, j).tokens
            <= cap + Earned(rate, calls[i].at, calls[j - 1].at)
    decreases j
  {
    BucketStaysPositive(b, rate, cap, calls, j - 1);
    var before, call := BucketAt(b, rate, cap, calls, j - 1), calls[j - 1];
    if j == i + 1 {
      GrantAndLeft(before, rate, cap, call.amount, call.at);
      assert Granted(b, rate, cap, calls, i, i) == 0.0;
    } else {
      GrantedPlusLeft(b, rate, cap, calls, i, j - 1);
      GrantStep(before, rate, cap, call.amount, call.at, Granted(b, rate, cap, calls, i, j - 1), calls[i].at);
    }
  }

  /**
   For any calls with non-decreasing times, what is granted in any window is
   at most the burst plus the rate times the window's length.
   */
  lemma WindowBound(b: Bucket, rate: real, cap: real, calls: seq<Call>, i: nat, j: nat)
    requires rate >= 0.0 && cap >= 0.0 && b.tokens >= 0.0 && Ordered(calls) && i < j <= |calls|
    requires b.last <= calls[0].at
    ensures Granted(b, rate, cap, calls, i, j) <= cap + Earned(rate, calls[i].at, calls[j - 1].at)
  {
    GrantedPlusLeft(b, rate, cap, calls, i, j);
    BucketStaysPositive(b, rate, cap, calls, j);
  }

  /** A session is granted at most rate * (1 + T) bytes in any window of T seconds. */
  lemma ByteBudgetBound(rate: nat, start: Time, calls: seq<Call>, i: nat, j: nat)
    requires rate > 0 && Ordered(calls) && i < j <= |calls| && start <= calls[0].at
    ensures Granted(Bucket(rate as real, start), rate as real, rate as real, calls, i, j)
            <= Worth(rate as real, 1.0 + (calls[j - 1].at - calls[i].at))
  {
    var r, from, now := rate as real, calls[i].at, calls[j - 1].at;
    WindowBound(Bucket(r, start), r, r, calls, i, j);
    OneSecondPlusEarned(r, from, now);
  }

  /**
   The budget never starves: after a second without calls a request is granted
   exactly when it is no larger than the rate.
   */
  lemma IdleSecondRefills(b: Bucket, rate: real, amount: real, now: Time)
    requires rate > 0.0 && b.tokens >= 0.0 && now - b.last >= 1.0
    ensures Take(b, rate, rate, amount, now).1 <==> amount <= rate
  {
    EarnedAtLeast(rate, b.last, now, 1.0);
  }

  // ---------------------------------------------------------------------
  // The per-source limiter
  // ---------------------------------------------------------------------

  const PRUNE_ABOVE := 10_000
  const IDLE_SECONDS := 60.0

  type Seen = map<Source, Bucket>

  function Entry(seen: Seen, source: Source, burst: real, now: Time): Bucket {
    if source in seen then seen[source] else Bucket(burst, now)
  }

  /** One reflector request with no pruning. */
  function Ask(seen: Seen, rate: real, source: Source, now: Time): (Seen, bool) {
    var (b, ok) := Take(Entry(seen, source, rate * 2.0, now), rate, rate * 2.0, 1.0, now);
    (seen[source := b], ok)
  }

  function Pruned(seen: Seen, at: Time): Seen {
    if |seen| > PRUNE_ABOVE then map s | s in seen && seen[s].last > at - IDLE_SECONDS :: seen[s] else seen
  }

  /** As the limiter does it: prune when the map is large, then answer.  The two clock readings differ. */
  function AskPruning(seen: Seen, rate: real, source: Source, pruneAt: Time, now: Time): (Seen, bool) {
    Ask(Pruned(seen, pruneAt), rate, source, now)
  }

  class SourceLimiter {
    const perSecond: real
    var seen: Seen

    constructor (perSecond: real)
      ensures this.perSecond == perSecond && seen == map[]
    {
      this.perSecond := perSecond;
      seen := map[];
    }

    method Allow(source: Source, pruneAt: Time, now: Time) returns (ok: bool)
      modifies this
      ensures (seen, ok) == AskPruning(old(seen), perSecond, source, pruneAt, now)
    {
      if |seen| > PRUNE_ABOVE {
        var cutoff := pruneAt - IDLE_SECONDS;
        seen := map s | s in seen && seen[s].last > cutoff :: seen[s];
      }
      var burst := perSecond * 2.0;
      var entry := if source in seen then seen[source] else Bucket(burst, now);
      var tokens := Least(entry.tokens + Earned(perSecond, entry.last, now), burst);
      ok := tokens >= 1.0;
      if ok {
        tokens := tokens - 1.0;
      }
      seen := seen[source := Bucket(tokens, now)];
    }
  }

  datatype Request = Request(source: Source, pruneAt: Time, now: Time)

  ghost predicate InOrder(reqs: seq<Request>) {
    && (forall k | 0 <= k < |reqs| :: reqs[k].pruneAt <= reqs[k].now)
    && (forall j, k | 0 <= j < k < |reqs| :: reqs[j].now <= reqs[k].pruneAt)
  }

  ghost function SeenAt(rate: real, reqs: seq<Request>, k: nat): Seen
    requires k <= |reqs|
  {
    if k == 0 then map[] else Ask(SeenAt(rate, reqs, k - 1), rate, reqs[k - 1].source, reqs[k - 1].now).0
  }

  ghost function PrunedSeenAt(rate: real, reqs: seq<Request>, k: nat): Seen
    requires k <= |reqs|
  {
    if k == 0 then map[]
    else
      var r := reqs[k - 1];
      AskPruning(PrunedSeenAt(rate, reqs, k - 1), rate, r.source, r.pruneAt, r.now).0
  }

  ghost predicate Answered(rate: real, reqs: seq<Request>, k: nat)
    requires k < |reqs|
  {
    Ask(SeenAt(rate, reqs, k), rate, reqs[k].source, reqs[k].now).1
  }

  ghost predicate PrunedAnswered(rate: real, reqs: seq<Request>, k: nat)
    requires k < |reqs|
  {
    AskPruning(PrunedSeenAt(rate, reqs, k), rate, reqs[k].source, reqs[k].pruneAt, reqs[k].now).1
  }

  /** Everything pruned so far was idle for a minute at time `t`; the rest is the same. */
  ghost predicate Simulates(full: Seen, small: Seen, t: Time) {
    && (forall s | s in small :: s in full && small[s] == full[s])
    && (forall s | s in full && s !in small :: full[s].last <= t - IDLE_SECONDS)
  }

  ghost predicate NoDebt(full: Seen) {
    forall s | s in full :: full[s].tokens >= 0.0
  }

  /** An entry idle for a minute refills to the full burst, as if it had never been seen. */
  lemma IdleEntryIsFresh(b: Bucket, rate: real, now: Time)
    requires rate >= 0.0 && b.tokens >= 0.0 && b.last <= now - IDLE_SECONDS
    ensures Refilled(b, rate, rate * 2.0, now) == Refilled(Bucket(rate * 2.0, now), rate, rate * 2.0, now)
  {
    EarnedAtLeast(rate, b.last, now, 2.0);
    assert Earned(rate, now, now) == 0.0;
  }

  lemma SameAnswer(full: Seen, small: Seen, rate: real, r: Request)
    requires rate >= 0.0 && NoDebt(full) && Simulates(full, small, r.pruneAt) && r.pruneAt <= r.now
    ensures Ask(full, rate, r.source, r.now).1 == AskPruning(small, rate, r.source, r.pruneAt, r.now).1
    ensures Simulates(Ask(full, rate, r.source, r.now).0, AskPruning(small, rate, r.source, r.pruneAt, r.now).0, r.now)
  {
    var kept := Pruned(small, r.pruneAt);
    assert Simulates(full, kept, r.pruneAt);
    if r.source in full && r.source !in kept {
      IdleEntryIsFresh(full[r.source], rate, r.now);
    }
  }

  lemma AskLeavesNoDebt(full: Seen, rate: real, source: Source, now: Time)
    requires rate >= 0.0 && NoDebt(full) && (source in full ==> full[source].last <= now)
    ensures NoDebt(Ask(full, rate, source, now).0)
  {
    TakeLeavesNoDebt(Entry(full, source, rate * 2.0, now), rate, rate * 2.0, 1.0, now);
  }

  lemma {:induction false} SimulationHolds(rate: real, reqs: seq<Request>, k: nat)
    requires rate >= 0.0 && InOrder(reqs) && k <= |reqs|
    ensures NoDebt(SeenAt(rate, reqs, k))
    ensures forall s | s in SeenAt(rate, reqs, k) :: k > 0 && SeenAt(rate, reqs, k)[s].last <= reqs[k - 1].now
    ensures Simulates(SeenAt(rate, reqs, k), PrunedSeenAt(rate, reqs, k), if k == 0 then 0.0 else reqs[k - 1].now)
  {
    if k > 0 {
      SimulationHolds(rate, reqs, k - 1);
      var full, small, r := SeenAt(rate, reqs, k - 1), PrunedSeenAt(rate, reqs, k - 1), reqs[k - 1];
      assert Simulates(full, small, r.pruneAt);
      assert forall s | s in full :: full[s].last <= r.now;
      AskLeavesNoDebt(full, rate, r.source, r.now);
      SameAnswer(full, small, rate, r);
    }
  }

  /** Pruning is invisible: every request is answered exactly as if no entry were ever forgotten. */
  lemma PruningIsInvisible(rate: real, reqs: seq<Request>, k: nat)
    requires rate >= 0.0 && InOrder(reqs) && k < |reqs|
    ensures Answered(rate, reqs, k) <==> PrunedAnswered(rate, reqs, k)
  {
    SimulationHolds(rate, reqs, k);
    var full, small := SeenAt(rate, reqs, k), PrunedSeenAt(rate, reqs, k);
    assert Simulates(full, small, reqs[k].pruneAt);
    SameAnswer(full, small, rate, reqs[k]);
  }

  /** How many replies `source` got for requests `i` up to `j`. */
  ghost function Replies(rate: real, reqs: seq<Request>, source: Source, i: nat, j: nat): nat
    requires i <= j <= |reqs|
  {
    if i == j then 0
    else Replies(rate, reqs, source, i, j - 1)
         + if reqs[j - 1].source == source && PrunedAnswered(rate, reqs, j - 1) then 1 else 0
  }

  /** Either nothing was replied in the window, or replies and tokens left are within the bound so far. */
  ghost predicate WithinBound(rate: real, full: Seen, source: Source, replies: nat, from: Time) {
    || replies == 0
    || (source in full && full[source].last >= from
        && replies as real + full[source].tokens <= rate * 2.0 + Earned(rate, from, full[source].last))
  }

  lemma BoundStep(rate: real, full: Seen, source: Source, replies: nat, from: Time, now: Time)
    requires rate >= 0.0 && NoDebt(full) && WithinBound(rate, full, source, replies, from)
    requires from <= now && (source in full ==> full[source].last <= now)
    ensures var (after, ok) := Ask(full, rate, source, now);
            WithinBound(rate, after, source, replies + if ok then 1 else 0, from)
  {
    var b := Entry(full, source, rate * 2.0, now);
    GrantAndLeft(b, rate, rate * 2.0, 1.0, now);
    EarnedGrows(rate, from, now);
    if replies > 0 {
      EarnedAdds(rate, from, b.last, now);
    }
  }

  lemma {:induction false} BoundHolds(rate: real, reqs: seq<Request>, source: Source, i: nat, j: nat)
    requires rate >= 0.0 && InOrder(reqs) && i < |reqs| && i <= j <= |reqs|
    ensures WithinBound(rate, SeenAt(rate, reqs, j), source, Replies(rate, reqs, source, i, j), reqs[i].now)
    decreases j
  {
    if i < j {
      BoundHolds(rate, reqs, source, i, j - 1);
      BoundHoldsStep(rate, reqs, source, i, j);
    }
  }

  lemma BoundHoldsStep(rate: real, reqs: seq<Request>, source: Source, i: nat, j: nat)
    requires rate >= 0.0 && InOrder(reqs) && i < j <= |reqs|
    requires WithinBound(rate, SeenAt(rate, reqs, j - 1), source, Replies(rate, reqs, source, i, j - 1), reqs[i].now)
    ensures WithinBound(rate, SeenAt(rate, reqs, j), source, Replies(rate, reqs, source, i, j), reqs[i].now)
  {
    var full, r := SeenAt(rate, reqs, j - 1), reqs[j - 1];
    if r.source == source {
      SimulationHolds(rate, reqs, j - 1);
      PruningIsInvisible(rate, reqs, j - 1);
      BoundStep(rate, full, source, Replies(rate, reqs, source, i, j - 1), reqs[i].now, r.now);
    }
  }

  /** The reflector, pruning included, replies at most rate * (2 + T) times to one source in any window of T seconds. */
  lemma ReflectorBound(rate: real, reqs: seq<Request>, source: Source, i: nat, j: nat)
    requires rate >= 0.0 && InOrder(reqs) && i < j <= |reqs|
    ensures Replies(rate, reqs, source, i, j) as real <= Worth(rate, 2.0 + (reqs[j - 1].now - reqs[i].now))
  {
    BoundHolds(rate, reqs, source, i, j);
    SimulationHolds(rate, reqs, j);
    var full, replies, from, now := SeenAt(rate, reqs, j), Replies(rate, reqs, source, i, j), reqs[i].now, reqs[j - 1].now;
    assert from <= now;
    BoundMeans(rate, full, source, replies, from, now);
  }

  lemma BoundMeans(rate: real, full: Seen, source: Source, replies: nat, from: Time, now: Time)
    requires rate >= 0.0 && NoDebt(full) && WithinBound(rate, full, source, replies, from)
    requires from <= now && (source in full ==> full[source].last <= now)
    ensures replies as real <= Worth(rate, 2.0 + (now - from))
  {
    BurstPlusEarned(rate, 2.0, from, now);
    EarnedGrows(rate, from, now);
    if replies > 0 {
      EarnedGrows(rate, full[source].last, now);
      EarnedAdds(rate, from, full[source].last, now);
    }
  }

  // ---------------------------------------------------------------------
  // Exactly what is granted
  // ---------------------------------------------------------------------

  /** The tokens there for call `k` of a bucket that starts full. */
  ghost function Level(rate: real, cap: real, start: Time, calls: seq<Call>, k: nat): real
    requires k < |calls|
  {
    Refilled(BucketAt(Bucket(cap, start), rate, cap, calls, k), rate, cap, calls[k].at)
  }

  /** What the window from call `i` up to call `k` leaves of the burst and its earnings. */
  ghost function Leaves(rate: real, cap: real, start: Time, calls: seq<Call>, i: nat, k: nat): real
    requires i <= k < |calls|
  {
    cap + Earned(rate, calls[i].at, calls[k].at) - Granted(Bucket(cap, start), rate, cap, calls, i, k)
  }

  lemma LevelIsAtMost(rate: real, cap: real, start: Time, calls: seq<Call>, i: nat, k: nat)
    requires rate >= 0.0 && cap >= 0.0 && Ordered(calls) && i <= k < |calls| && start <= calls[0].at
    ensures Level(rate, cap, start, calls, k) <= Leaves(rate, cap, start, calls, i, k)
  {
    if i < k {
      GrantedPlusLeft(Bucket(cap, start), rate, cap, calls, i, k);
      BucketStaysPositive(Bucket(cap, start), rate, cap, calls, k);
      EarnedAdds(rate, calls[i].at, calls[k - 1].at, calls[k].at);
    }
  }

  /** Some window is tight: the level is the least that any window leaves. */
  lemma {:induction false} SomeWindowIsTight(rate: real, cap: real, start: Time, calls: seq<Call>, k: nat) returns (i: nat)
    requires rate >= 0.0 && cap >= 0.0 && Ordered(calls) && k < |calls| && start <= calls[0].at
    ensures i <= k && Level(rate, cap, start, calls, k) == Leaves(rate, cap, start, calls, i, k)
  {
    var level := Level(rate, cap, start, calls, k);
    BucketStaysPositive(Bucket(cap, start), rate, cap, calls, k);
    if level == cap {
      i := k;
    } else if k == 0 {
      EarnedGrows(rate, start, calls[0].at);
      assert false;
    } else {
      i := SomeWindowIsTight(rate, cap, start, calls, k - 1);
      EarnedAdds(rate, calls[i].at, calls[k - 1].at, calls[k].at);
    }
  }

  /**
   Exactly what a budget grants.  Starting full, it grants a call if and only
   if no window that ends with the call would exceed the burst plus the
   window's earnings: nothing is refused that the bounds allow.
   */
  lemma BudgetIsExact(rate: real, cap: real, start: Time, calls: seq<Call>, k: nat)
    requires rate >= 0.0 && cap >= 0.0 && Ordered(calls) && k < |calls| && start <= calls[0].at
    ensures AllowedAt(Bucket(cap, start), rate, cap, calls, k) <==>
            forall i | 0 <= i <= k :: calls[k].amount <= Leaves(rate, cap, start, calls, i, k)
  {
    forall i | 0 <= i <= k ensures Level(rate, cap, start, calls, k) <= Leaves(rate, cap, start, calls, i, k) {
      LevelIsAtMost(rate, cap, start, calls, i, k);
    }
    var tight := SomeWindowIsTight(rate, cap, start, calls, k);
  }

  /** The tokens there for a request of `source` at `now`, after the first `k` requests. */
  ghost function SourceLevel(rate: real, reqs: seq<Request>, k: nat, source: Source, now: Time): real
    requires k <= |reqs|
  {
    Refilled(Entry(SeenAt(rate, reqs, k), source, rate * 2.0, now), rate, rate * 2.0, now)
  }

  ghost function SourceLeaves(rate: real, reqs: seq<Request>, source: Source, i: nat, k: nat, now: Time): real
    requires i < |reqs| && i <= k <= |reqs|
  {
    rate * 2.0 + Earned(rate, reqs[i].now, now) - Replies(rate, reqs, source, i, k) as real
  }

  lemma SourceLevelIsAtMost(rate: real, reqs: seq<Request>, source: Source, i: nat, k: nat, now: Time)
    requires rate >= 0.0 && InOrder(reqs) && i < |reqs| && i <= k <= |reqs| && (k > 0 ==> reqs[k - 1].now <= now)
    requires reqs[i].now <= now
    ensures SourceLevel(rate, reqs, k, source, now) <= SourceLeaves(rate, reqs, source, i, k, now)
  {
    BoundHolds(rate, reqs, source, i, k);
    EarnedGrows(rate, reqs[i].now, now);
    if Replies(rate, reqs, source, i, k) > 0 {
      EarnedAdds(rate, reqs[i].now, SeenAt(rate, reqs, k)[source].last, now);
    }
  }

  /** The level is the full burst, or what a window that starts with one of the source's own requests leaves. */
  ghost predicate TightWindow(rate: real, reqs: seq<Request>, source: Source, k: nat, now: Time, level: real)
    requires k <= |reqs|
  {
    level == rate * 2.0
    || exists i :: 0 <= i < k && reqs[i].source == source && level == SourceLeaves(rate, reqs, source, i, k, now)
  }

  lemma OtherRequestKeepsWindow(rate: real, reqs: seq<Request>, source: Source, k: nat, now: Time)
    requires 0 < k <= |reqs| && reqs[k - 1].source != source
    requires TightWindow(rate, reqs, source, k - 1, now, SourceLevel(rate, reqs, k - 1, source, now))
    ensures TightWindow(rate, reqs, source, k, now, SourceLevel(rate, reqs, k, source, now))
  {
    var level := SourceLevel(rate, reqs, k - 1, source, now);
    if level != rate * 2.0 {
      var i :| 0 <= i < k - 1 && reqs[i].source == source && level == SourceLeaves(rate, reqs, source, i, k - 1, now);
      assert level == SourceLeaves(rate, reqs, source, i, k, now);
    }
  }

  /** The level after an own request, from the level it found. */
  lemma LevelAfterOwn(rate: real, reqs: seq<Request>, k: nat, now: Time)
    requires 0 < k <= |reqs|
    ensures var r := reqs[k - 1];
            SourceLevel(rate, reqs, k, r.source, now)
            == Least(SourceLevel(rate, reqs, k - 1, r.source, r.now) - (if Answered(rate, reqs, k - 1) then 1.0 else 0.0)
                     + Earned(rate, r.now, now), rate * 2.0)
  {
  }

  lemma OwnRequestKeepsWindow(rate: real, reqs: seq<Request>, k: nat, now: Time)
    requires rate >= 0.0 && InOrder(reqs) && 0 < k <= |reqs|
    requires var r := reqs[k - 1];
      TightWindow(rate, reqs, r.source, k - 1, r.now, SourceLevel(rate, reqs, k - 1, r.source, r.now))
    ensures TightWindow(rate, reqs, reqs[k - 1].source, k, now, SourceLevel(rate, reqs, k, reqs[k - 1].source, now))
  {
    var r := reqs[k - 1];
    var before, level := SourceLevel(rate, reqs, k - 1, r.source, r.now), SourceLevel(rate, reqs, k, r.source, now);
    PruningIsInvisible(rate, reqs, k - 1);
    LevelAfterOwn(rate, reqs, k, now);
    if level != rate * 2.0 {
      if before == rate * 2.0 {
        assert Replies(rate, reqs, r.source, k - 1, k - 1) == 0;
        assert level == SourceLeaves(rate, reqs, r.source, k - 1, k, now);
      } else {
        var i :| 0 <= i < k - 1 && reqs[i].source == r.source && before == SourceLeaves(rate, reqs, r.source, i, k - 1, r.now);
        EarnedAdds(rate, reqs[i].now, r.now, now);
        assert level == SourceLeaves(rate, reqs, r.source, i, k, now);
      }
    }
  }

  lemma {:induction false} SomeSourceWindowIsTight(rate: real, reqs: seq<Request>, source: Source, k: nat, now: Time)
    requires rate >= 0.0 && InOrder(reqs) && k <= |reqs| && (k > 0 ==> reqs[k - 1].now <= now)
    ensures TightWindow(rate, reqs, source, k, now, SourceLevel(rate, reqs, k, source, now))
    decreases k
  {
    if k == 0 {
      assert Earned(rate, now, now) == 0.0;
    } else if reqs[k - 1].source != source {
      SomeSourceWindowIsTight(rate, reqs, source, k - 1, now);
      OtherRequestKeepsWindow(rate, reqs, source, k, now);
    } else {
      SomeSourceWindowIsTight(rate, reqs, source, k - 1, reqs[k - 1].now);
      OwnRequestKeepsWindow(rate, reqs, k, now);
    }
  }

  /**
   Exactly what the reflector answers, pruning included: a request if and only
   if no window that starts with one of its source's requests and ends with it
   would hold more than rate * (2 + T) replies.
   */
  lemma LimiterIsExact(rate: real, reqs: seq<Request>, k: nat)
    requires rate >= 0.0 && InOrder(reqs) && k < |reqs|
    ensures PrunedAnswered(rate, reqs, k) <==>
            forall i | 0 <= i <= k && reqs[i].source == reqs[k].source ::
              1.0 <= SourceLeaves(rate, reqs, reqs[k].source, i, k, reqs[k].now)
  {
    var source, now := reqs[k].source, reqs[k].now;
    PruningIsInvisible(rate, reqs, k);
    forall i | 0 <= i <= k && reqs[i].source == source
      ensures SourceLevel(rate, reqs, k, source, now) <= SourceLeaves(rate, reqs, source, i, k, now)
    {
      SourceLevelIsAtMost(rate, reqs, source, i, k, now);
    }
    SomeSourceWindowIsTight(rate, reqs, source, k, now);
    assert SourceLeaves(rate, reqs, source, k, k, now) == rate * 2.0;
  }

  /** Pruning forgets exactly the sources idle for a minute, and only in a map of more than 10 000. */
  lemma PruneMeaning(seen: Seen, at: Time, s: Source)
    ensures s in Pruned(seen, at) <==> s in seen && (|seen| <= 10_000 || seen[s].last > at - 60.0)
    ensures s in Pruned(seen, at) ==> Pruned(seen, at)[s] == seen[s]
  {
  }
}
