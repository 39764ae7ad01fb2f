/** The relay's connection counters, kept from TCP accept to the end of the serving task. */
module RelayAdmission {
  import opened Core

  /** An IP address in its octets. */
  type Source = Bytes

  ghost function Sum(m: map<Source, nat>): nat
    decreases |m|
  {
    if m == map[] then 0
    else
      var k :| k in m;
      m[k] + Sum(m - {k})
  }

  /** `counts` has one positive count per source with live connections, and no other entry. */
  ghost predicate Counts(counts: map<Source, nat>, conns: multiset<Source>) {
    && (forall s | s in counts :: counts[s] == conns[s] > 0)
    && (forall s | s in conns :: s in counts)
  }

  /** The per-source counts add up to the number of connections. */
  lemma {:induction false} CountsSum(counts: map<Source, nat>, conns: multiset<Source>)
    requires Counts(counts, conns)
    ensures Sum(counts) == |conns|
    decreases |counts|
  {
    if counts == map[] {
      if s :| s in conns {
        assert false;
      }
      assert conns == multiset{};
    } else {
      var k :| k in counts && Sum(counts) == counts[k] + Sum(counts - {k});
      var rest := conns[k := 0];
      CountsSum(counts - {k}, rest);
      assert conns == rest + multiset{}[k := conns[k]];
      assert |conns| == |rest| + conns[k];
    }
  }

  class Admission {
    const maxSessions: nat
    /** Not enforced when it is zero. */
    const maxPerSource: nat
    var live: nat
    var bySource: map<Source, nat>
    /** The connections being served, by source. */
    ghost var conns: multiset<Source>

    ghost predicate Valid()
      reads this
    {
      && live == |conns| && Counts(bySource, conns)
      && live <= maxSessions
      && (maxPerSource > 0 ==> forall s | s in bySource :: bySource[s] <= maxPerSource)
    }

    constructor (maxSessions: nat, maxPerSource: nat)
      ensures Valid() && conns == multiset{}
      ensures this.maxSessions == maxSessions && this.maxPerSource == maxPerSource
    {
      this.maxSessions, this.maxPerSource := maxSessions, maxPerSource;
      live, bySource, conns := 0, map[], multiset{};
    }

    /** A new connection; refused before any frame when either cap is reached. */
    method Accept(source: Source) returns (served: bool)
      requires Valid()
      modifies this
      ensures Valid()
      ensures served <==> |old(conns)| < maxSessions && (maxPerSource == 0 || old(conns)[source] < maxPerSource)
      ensures conns == if served then old(conns) + multiset{source} else old(conns)
      ensures live == Sum(bySource)
    {
      var fromSource := if source in bySource then bySource[source] else 0;
      assert fromSource == conns[source];
      served := live < maxSessions && !(maxPerSource > 0 && fromSource >= maxPerSource);
      if served {
        bySource := bySource[source := fromSource + 1];
        live := live + 1;
        conns := conns + multiset{source};
      }
      CountsSum(bySource, conns);
    }

    /** The serving task of a connection from `source` ended. */
    method Finish(source: Source)
      requires Valid() && source in conns
      modifies this
      ensures Valid()
      ensures conns == old(conns) - multiset{source}
      ensures source in bySource <==> old(conns)[source] > 1
      ensures live == Sum(bySource)
    {
      live := live - 1;
      if source in bySource {
        var count := bySource[source] - 1;
        bySource := if count == 0 then bySource - {source} else bySource[source := count];
      }
      conns := conns - multiset{source};
      CountsSum(bySource, conns);
    }
  }
}
