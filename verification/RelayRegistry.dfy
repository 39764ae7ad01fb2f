/**
 The relay's tag registry: which sessions hold which tag.

 `Holders` is the abstract registry (tag to set of session ids); class
 `Registry` keeps the source's lists and is proved against it.
 */
module RelayRegistry {
  import opened Core
  import opened Rendezvous

  /** How many sessions hold a tag at most: the two ends of its pair. */
  const TAG_ENDS := 2

  type SessionId = nat
  type Holders = map<Tag, set<SessionId>>

  function HoldersOf(h: Holders, t: Tag): set<SessionId> {
    if t in h then h[t] else {}
  }

  /** `kept` is what is left of `all` when the smallest ids go until two remain. */
  ghost predicate TwoLargest(all: set<SessionId>, kept: set<SessionId>) {
    && kept <= all
    && |kept| == Min(TAG_ENDS, |all|)
    && forall x, y | x in all && x !in kept && y in kept :: x < y
  }

  /** The holders of `t` once session `id` gave up the tags in `current`. */
  function Left(h: Holders, id: SessionId, current: seq<Tag>, t: Tag): set<SessionId> {
    if t in current then HoldersOf(h, t) - {id} else HoldersOf(h, t)
  }

  /** What replacing `current` by `next` for session `id` makes of the registry. */
  ghost predicate Replaces(h: Holders, h': Holders, id: SessionId, current: seq<Tag>, next: seq<Tag>) {
    && (forall t :: t in next ==> TwoLargest(Left(h, id, current, t) + {id}, HoldersOf(h', t)))
    && (forall t :: t !in next ==> HoldersOf(h', t) == Left(h, id, current, t))
    && forall t :: t in h' ==> h'[t] != {}
  }

  /** Every registered tag has one or two holders. */
  ghost predicate TagsBounded(h: Holders) {
    forall t | t in h :: 1 <= |h[t]| <= TAG_ENDS
  }

  // ---------------------------------------------------------------------
  // Sequences of distinct ids as sets
  // ---------------------------------------------------------------------

  function Elements(s: seq<SessionId>): set<SessionId> {
    set x | x in s
  }

  ghost predicate Distinct(s: seq<SessionId>) {
    forall i, j | 0 <= i < j < |s| :: s[i] != s[j]
  }

  lemma {:induction false} DistinctSize(s: seq<SessionId>)
    requires Distinct(s)
    ensures |Elements(s)| == |s|
  {
    if s != [] {
      var shorter := s[..|s| - 1];
      DistinctSize(shorter);
      assert Elements(s) == Elements(shorter) + {s[|s| - 1]};
    }
  }

  lemma RemoveAt(s: seq<SessionId>, k: nat)
    requires Distinct(s) && k < |s|
    ensures Distinct(s[..k] + s[k + 1..])
    ensures Elements(s[..k] + s[k + 1..]) == Elements(s) - {s[k]}
  {
    var r := s[..k] + s[k + 1..];
    forall i, j | 0 <= i < j < |r| ensures r[i] != r[j] {
      assert r[i] == s[if i < k then i else i + 1] && r[j] == s[if j < k then j else j + 1];
    }
    forall x ensures x in r <==> x in s && x != s[k] {
      if x in s && x != s[k] {
        var i :| 0 <= i < |s| && s[i] == x;
        assert r[if i < k then i else i - 1] == x;
      }
      if x in r {
        var i :| 0 <= i < |r| && r[i] == x;
        assert s[if i < k then i else i + 1] == x;
      }
    }
  }

  /** Dropping the smallest of more than two ids does not change the two largest. */
  lemma TwoLargestWithoutMin(all: set<SessionId>, low: SessionId, kept: set<SessionId>)
    requires |all| > TAG_ENDS && low in all && (forall x | x in all :: low <= x)
    requires TwoLargest(all - {low}, kept)
    ensures TwoLargest(all, kept)
  {
    assert |all - {low}| == |all| - 1;
  }

  lemma TwoLargestOfFew(all: set<SessionId>)
    requires |all| <= TAG_ENDS
    ensures TwoLargest(all, all)
  {
  }

  /** The two largest are determined. */
  lemma TwoLargestUnique(all: set<SessionId>, a: set<SessionId>, b: set<SessionId>)
    requires TwoLargest(all, a) && TwoLargest(all, b)
    ensures a == b
  {
    if x :| x in a && x !in b {
      if y :| y in b && y !in a {
        assert false;
      } else {
        assert b <= a - {x};
        SubsetSize(b, a - {x});
      }
    } else {
      assert a <= b;
      if y :| y in b && y !in a {
        assert a <= b - {y};
        SubsetSize(a, b - {y});
      }
    }
  }

  lemma {:induction false} SubsetSize(a: set<SessionId>, b: set<SessionId>)
    requires a <= b
    ensures |a| <= |b|
    decreases a
  {
    if x :| x in a {
      SubsetSize(a - {x}, b - {x});
    }
  }

  lemma ProperSubsetSize(a: set<SessionId>, b: set<SessionId>)
    requires a < b
    ensures |a| < |b|
  {
    var x :| x in b && x !in a;
    SubsetSize(a, b - {x});
  }

  /** Registering again what is already decided changes nothing. */
  lemma TwoLargestAgain(left: set<SessionId>, id: SessionId, kept: set<SessionId>, again: set<SessionId>)
    requires TwoLargest(left + {id}, kept) && TwoLargest(kept + {id}, again)
    ensures again == kept
  {
    if id in kept {
      assert kept + {id} == kept;
      TwoLargestOfFew(kept);
      TwoLargestUnique(kept, again, kept);
    } else {
      assert kept < left + {id};
      ProperSubsetSize(kept, left + {id});
      assert |kept| == TAG_ENDS;
      assert TwoLargest(kept + {id}, kept);
      TwoLargestUnique(kept + {id}, again, kept);
    }
  }

  /** Adding `id` to every tag of `done`. */
  ghost predicate Added(h: Holders, h': Holders, id: SessionId, done: seq<Tag>) {
    && (forall t :: t in done ==> TwoLargest(HoldersOf(h, t) + {id}, HoldersOf(h', t)))
    && (forall t :: t !in done ==> HoldersOf(h', t) == HoldersOf(h, t))
  }

  /** `x` held `t`, or asked for it, and does not hold it afterwards. */
  ghost predicate Lost(h: Holders, h': Holders, id: SessionId, t: Tag, x: SessionId) {
    x in HoldersOf(h, t) + {id} && x !in HoldersOf(h', t)
  }

  /** `notices` are exactly the sessions that lost a tag of `done`. */
  ghost predicate Told(h: Holders, h': Holders, id: SessionId, done: seq<Tag>, notices: seq<SessionId>) {
    forall x :: x in notices <==> exists t :: t in done && Lost(h, h', id, t, x)
  }

  /** One more tag: only its own holders change, to the two largest. */
  ghost predicate AddsOne(h: Holders, h': Holders, id: SessionId, tag: Tag) {
    && TwoLargest(HoldersOf(h, tag) + {id}, HoldersOf(h', tag))
    && forall t :: t != tag ==> HoldersOf(h', t) == HoldersOf(h, t)
  }

  lemma AddedSnoc(h: Holders, mid: Holders, h': Holders, id: SessionId, done: seq<Tag>, tag: Tag)
    requires Added(h, mid, id, done) && AddsOne(mid, h', id, tag)
    ensures tag in done ==> HoldersOf(h', tag) == HoldersOf(mid, tag)
    ensures Added(h, h', id, done + [tag])
  {
    if tag in done {
      TwoLargestAgain(HoldersOf(h, tag), id, HoldersOf(mid, tag), HoldersOf(h', tag));
    }
    forall t ensures t in done + [tag] ==> TwoLargest(HoldersOf(h, t) + {id}, HoldersOf(h', t)) {
    }
  }

  lemma ToldSnoc(h: Holders, mid: Holders, h': Holders, id: SessionId, done: seq<Tag>, tag: Tag,
                 notices: seq<SessionId>, evicted: seq<SessionId>)
    requires Added(h, mid, id, done) && AddsOne(mid, h', id, tag)
    requires Told(h, mid, id, done, notices)
    requires forall x :: x in evicted <==> Lost(mid, h', id, tag, x)
    ensures Told(h, h', id, done + [tag], notices + evicted)
  {
    AddedSnoc(h, mid, h', id, done, tag);
    var after := done + [tag];
    forall x ensures x in notices + evicted <==> exists t :: t in after && Lost(h, h', id, t, x) {
      LostSnoc(h, mid, h', id, done, tag, x);
    }
  }

  lemma LostSnoc(h: Holders, mid: Holders, h': Holders, id: SessionId, done: seq<Tag>, tag: Tag, x: SessionId)
    requires Added(h, mid, id, done) && AddsOne(mid, h', id, tag)
    requires tag in done ==> HoldersOf(h', tag) == HoldersOf(mid, tag)
    ensures (exists t :: t in done + [tag] && Lost(h, h', id, t, x)) <==>
            (exists t :: t in done && Lost(h, mid, id, t, x)) || Lost(mid, h', id, tag, x)
  {
    if t :| t in done && Lost(h, mid, id, t, x) {
      assert HoldersOf(h', t) == HoldersOf(mid, t);
      assert t in done + [tag] && Lost(h, h', id, t, x);
    }
    if Lost(mid, h', id, tag, x) {
      assert x in HoldersOf(h, tag) + {id};
      assert tag in done + [tag] && Lost(h, h', id, tag, x);
    }
    if t :| t in done + [tag] && Lost(h, h', id, t, x) {
      if t in done {
        assert HoldersOf(h', t) == HoldersOf(mid, t);
        assert Lost(h, mid, id, t, x);
      } else {
        assert t == tag && HoldersOf(mid, tag) == HoldersOf(h, tag);
        assert Lost(mid, h', id, tag, x);
      }
    }
  }

  // ---------------------------------------------------------------------
  // The registry with its lists
  // ---------------------------------------------------------------------

  /** `evicted` are gone from `all`, and the two largest of what is left in `r` are the two largest of `all`. */
  ghost predicate Evicting(all: set<SessionId>, r: seq<SessionId>, evicted: seq<SessionId>) {
    && Distinct(r) && 1 <= |r| && Elements(r) <= all
    && (forall kept :: TwoLargest(Elements(r), kept) ==> TwoLargest(all, kept))
    && Elements(evicted) == all - Elements(r)
  }

  lemma EvictOne(all: set<SessionId>, r: seq<SessionId>, evicted: seq<SessionId>, k: nat)
    requires Evicting(all, r, evicted) && |r| > TAG_ENDS && k < |r|
    requires forall i | 0 <= i < |r| :: r[k] <= r[i]
    ensures Evicting(all, r[..k] + r[k + 1..], evicted + [r[k]])
  {
    var low := r[k];
    DistinctSize(r);
    RemoveAt(r, k);
    forall kept | TwoLargest(Elements(r) - {low}, kept) ensures TwoLargest(Elements(r), kept) {
      TwoLargestWithoutMin(Elements(r), low, kept);
    }
    assert Elements(evicted + [low]) == Elements(evicted) + {low};
  }

  class Registry {
    /** Each list is a tag's sessions in registration order. */
    var tags: map<Tag, seq<SessionId>>

    ghost predicate Valid()
      reads this
    {
      forall t | t in tags :: 1 <= |tags[t]| <= TAG_ENDS && Distinct(tags[t])
    }

    ghost function View(): Holders
      reads this
    {
      map t | t in tags :: Elements(tags[t])
    }

    constructor ()
      ensures Valid() && View() == map[]
    {
      tags := map[];
    }

    /** The entries of every other session, in order. */
    method Without(entries: seq<SessionId>, id: SessionId) returns (r: seq<SessionId>)
      requires Distinct(entries)
      ensures Distinct(r) && Elements(r) == Elements(entries) - {id} && |r| <= |entries|
    {
      r := [];
      for i := 0 to |entries|
        invariant Distinct(r) && |r| <= i
        invariant forall x :: x in r <==> x in entries[..i] && x != id
      {
        if entries[i] != id {
          assert entries[i] !in r;
          r := r + [entries[i]];
        }
        assert entries[..i + 1] == entries[..i] + [entries[i]];
      }
      assert entries[..|entries|] == entries;
    }

    /** The position of the smallest id. */
    method Oldest(entries: seq<SessionId>) returns (k: nat)
      requires entries != []
      ensures k < |entries| && forall i | 0 <= i < |entries| :: entries[k] <= entries[i]
    {
      k := 0;
      for i := 1 to |entries|
        invariant k < |entries| && forall j | 0 <= j < i :: entries[k] <= entries[j]
      {
        if entries[i] < entries[k] {
          k := i;
        }
      }
    }

    /** Push `id` and evict the smallest ids until two are left; `evicted` are told so, in order. */
    method Admit(entries: seq<SessionId>, id: SessionId) returns (r: seq<SessionId>, evicted: seq<SessionId>)
      requires Distinct(entries) && id !in entries
      ensures Distinct(r) && TwoLargest(Elements(entries) + {id}, Elements(r))
      ensures 1 <= |r| <= TAG_ENDS
      ensures Elements(evicted) == Elements(entries) + {id} - Elements(r)
    {
      r, evicted := entries + [id], [];
      ghost var all := Elements(entries) + {id};
      assert Elements(r) == all;
      while |r| > TAG_ENDS
        invariant Evicting(all, r, evicted)
        decreases |r|
      {
        var k := Oldest(r);
        EvictOne(all, r, evicted, k);
        r, evicted := r[..k] + r[k + 1..], evicted + [r[k]];
      }
      DistinctSize(r);
      TwoLargestOfFew(Elements(r));
    }

    method DropOne(id: SessionId, tag: Tag)
      requires Valid()
      modifies this
      ensures Valid()
      ensures forall t :: HoldersOf(View(), t) == if t == tag then HoldersOf(old(View()), t) - {id} else HoldersOf(old(View()), t)
    {
      if tag in tags {
        var entries := Without(tags[tag], id);
        if entries == [] {
          assert Elements(entries) == {};
          tags := tags - {tag};
        } else {
          tags := tags[tag := entries];
        }
      }
    }

    method DropCurrent(id: SessionId, current: seq<Tag>)
      requires Valid()
      modifies this
      ensures Valid()
      ensures forall t :: HoldersOf(View(), t) == Left(old(View()), id, current, t)
    {
      for i := 0 to |current|
        invariant Valid()
        invariant forall t :: HoldersOf(View(), t) == Left(old(View()), id, current[..i], t)
      {
        DropOne(id, current[i]);
        assert current[..i + 1] == current[..i] + [current[i]];
      }
      assert current[..|current|] == current;
    }

    method AddNext(id: SessionId, next: seq<Tag>) returns (notices: seq<SessionId>)
      requires Valid()
      modifies this
      ensures Valid()
      ensures Added(old(View()), View(), id, next) && Told(old(View()), View(), id, next, notices)
    {
      notices := [];
      for i := 0 to |next|
        invariant Valid()
        invariant Added(old(View()), View(), id, next[..i]) && Told(old(View()), View(), id, next[..i], notices)
      {
        ghost var before := View();
        var evicted := AddOne(id, next[i]);
        AddedSnoc(old(View()), before, View(), id, next[..i], next[i]);
        ToldSnoc(old(View()), before, View(), id, next[..i], next[i], notices, evicted);
        notices := notices + evicted;
        assert next[..i + 1] == next[..i] + [next[i]];
      }
      assert next[..|next|] == next;
    }

    method AddOne(id: SessionId, tag: Tag) returns (evicted: seq<SessionId>)
      requires Valid()
      modifies this
      ensures Valid()
      ensures AddsOne(old(View()), View(), id, tag)
      ensures forall x :: x in evicted <==> Lost(old(View()), View(), id, tag, x)
    {
      var entries := if tag in tags then tags[tag] else [];
      if id in entries {
        evicted := [];
        DistinctSize(entries);
        TwoLargestOfFew(Elements(entries));
        assert Elements(entries) + {id} == Elements(entries);
      } else {
        entries, evicted := Admit(entries, id);
        tags := tags[tag := entries];
        assert HoldersOf(View(), tag) == Elements(entries);
        assert forall x :: x in evicted <==> x in Elements(evicted);
      }
    }

    /**
     Replace session `id`'s registrations.  The registrant itself can be the
     one evicted, when both other holders have larger ids.
     */
    method RegisterTags(id: SessionId, current: seq<Tag>, next: seq<Tag>) returns (notices: seq<SessionId>)
      requires Valid()
      modifies this
      ensures Valid()
      ensures Replaces(old(View()), View(), id, current, next)
      ensures forall t, x :: t in next && x in Left(old(View()), id, current, t) + {id} && x !in HoldersOf(View(), t) ==> x in notices
      ensures forall x | x in notices ::
                exists t :: t in next && x in Left(old(View()), id, current, t) + {id} && x !in HoldersOf(View(), t)
    {
      DropCurrent(id, current);
      ghost var mid := View();
      notices := AddNext(id, next);
      ghost var after := View();
      forall x | x in notices ensures exists t :: t in next && x in Left(old(View()), id, current, t) + {id} && x !in HoldersOf(after, t) {
        var t :| t in next && Lost(mid, after, id, t, x);
      }
      forall t, x | t in next && x in Left(old(View()), id, current, t) + {id} && x !in HoldersOf(after, t) ensures x in notices {
        assert Lost(mid, after, id, t, x);
      }
      assert forall t :: t in View() ==> tags[t][0] in View()[t];
    }
  }
}
