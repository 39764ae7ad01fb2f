/**
 Sequences whose elements are of two kinds, told apart by a predicate: picking
 one kind out, and removing the first elements of that kind.
 */
module Selection {
  import opened Core

  /** The elements on which `p` is `want`, in order. */
  function Select<T>(q: seq<T>, p: T -> bool, want: bool): seq<T> {
    if q == [] then [] else Select(q[..|q| - 1], p, want) + Pick(q[|q| - 1], p, want)
  }

  function Pick<T>(x: T, p: T -> bool, want: bool): seq<T> {
    if p(x) == want then [x] else []
  }

  function Total<T>(q: seq<T>, size: T -> nat): nat {
    if q == [] then 0 else Total(q[..|q| - 1], size) + size(q[|q| - 1])
  }

  /** The position of the first element satisfying `p`. */
  function First<T>(q: seq<T>, p: T -> bool): (k: Option<nat>)
    ensures k.Some? ==> k.value < |q| && p(q[k.value]) && forall i | 0 <= i < k.value :: !p(q[i])
    ensures k.None? <==> forall i | 0 <= i < |q| :: !p(q[i])
  {
    if q == [] then None
    else
      var shorter := q[..|q| - 1];
      match First(shorter, p)
      case Some(k) => Some(k)
      case None =>
        assert forall i | 0 <= i < |shorter| :: q[i] == shorter[i];
        if p(q[|q| - 1]) then Some(|q| - 1) else None
  }

  function Without<T>(q: seq<T>, k: nat): (r: seq<T>)
    requires k < |q|
    ensures |r| == |q| - 1
  {
    q[..k] + q[k + 1..]
  }

  /** `q` without its first `n` elements satisfying `p`, or without any when it has fewer. */
  function DropFirst<T>(q: seq<T>, p: T -> bool, n: nat): seq<T> {
    if n == 0 || First(q, p).None? then q else DropFirst(Without(q, First(q, p).value), p, n - 1)
  }

  // ---------------------------------------------------------------------
  // Concatenation
  // ---------------------------------------------------------------------

  lemma {:induction false} SelectConcat<T>(a: seq<T>, b: seq<T>, p: T -> bool, want: bool)
    ensures Select(a + b, p, want) == Select(a, p, want) + Select(b, p, want)
  {
    if b == [] {
      assert a + b == a;
    } else {
      var shorter, last := b[..|b| - 1], b[|b| - 1];
      SelectConcat(a, shorter, p, want);
      assert (a + b)[..|a + b| - 1] == a + shorter;
      assert Select(a + b, p, want) == Select(a + shorter, p, want) + Pick(last, p, want);
    }
  }

  lemma {:induction false} TotalConcat<T>(a: seq<T>, b: seq<T>, size: T -> nat)
    ensures Total(a + b, size) == Total(a, size) + Total(b, size)
  {
    if b == [] {
      assert a + b == a;
    } else {
      TotalConcat(a, b[..|b| - 1], size);
      assert (a + b)[..|a + b| - 1] == a + b[..|b| - 1];
    }
  }

  lemma SelectOne<T>(x: T, p: T -> bool, want: bool)
    ensures Select([x], p, want) == Pick(x, p, want)
  {
    assert [x][..0] == [];
  }

  lemma TotalOne<T>(x: T, size: T -> nat)
    ensures Total([x], size) == size(x)
  {
    assert [x][..0] == [];
  }

  lemma {:induction false} SelectNone<T>(q: seq<T>, p: T -> bool)
    requires forall i | 0 <= i < |q| :: !p(q[i])
    ensures Select(q, p, true) == [] && Select(q, p, false) == q
  {
    if q != [] {
      SelectNone(q[..|q| - 1], p);
      assert q == q[..|q| - 1] + [q[|q| - 1]];
    }
  }

  lemma {:induction false} SelectAll<T>(q: seq<T>, p: T -> bool)
    requires Select(q, p, true) == []
    ensures Select(q, p, false) == q
  {
    if q != [] {
      SelectAll(q[..|q| - 1], p);
      assert q == q[..|q| - 1] + [q[|q| - 1]];
    }
  }

  lemma {:induction false} TwoKinds<T>(q: seq<T>, p: T -> bool, size: T -> nat)
    ensures |q| == |Select(q, p, false)| + |Select(q, p, true)|
    ensures Total(q, size) >= Total(Select(q, p, false), size)
  {
    if q != [] {
      var shorter, last := q[..|q| - 1], q[|q| - 1];
      TwoKinds(shorter, p, size);
      TotalConcat(Select(shorter, p, false), Pick(last, p, false), size);
      TotalOne(last, size);
    }
  }

  // ---------------------------------------------------------------------
  // Removing
  // ---------------------------------------------------------------------

  lemma SelectBetween<T>(before: seq<T>, x: T, after: seq<T>, p: T -> bool, want: bool)
    ensures Select(before + ([x] + after), p, want) == Select(before, p, want) + (Pick(x, p, want) + Select(after, p, want))
    ensures Select(before + after, p, want) == Select(before, p, want) + Select(after, p, want)
  {
    SelectConcat(before, [x] + after, p, want);
    SelectConcat([x], after, p, want);
    SelectConcat(before, after, p, want);
    SelectOne(x, p, want);
  }

  lemma EmptyFront<T>(c: seq<T>)
    ensures [] + c == c
  {
  }

  lemma KeepBetween<T>(before: seq<T>, x: T, after: seq<T>, p: T -> bool)
    requires p(x)
    ensures Select(before + after, p, false) == Select(before + ([x] + after), p, false)
  {
    SelectBetween(before, x, after, p, false);
    EmptyFront(Select(after, p, false));
  }

  lemma TakeBetween<T>(before: seq<T>, x: T, after: seq<T>, p: T -> bool)
    requires p(x) && forall i | 0 <= i < |before| :: !p(before[i])
    ensures Select(before + ([x] + after), p, true) == [x] + Select(before + after, p, true)
  {
    SelectBetween(before, x, after, p, true);
    assert Select(before, p, true) == [] by { SelectNone(before, p); }
    EmptyFront(Select(after, p, true));
    EmptyFront([x] + Select(after, p, true));
  }

  /** Removing the first element of a kind takes away the first of that kind and nothing else. */
  lemma RemoveFirst<T>(q: seq<T>, p: T -> bool)
    requires First(q, p).Some?
    ensures var k := First(q, p).value;
            && Select(Without(q, k), p, false) == Select(q, p, false)
            && Select(q, p, true) == [q[k]] + Select(Without(q, k), p, true)
  {
    var k := First(q, p).value;
    KeepBetween(q[..k], q[k], q[k + 1..], p);
    TakeBetween(q[..k], q[k], q[k + 1..], p);
    SplitAt(q, k);
  }

  lemma TotalBetween<T>(before: seq<T>, x: T, after: seq<T>, size: T -> nat)
    ensures Total(before + ([x] + after), size) == Total(before + after, size) + size(x)
  {
    TotalConcat(before, [x] + after, size);
    TotalConcat([x], after, size);
    TotalConcat(before, after, size);
    TotalOne(x, size);
  }

  lemma RemoveTotal<T>(q: seq<T>, k: nat, size: T -> nat)
    requires k < |q|
    ensures Total(q, size) == Total(Without(q, k), size) + size(q[k])
  {
    TotalBetween(q[..k], q[k], q[k + 1..], size);
    SplitAt(q, k);
  }

  lemma SplitAt<T>(q: seq<T>, k: nat)
    requires k < |q|
    ensures q == q[..k] + ([q[k]] + q[k + 1..])
  {
  }

  lemma TailOfCons<T>(x: T, q: seq<T>, n: nat)
    requires 0 < n <= |q| + 1
    ensures ([x] + q)[n..] == q[n - 1..]
  {
  }

  lemma SomeFirst<T>(q: seq<T>, p: T -> bool)
    ensures First(q, p).Some? <==> Select(q, p, true) != []
  {
    if First(q, p).None? {
      SelectNone(q, p);
    } else {
      RemoveFirst(q, p);
    }
  }

  lemma {:induction false} DropFirstKeeps<T>(q: seq<T>, p: T -> bool, n: nat, left: seq<T>)
    requires left == DropFirst(q, p, n)
    ensures Select(left, p, false) == Select(q, p, false)
    decreases n
  {
    if n > 0 && First(q, p).Some? {
      var rest := Without(q, First(q, p).value);
      assert Select(rest, p, false) == Select(q, p, false) by { RemoveFirst(q, p); }
      DropFirstKeeps(rest, p, n - 1, left);
    }
  }

  lemma {:induction false} DropFirstDrops<T>(q: seq<T>, p: T -> bool, n: nat, picked: seq<T>, left: seq<T>)
    requires picked == Select(q, p, true) && n <= |picked| && left == DropFirst(q, p, n)
    ensures Select(left, p, true) == picked[n..]
    decreases n
  {
    if n > 0 {
      SomeFirst(q, p);
      var k := First(q, p).value;
      var others := Select(Without(q, k), p, true);
      assert picked == [q[k]] + others by { RemoveFirst(q, p); }
      DropFirstDrops(Without(q, k), p, n - 1, others, left);
      TailOfCons(q[k], others, n);
    }
  }

  /** What `DropFirst` means, without its recursion. */
  lemma DropFirstMeaning<T>(q: seq<T>, p: T -> bool, n: nat)
    requires n <= |Select(q, p, true)|
    ensures Select(DropFirst(q, p, n), p, false) == Select(q, p, false)
    ensures Select(DropFirst(q, p, n), p, true) == Select(q, p, true)[n..]
  {
    DropFirstKeeps(q, p, n, DropFirst(q, p, n));
    DropFirstDrops(q, p, n, Select(q, p, true), DropFirst(q, p, n));
  }

  // ---------------------------------------------------------------------
  // Ordered selections
  // ---------------------------------------------------------------------

  /** `a` arises from `b` by leaving elements out. */
  ghost predicate Subsequence<T(!new)>(a: seq<T>, b: seq<T>)
    decreases |b|
  {
    || a == []
    || (b != [] && (|| (a[|a| - 1] == b[|b| - 1] && Subsequence(a[..|a| - 1], b[..|b| - 1]))
                    || Subsequence(a, b[..|b| - 1])))
  }

  lemma SubsequenceWiden<T(!new)>(a: seq<T>, b: seq<T>, x: T)
    requires Subsequence(a, b)
    ensures Subsequence(a, b + [x])
  {
    assert (b + [x])[..|b|] == b;
  }

  lemma SubsequenceSnoc<T(!new)>(a: seq<T>, b: seq<T>, x: T)
    requires Subsequence(a, b)
    ensures Subsequence(a + [x], b + [x])
  {
    assert (b + [x])[..|b|] == b && (a + [x])[..|a|] == a;
  }

  lemma {:induction false} SubsequenceInit<T(!new)>(a: seq<T>, b: seq<T>)
    requires Subsequence(a, b) && a != []
    ensures Subsequence(a[..|a| - 1], b)
    decreases |b|
  {
    var shorter, last := b[..|b| - 1], b[|b| - 1];
    assert b == shorter + [last];
    if !(a[|a| - 1] == last && Subsequence(a[..|a| - 1], shorter)) {
      SubsequenceInit(a, shorter);
    }
    SubsequenceWiden(a[..|a| - 1], shorter, last);
  }

  lemma WithoutInit<T>(a: seq<T>, k: nat)
    requires k < |a| - 1
    ensures Without(a[..|a| - 1], k) + [a[|a| - 1]] == Without(a, k)
  {
  }

  lemma {:induction false} SubsequenceWithout<T(!new)>(a: seq<T>, b: seq<T>, k: nat)
    requires Subsequence(a, b) && k < |a|
    ensures Subsequence(Without(a, k), b)
    decreases |b|
  {
    if k == |a| - 1 {
      SubsequenceInit(a, b);
      assert Without(a, k) == a[..|a| - 1];
    } else {
      var init, last := a[..|a| - 1], a[|a| - 1];
      var shorter, end := b[..|b| - 1], b[|b| - 1];
      assert b == shorter + [end];
      if last == end && Subsequence(init, shorter) {
        SubsequenceWithout(init, shorter, k);
        WithoutInit(a, k);
        SubsequenceSnoc(Without(init, k), shorter, last);
      } else {
        SubsequenceWithout(a, shorter, k);
        SubsequenceWiden(Without(a, k), shorter, end);
      }
    }
  }

  lemma SubsequenceMiddle<T(!new)>(front: seq<T>, q: seq<T>, k: nat, b: seq<T>)
    requires Subsequence(front + q, b) && k < |q|
    ensures Subsequence(front + Without(q, k), b)
  {
    SubsequenceWithout(front + q, b, |front| + k);
    assert Without(front + q, |front| + k) == front + Without(q, k);
  }

  lemma {:induction false} SubsequenceDropped<T(!new)>(front: seq<T>, q: seq<T>, p: T -> bool, n: nat, b: seq<T>)
    requires Subsequence(front + q, b)
    ensures Subsequence(front + DropFirst(q, p, n), b)
    decreases n
  {
    if n > 0 && First(q, p).Some? {
      SubsequenceMiddle(front, q, First(q, p).value, b);
      SubsequenceDropped(front, Without(q, First(q, p).value), p, n - 1, b);
    }
  }

  /** Selecting `p` from what is not `q` is selecting `p`, when nothing is both. */
  lemma {:induction false} SelectWithin<T>(s: seq<T>, q: T -> bool, p: T -> bool)
    requires forall i | 0 <= i < |s| :: !(q(s[i]) && p(s[i]))
    ensures Select(Select(s, q, false), p, true) == Select(s, p, true)
  {
    if s != [] {
      var shorter, last := s[..|s| - 1], s[|s| - 1];
      var kept, picked := Select(shorter, q, false), Select(shorter, p, true);
      SelectWithin(shorter, q, p);
      if q(last) {
        assert Select(s, q, false) == kept + [] && Select(s, p, true) == picked + [];
        assert kept + [] == kept && picked + [] == picked;
      } else {
        SelectConcat(kept, [last], p, true);
        SelectOne(last, p, true);
      }
    }
  }

  lemma {:induction false} SelectsSome<T>(s: seq<T>, p: T -> bool, i: nat)
    requires i < |s| && p(s[i])
    ensures Select(s, p, true) != []
  {
    if i < |s| - 1 {
      SelectsSome(s[..|s| - 1], p, i);
    }
  }
}
