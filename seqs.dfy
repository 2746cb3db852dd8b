/**
 * Generic facts about sequences used throughout the model: subsequences,
 * duplicate-freedom and order-preserving filtering.  All recursive
 * definitions peel the LAST element, so that a loop that walks a list from
 * left to right keeps the invariant `acc == F(s[..i])`.
 */
module Seqs {

  /** `a` can be obtained from `b` by deleting elements (greedy match from the end). */
  predicate IsSubseq<T(==)>(a: seq<T>, b: seq<T>)
    decreases |b|
  {
    if a == [] then true
    else if b == [] then false
    else if a[|a| - 1] == b[|b| - 1] then IsSubseq(a[..|a| - 1], b[..|b| - 1])
    else IsSubseq(a, b[..|b| - 1])
  }

  /** No element occurs twice. */
  ghost predicate NoDups<T>(s: seq<T>)
  {
    forall i, j :: 0 <= i < j < |s| ==> s[i] != s[j]
  }

  /** The elements of `s` that satisfy `p`, in their original order (Python's `filter`). */
  function Filter<T>(p: T -> bool, s: seq<T>): (r: seq<T>)
    ensures |r| <= |s|
    ensures forall x :: x in r ==> x in s && p(x)
  {
    if s == [] then []
    else
      var rest := Filter(p, s[..|s| - 1]);
      if p(s[|s| - 1]) then rest + [s[|s| - 1]] else rest
  }

  /** `f` applied to every element (Python's `map`). */
  function Map<A, B>(f: A -> B, s: seq<A>): (r: seq<B>)
    ensures |r| == |s| && forall i :: 0 <= i < |s| ==> r[i] == f(s[i])
  {
    seq(|s|, i requires 0 <= i < |s| => f(s[i]))
  }

  lemma MapAppend<A, B>(f: A -> B, a: seq<A>, b: seq<A>)
    ensures Map(f, a + b) == Map(f, a) + Map(f, b)
  {
  }

  /** Position of the first `c` in `s`, or `|s|` when there is none. */
  function IndexOf<T(==)>(s: seq<T>, c: T): (k: nat)
    ensures k <= |s|
    ensures k < |s| <==> c in s
    ensures k < |s| ==> s[k] == c
    ensures c !in s[..k]
  {
    if s == [] then 0
    else if s[0] == c then 0
    else
      var k := 1 + IndexOf(s[1..], c);
      assert s[..k] == [s[0]] + s[1..][..k - 1];
      k
  }

  lemma {:induction false} IndexOfAppend<T>(a: seq<T>, b: seq<T>, c: T)
    requires c !in a
    ensures IndexOf(a + b, c) == |a| + IndexOf(b, c)
  {
    if a != [] {
      assert (a + b)[1..] == a[1..] + b;
      IndexOfAppend(a[1..], b, c);
    } else {
      assert a + b == b;
    }
  }

  lemma {:induction false} IndexOfPrefix<T>(a: seq<T>, b: seq<T>, c: T)
    requires c in a
    ensures IndexOf(a + b, c) == IndexOf(a, c)
  {
    if a[0] != c {
      assert (a + b)[1..] == a[1..] + b;
      assert c in a[1..];
      IndexOfPrefix(a[1..], b, c);
    }
  }

  lemma {:induction false} SubseqDropLast<T>(a: seq<T>, b: seq<T>)
    requires a != [] && IsSubseq(a, b)
    ensures IsSubseq(a[..|a| - 1], b)
    decreases |b|
  {
    var a' := a[..|a| - 1];
    if b == [] {
    } else if a[|a| - 1] == b[|b| - 1] {
      var b' := b[..|b| - 1];
      if a' != [] && a'[|a'| - 1] != b[|b| - 1] {
        assert IsSubseq(a', b');
      } else if a' != [] {
        SubseqDropLast(a', b');
      }
    } else {
      var b' := b[..|b| - 1];
      SubseqDropLast(a, b');
      if a' != [] && a'[|a'| - 1] == b[|b| - 1] {
        SubseqDropLast(a', b');
      }
    }
  }

  /** Appending to the longer sequence keeps a subsequence a subsequence. */
  lemma SubseqAppendRight<T>(a: seq<T>, b: seq<T>, x: T)
    requires IsSubseq(a, b)
    ensures IsSubseq(a, b + [x])
  {
    assert (b + [x])[..|b|] == b;
    if a != [] && a[|a| - 1] == x {
      SubseqDropLast(a, b);
    }
  }

  /** Appending the same element to both sides keeps a subsequence a subsequence. */
  lemma SubseqAppendBoth<T>(a: seq<T>, b: seq<T>, x: T)
    requires IsSubseq(a, b)
    ensures IsSubseq(a + [x], b + [x])
  {
    assert (a + [x])[..|a|] == a;
    assert (b + [x])[..|b|] == b;
  }

  lemma {:induction false} SubseqRefl<T>(s: seq<T>)
    ensures IsSubseq(s, s)
  {
    if s != [] {
      SubseqRefl(s[..|s| - 1]);
    }
  }

  lemma {:induction false} SubseqLength<T>(a: seq<T>, b: seq<T>)
    requires IsSubseq(a, b)
    ensures |a| <= |b|
    decreases |b|
  {
    if a != [] && b != [] {
      if a[|a| - 1] == b[|b| - 1] {
        SubseqLength(a[..|a| - 1], b[..|b| - 1]);
      } else {
        SubseqLength(a, b[..|b| - 1]);
      }
    }
  }

  /** Every element of a subsequence occurs in the sequence it was taken from. */
  lemma {:induction false} SubseqMembers<T>(a: seq<T>, b: seq<T>)
    requires IsSubseq(a, b)
    ensures forall x :: x in a ==> x in b
    decreases |b|
  {
    if a != [] && b != [] {
      var b' := b[..|b| - 1];
      if a[|a| - 1] == b[|b| - 1] {
        var a' := a[..|a| - 1];
        SubseqMembers(a', b');
        assert a == a' + [b[|b| - 1]];
      } else {
        SubseqMembers(a, b');
      }
    }
  }

  lemma {:induction false} FilterIsSubseq<T>(p: T -> bool, s: seq<T>)
    ensures IsSubseq(Filter(p, s), s)
  {
    if s != [] {
      var s' := s[..|s| - 1];
      FilterIsSubseq(p, s');
      assert s == s' + [s[|s| - 1]];
      if p(s[|s| - 1]) {
        SubseqAppendBoth(Filter(p, s'), s', s[|s| - 1]);
      } else {
        SubseqAppendRight(Filter(p, s'), s', s[|s| - 1]);
      }
    }
  }

  /** Filtering distributes over concatenation: the order of the input is kept. */
  lemma {:induction false} FilterAppend<T>(p: T -> bool, a: seq<T>, b: seq<T>)
    ensures Filter(p, a + b) == Filter(p, a) + Filter(p, b)
    decreases |b|
  {
    if b != [] {
      var b' := b[..|b| - 1];
      assert (a + b)[..|a + b| - 1] == a + b';
      FilterAppend(p, a, b');
    } else {
      assert a + b == a;
    }
  }

  /** A sequence whose every element passes is its own filter. */
  lemma {:induction false} FilterKeepsAll<T>(p: T -> bool, s: seq<T>)
    requires forall x :: x in s ==> p(x)
    ensures Filter(p, s) == s
  {
    if s != [] {
      var s' := s[..|s| - 1];
      FilterKeepsAll(p, s');
      assert s == s' + [s[|s| - 1]];
    }
  }

  /** A sequence with no passing element filters to nothing. */
  lemma {:induction false} FilterDropsAll<T>(p: T -> bool, s: seq<T>)
    requires forall x :: x in s ==> !p(x)
    ensures Filter(p, s) == []
  {
    if s != [] {
      FilterDropsAll(p, s[..|s| - 1]);
    }
  }

  /** Cutting off ends made only of failing elements does not change the filter. */
  lemma FilterDropsEnds<T>(p: T -> bool, s: seq<T>, a: int, b: int)
    requires 0 <= a <= b <= |s|
    requires forall i :: 0 <= i < a ==> !p(s[i])
    requires forall i :: b <= i < |s| ==> !p(s[i])
    ensures Filter(p, s) == Filter(p, s[a..b])
  {
    FilterDropsSuffix(p, s, b);
    var t := s[..b];
    assert forall i :: 0 <= i < a ==> t[i] == s[i];
    FilterDropsPrefix(p, t, a);
    assert t[a..] == s[a..b];
  }

  lemma FilterDropsPrefix<T>(p: T -> bool, s: seq<T>, a: int)
    requires 0 <= a <= |s|
    requires forall i :: 0 <= i < a ==> !p(s[i])
    ensures Filter(p, s) == Filter(p, s[a..])
  {
    assert s == s[..a] + s[a..];
    FilterAppend(p, s[..a], s[a..]);
    FilterDropsEvery(p, s[..a]);
  }

  lemma {:induction false} FilterDropsSuffix<T>(p: T -> bool, s: seq<T>, b: int)
    requires 0 <= b <= |s|
    requires forall i :: b <= i < |s| ==> !p(s[i])
    ensures Filter(p, s) == Filter(p, s[..b])
  {
    if b < |s| {
      var s' := s[..|s| - 1];
      assert s'[..b] == s[..b];
      FilterDropsSuffix(p, s', b);
    } else {
      assert s[..b] == s;
    }
  }

  lemma {:induction false} FilterKeepsEvery<T>(p: T -> bool, s: seq<T>)
    requires forall i :: 0 <= i < |s| ==> p(s[i])
    ensures Filter(p, s) == s
  {
    if s != [] {
      var s' := s[..|s| - 1];
      FilterKeepsEvery(p, s');
      assert s == s' + [s[|s| - 1]];
    }
  }

  lemma {:induction false} FilterDropsEvery<T>(p: T -> bool, s: seq<T>)
    requires forall i :: 0 <= i < |s| ==> !p(s[i])
    ensures Filter(p, s) == []
  {
    if s != [] {
      FilterDropsEvery(p, s[..|s| - 1]);
    }
  }

  /** Filtering twice is filtering once by the conjunction of the two tests. */
  lemma {:induction false} FilterCompose<T>(p: T -> bool, q: T -> bool, pq: T -> bool, s: seq<T>)
    requires forall x :: pq(x) == (p(x) && q(x))
    ensures Filter(q, Filter(p, s)) == Filter(pq, s)
  {
    if s != [] {
      var s' := s[..|s| - 1];
      var x := s[|s| - 1];
      FilterCompose(p, q, pq, s');
      if p(x) {
        FilterAppend(q, Filter(p, s'), [x]);
        FilterSingleton(q, x);
      }
    }
  }

  lemma FilterSingleton<T>(p: T -> bool, x: T)
    ensures Filter(p, [x]) == if p(x) then [x] else []
  {
    assert [x][..0] == [];
  }

  lemma FilterIdempotent<T>(p: T -> bool, s: seq<T>)
    ensures Filter(p, Filter(p, s)) == Filter(p, s)
  {
    FilterKeepsAll(p, Filter(p, s));
  }

  /** Filtering keeps every occurrence of a passing value and none of a failing one. */
  lemma {:induction false} FilterCounts<T>(p: T -> bool, s: seq<T>)
    ensures forall x :: multiset(Filter(p, s))[x] == if p(x) then multiset(s)[x] else 0
  {
    if s != [] {
      var s' := s[..|s| - 1];
      FilterCounts(p, s');
      assert s == s' + [s[|s| - 1]];
    }
  }
}
