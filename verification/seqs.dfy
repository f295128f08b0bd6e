/** Order-preserving selection over sequences: the shape of Python's
    `[x for x in xs if p(x)]` and of a `for` loop that appends matches. */
module Seqs {

  /** The elements of `s` that satisfy `p`, in their original order.
      Defined from the right so that a loop appending `s[i]` extends it. */
  function Filter<T>(s: seq<T>, p: T -> bool): (r: seq<T>)
    ensures |r| <= |s|
    ensures forall x :: x in r ==> x in s && p(x)
  {
    if s == [] then []
    else Filter(s[..|s| - 1], p) + (if p(s[|s| - 1]) then [s[|s| - 1]] else [])
  }

  /** Every element of `s` that satisfies `p` is kept. */
  lemma {:induction false} FilterKeeps<T>(s: seq<T>, p: T -> bool, x: T)
    requires x in s && p(x)
    ensures x in Filter(s, p)
  {
    var last := s[|s| - 1];
    if x != last {
      assert x in s[..|s| - 1] by {
        var k :| 0 <= k < |s| && s[k] == x;
        assert k < |s| - 1;
        assert s[..|s| - 1][k] == x;
      }
      FilterKeeps(s[..|s| - 1], p, x);
    }
  }

  /** Membership in the filtered sequence, both directions. */
  lemma FilterMembership<T>(s: seq<T>, p: T -> bool, x: T)
    ensures x in Filter(s, p) <==> x in s && p(x)
  {
    if x in s && p(x) {
      FilterKeeps(s, p, x);
    }
  }

  /** Filtering distributes over concatenation: the relative order of the
      kept elements is the order of the input. */
  lemma {:induction false} FilterConcat<T>(a: seq<T>, b: seq<T>, p: T -> bool)
    ensures Filter(a + b, p) == Filter(a, p) + Filter(b, p)
  {
    if b != [] {
      var b' := b[..|b| - 1];
      assert (a + b)[..|a + b| - 1] == a + b';
      FilterConcat(a, b', p);
    } else {
      assert a + b == a;
    }
  }

  /** Nothing is selected when nothing satisfies the predicate. */
  lemma {:induction false} FilterNone<T>(s: seq<T>, p: T -> bool)
    requires forall x :: x in s ==> !p(x)
    ensures Filter(s, p) == []
  {
    if s != [] {
      assert forall x :: x in s[..|s| - 1] ==> x in s;
      FilterNone(s[..|s| - 1], p);
    }
  }

  /** Everything is selected when everything satisfies the predicate. */
  lemma {:induction false} FilterAll<T>(s: seq<T>, p: T -> bool)
    requires forall x :: x in s ==> p(x)
    ensures Filter(s, p) == s
  {
    if s != [] {
      var init, last := s[..|s| - 1], s[|s| - 1];
      forall x | x in init ensures p(x) {
        var k :| 0 <= k < |init| && init[k] == x;
        assert s[k] == x;
      }
      FilterAll(init, p);
      assert p(last);
      assert Filter(s, p) == Filter(init, p) + [last];
      assert init + [last] == s;
    }
  }

  /** Dropping the one element the predicate refuses, between elements it
      keeps. */
  lemma {:induction false} FilterMiddle<T>(front: seq<T>, x: T, back: seq<T>, p: T -> bool)
    requires !p(x)
    requires forall y :: y in front ==> p(y)
    requires forall y :: y in back ==> p(y)
    ensures Filter(front + [x] + back, p) == front + back
  {
    var fx := Filter(front + [x], p);
    assert fx == Filter(front, p) by {
      assert (front + [x])[..|front|] == front;
    }
    FilterAll(front, p);
    FilterAll(back, p);
    FilterConcat(front + [x], back, p);
    assert Filter(front + [x] + back, p) == fx + Filter(back, p);
  }

  /** Dropping the one position the predicate refuses. */
  lemma {:induction false} FilterDropsOne<T>(s: seq<T>, k: int, p: T -> bool)
    requires 0 <= k < |s| && !p(s[k])
    requires forall j :: 0 <= j < |s| && j != k ==> p(s[j])
    ensures Filter(s, p) == s[..k] + s[k + 1..]
  {
    var front, back := s[..k], s[k + 1..];
    forall y | y in front ensures p(y) {
      var j :| 0 <= j < k && front[j] == y;
    }
    forall y | y in back ensures p(y) {
      var j :| 0 <= j < |back| && back[j] == y;
      assert s[k + 1 + j] == y;
    }
    FilterMiddle(front, s[k], back, p);
    assert s == front + [s[k]] + back;
  }

  /** Extending the scanned prefix by one element: the step a loop takes. */
  lemma FilterSnoc<T>(s: seq<T>, i: nat, p: T -> bool)
    requires i < |s|
    ensures Filter(s[..i + 1], p) == Filter(s[..i], p) + (if p(s[i]) then [s[i]] else [])
  {
    assert s[..i + 1][..i] == s[..i];
  }

  /** When only the first element satisfies the predicate, it alone is kept. */
  lemma FilterOnlyFirst<T>(s: seq<T>, p: T -> bool)
    requires s != [] && p(s[0])
    requires forall k :: 1 <= k < |s| ==> !p(s[k])
    ensures Filter(s, p) == [s[0]]
  {
    var rest := s[1..];
    forall x | x in rest ensures !p(x) {
      var k :| 0 <= k < |rest| && rest[k] == x;
      assert s[k + 1] == x;
    }
    assert Filter([s[0]], p) == [s[0]] by {
      assert [s[0]][..0] == [];
    }
    assert s == [s[0]] + rest;
    FilterConcat([s[0]], rest, p);
    FilterNone(rest, p);
  }

  /** Filtering with two predicates that agree on the elements gives the
      same result. */
  lemma {:induction false} FilterCongruent<T>(s: seq<T>, p: T -> bool, q: T -> bool)
    requires forall x :: x in s ==> p(x) == q(x)
    ensures Filter(s, p) == Filter(s, q)
  {
    if s != [] {
      assert forall x :: x in s[..|s| - 1] ==> x in s;
      FilterCongruent(s[..|s| - 1], p, q);
    }
  }

  /** No two positions of `s` share a value of `f`: the keys of a
      dictionary's entries. */
  predicate DistinctBy<T, K(==)>(s: seq<T>, f: T -> K) {
    forall i, j :: 0 <= i < j < |s| ==> f(s[i]) != f(s[j])
  }

  /** Filtering keeps keys distinct. */
  lemma {:induction false} FilterDistinct<T, K>(s: seq<T>, p: T -> bool, f: T -> K)
    requires DistinctBy(s, f)
    ensures DistinctBy(Filter(s, p), f)
  {
    if s != [] {
      var init := s[..|s| - 1];
      var last := s[|s| - 1];
      assert DistinctBy(init, f) by {
        forall i, j | 0 <= i < j < |init| ensures f(init[i]) != f(init[j]) {
          assert init[i] == s[i] && init[j] == s[j];
        }
      }
      FilterDistinct(init, p, f);
      var r := Filter(init, p);
      forall x | x in r ensures f(x) != f(last) {
        var k :| 0 <= k < |init| && init[k] == x;
        assert s[k] == x;
      }
      if p(last) {
        var r' := r + [last];
        forall i, j | 0 <= i < j < |r'| ensures f(r'[i]) != f(r'[j]) {
          if j == |r| {
            assert r'[i] in r;
          }
        }
      }
    }
  }

  /** The first position whose element satisfies `p`, or -1: the shape of a
      `for` loop that returns at the first match. */
  function FirstIndex<T>(s: seq<T>, p: T -> bool): (k: int)
    ensures -1 <= k < |s|
    ensures k >= 0 ==> p(s[k]) && forall j :: 0 <= j < k ==> !p(s[j])
    ensures k == -1 <==> forall j :: 0 <= j < |s| ==> !p(s[j])
  {
    if s == [] then -1
    else if p(s[0]) then 0
    else
      var k := FirstIndex(s[1..], p);
      if k < 0 then -1 else k + 1
  }

  /** The elements of `s` mapped through `f`. */
  function Map<T, U>(s: seq<T>, f: T -> U): (r: seq<U>)
    ensures |r| == |s|
    ensures forall i :: 0 <= i < |s| ==> r[i] == f(s[i])
  {
    seq(|s|, i requires 0 <= i < |s| => f(s[i]))
  }
}
