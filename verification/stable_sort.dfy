/** Python's `sorted(xs, key=key, reverse=True)` for integer keys: a stable
    sort into descending key order. Python keeps equal-key elements in their
    input order even with `reverse=True`; insertion before the first element
    whose key is not larger gives the same result. */
module StableSort {
  import opened Seqs

  /** Keys never increase from left to right. */
  predicate SortedDesc<T>(s: seq<T>, key: T -> int) {
    forall i, j :: 0 <= i < j < |s| ==> key(s[i]) >= key(s[j])
  }

  /** Selects the elements whose key is `k`. */
  function KeyIs<T>(key: T -> int, k: int): T -> bool {
    x => key(x) == k
  }

  /** Puts `x` in front of the first element whose key is at most `key(x)`. */
  function Insert<T>(x: T, s: seq<T>, key: T -> int): (r: seq<T>)
    ensures multiset(r) == multiset(s) + multiset{x}
  {
    if s == [] || key(s[0]) <= key(x) then [x] + s
    else
      assert s == [s[0]] + s[1..];
      [s[0]] + Insert(x, s[1..], key)
  }

  /** Inserting into a descending sequence keeps it descending. */
  lemma {:induction false} InsertSorted<T>(x: T, s: seq<T>, key: T -> int)
    requires SortedDesc(s, key)
    ensures SortedDesc(Insert(x, s, key), key)
  {
    if s != [] && key(s[0]) > key(x) {
      var t := s[1..];
      assert SortedDesc(t, key) by {
        forall i, j | 0 <= i < j < |t| ensures key(t[i]) >= key(t[j]) {
          assert t[i] == s[i + 1] && t[j] == s[j + 1];
        }
      }
      InsertSorted(x, t, key);
      forall i | 0 <= i < |t| ensures key(t[i]) <= key(s[0]) {
        assert t[i] == s[i + 1];
      }
      InsertBounded(x, t, key, key(s[0]));
      var r' := Insert(x, t, key);
      var r := [s[0]] + r';
      assert r == Insert(x, s, key);
      forall i, j | 0 <= i < j < |r| ensures key(r[i]) >= key(r[j]) {
        assert r[j] == r'[j - 1];
        if i > 0 {
          assert r[i] == r'[i - 1];
        }
      }
    }
  }

  /** A bound on every key survives an insertion that respects it. */
  lemma {:induction false} InsertBounded<T>(x: T, s: seq<T>, key: T -> int, b: int)
    requires key(x) <= b
    requires forall i :: 0 <= i < |s| ==> key(s[i]) <= b
    ensures forall i :: 0 <= i < |Insert(x, s, key)| ==> key(Insert(x, s, key)[i]) <= b
  {
    if s != [] && key(s[0]) > key(x) {
      var t := s[1..];
      assert forall i :: 0 <= i < |t| ==> t[i] == s[i + 1];
      InsertBounded(x, t, key, b);
      var r' := Insert(x, t, key);
      assert Insert(x, s, key) == [s[0]] + r';
    } else {
      assert Insert(x, s, key) == [x] + s;
    }
  }

  /** `sorted(s, key=key, reverse=True)`. */
  function SortByKeyDesc<T>(s: seq<T>, key: T -> int): (r: seq<T>)
    ensures multiset(r) == multiset(s)
  {
    if s == [] then []
    else
      assert s == [s[0]] + s[1..];
      Insert(s[0], SortByKeyDesc(s[1..], key), key)
  }

  /** The sorted result is in descending key order. */
  lemma {:induction false} SortIsSorted<T>(s: seq<T>, key: T -> int)
    ensures SortedDesc(SortByKeyDesc(s, key), key)
  {
    if s != [] {
      SortIsSorted(s[1..], key);
      InsertSorted(s[0], SortByKeyDesc(s[1..], key), key);
    }
  }

  /** Filtering a sequence that starts with `y`. */
  lemma FilterCons<T>(y: T, t: seq<T>, p: T -> bool)
    ensures Filter([y] + t, p) == (if p(y) then [y] else []) + Filter(t, p)
  {
    assert Filter([y], p) == (if p(y) then [y] else []) by {
      assert [y][..0] == [];
    }
    FilterConcat([y], t, p);
  }

  /** Inserting `x` puts it ahead of every element with the same key. */
  lemma {:induction false} InsertKeepsTies<T>(x: T, s: seq<T>, key: T -> int, k: int)
    ensures Filter(Insert(x, s, key), KeyIs(key, k))
         == (if key(x) == k then [x] else []) + Filter(s, KeyIs(key, k))
  {
    var p := KeyIs(key, k);
    var own := if key(x) == k then [x] else [];
    assert p(x) == (key(x) == k);
    if s == [] || key(s[0]) <= key(x) {
      assert Insert(x, s, key) == [x] + s;
      FilterCons(x, s, p);
    } else {
      var t := s[1..];
      var r' := Insert(x, t, key);
      assert Insert(x, s, key) == [s[0]] + r';
      assert [s[0]] + t == s;
      assert p(s[0]) == (key(s[0]) == k);
      InsertKeepsTies(x, t, key, k);
      FilterCons(s[0], r', p);
      FilterCons(s[0], t, p);
      // s[0]'s key is larger than x's, so at most one of the two is kept
      if key(x) == k {
        assert !p(s[0]);
        assert Filter(s, p) == Filter(t, p);
        assert Filter(Insert(x, s, key), p) == Filter(r', p);
      } else {
        assert own == [];
        assert Filter(r', p) == Filter(t, p);
      }
    }
  }

  /** Stability: the elements with any one key come out in the order they
      went in. */
  lemma {:induction false} SortIsStable<T>(s: seq<T>, key: T -> int, k: int)
    ensures Filter(SortByKeyDesc(s, key), KeyIs(key, k)) == Filter(s, KeyIs(key, k))
  {
    if s != [] {
      var p := KeyIs(key, k);
      var t := SortByKeyDesc(s[1..], key);
      var head := if key(s[0]) == k then [s[0]] else [];
      calc {
        Filter(SortByKeyDesc(s, key), p);
        Filter(Insert(s[0], t, key), p);
        { InsertKeepsTies(s[0], t, key, k); }
        head + Filter(t, p);
        { SortIsStable(s[1..], key, k); }
        head + Filter(s[1..], p);
        { assert Filter([s[0]], p) == head;
          FilterConcat([s[0]], s[1..], p); }
        Filter([s[0]] + s[1..], p);
        { assert [s[0]] + s[1..] == s; }
        Filter(s, p);
      }
    }
  }

  /** An already descending input is returned as it is. */
  lemma {:induction false} SortedUnchanged<T>(s: seq<T>, key: T -> int)
    requires SortedDesc(s, key)
    ensures SortByKeyDesc(s, key) == s
  {
    if s != [] {
      SortedUnchanged(s[1..], key);
      assert SortByKeyDesc(s[1..], key) == s[1..];
      assert [s[0]] + s[1..] == s;
    }
  }
}
