/** An optional value: `null`/`undefined` on the JavaScript side. */
module Wrappers {
  datatype Option<+T> = None | Some(value: T) {
    /** The value, or `default` when there is none (JavaScript's `??`). */
    function GetOr(default: T): (r: T)
      ensures Some? ==> r == value
      ensures None? ==> r == default
    {
      match this
      case Some(v) => v
      case None => default
    }
  }
}

/**
 * The list combinators the front-end uses on arrays: `filter`, `map`,
 * `find`, and a stable sort by a numeric key (lodash `orderBy`,
 * `Array.prototype.sort` with a subtracting comparator).
 */
module Seqs {
  import opened Wrappers

  /**
   * `s.filter(p)`: the elements satisfying `p`. They keep their original
   * order: the filter of a concatenation is the concatenation of the filters
   * (`FilterConcat`).
   */
  function Filter<T>(p: T -> bool, s: seq<T>): (r: seq<T>)
    ensures |r| <= |s|
    ensures forall i :: 0 <= i < |r| ==> r[i] in s && p(r[i])
    ensures forall i :: 0 <= i < |s| && p(s[i]) ==> s[i] in r
  {
    if s == [] then [] else (if p(s[0]) then [s[0]] else []) + Filter(p, s[1..])
  }

  /** Every element left by two filters in a row passes both. */
  lemma FilterTwice<T>(p: T -> bool, q: T -> bool, s: seq<T>)
    ensures forall i :: 0 <= i < |Filter(q, Filter(p, s))| ==>
              p(Filter(q, Filter(p, s))[i]) && q(Filter(q, Filter(p, s))[i])
  {
    var t := Filter(p, s);
    var r := Filter(q, t);
    forall i | 0 <= i < |r| ensures p(r[i]) && q(r[i]) {
      var j :| 0 <= j < |t| && t[j] == r[i];
    }
  }

  /** A filter that every element passes keeps everything. */
  lemma {:induction false} FilterAll<T>(p: T -> bool, s: seq<T>)
    requires forall i :: 0 <= i < |s| ==> p(s[i])
    ensures Filter(p, s) == s
  {
    if s != [] {
      FilterAll(p, s[1..]);
    }
  }

  /** A filter that no element passes keeps nothing. */
  lemma {:induction false} FilterNone<T>(p: T -> bool, s: seq<T>)
    requires forall i :: 0 <= i < |s| ==> !p(s[i])
    ensures Filter(p, s) == []
  {
    if s != [] {
      FilterNone(p, s[1..]);
    }
  }

  /** Filtering a concatenation filters each part, and keeps the parts in order. */
  lemma {:induction false} FilterConcat<T>(p: T -> bool, a: seq<T>, b: seq<T>)
    ensures Filter(p, a + b) == Filter(p, a) + Filter(p, b)
  {
    if a == [] {
      assert a + b == b;
    } else {
      assert (a + b)[0] == a[0];
      assert (a + b)[1..] == a[1..] + b;
      FilterConcat(p, a[1..], b);
    }
  }

  /** `s.map(f)`: one result per element, in order. */
  function Map<T, U>(f: T -> U, s: seq<T>): (r: seq<U>)
    ensures |r| == |s|
    ensures forall i :: 0 <= i < |s| ==> r[i] == f(s[i])
  {
    seq(|s|, i requires 0 <= i < |s| => f(s[i]))
  }

  /** `s.find(p)`: the first element satisfying `p`, if any. */
  function First<T>(p: T -> bool, s: seq<T>): (r: Option<T>)
    ensures r.None? <==> forall i :: 0 <= i < |s| ==> !p(s[i])
    ensures r.Some? ==> exists i :: 0 <= i < |s| && s[i] == r.value && p(s[i]) &&
                                    forall j :: 0 <= j < i ==> !p(s[j])
  {
    if s == [] then None
    else if p(s[0]) then Some(s[0])
    else
      var r := First(p, s[1..]);
      assert r.Some? ==> exists i :: 1 <= i < |s| && s[i] == r.value && p(s[i]) &&
                                     forall j :: 1 <= j < i ==> !p(s[j]);
      r
  }

  /** `s` is in non-decreasing order of `key`. */
  ghost predicate SortedBy<T>(key: T -> int, s: seq<T>) {
    forall i, j :: 0 <= i < j < |s| ==> key(s[i]) <= key(s[j])
  }

  /**
   * Inserts `x` before the first element whose key is at least `key(x)`,
   * so that `x` precedes every element of equal key already in `s`.
   */
  function Insert<T>(key: T -> int, x: T, s: seq<T>): (r: seq<T>)
    ensures multiset(r) == multiset(s) + multiset{x}
    ensures SortedBy(key, s) ==> SortedBy(key, r)
  {
    if s == [] then [x]
    else if key(x) <= key(s[0]) then
      SortedPrepend(key, x, s);
      [x] + s
    else
      var t := Insert(key, x, s[1..]);
      assert s == [s[0]] + s[1..];
      InsertStepSorted(key, x, s, t);
      [s[0]] + t
  }

  /** A stable sort of `s`: a permutation of `s` in non-decreasing order of `key`. */
  function SortBy<T>(key: T -> int, s: seq<T>): (r: seq<T>)
    ensures multiset(r) == multiset(s)
    ensures SortedBy(key, r)
  {
    if s == [] then []
    else
      assert s == [s[0]] + s[1..];
      Insert(key, s[0], SortBy(key, s[1..]))
  }

  /** The elements of `s` whose key is `k`, in order. */
  function WithKey<T>(key: T -> int, k: int, s: seq<T>): seq<T> {
    if s == [] then [] else (if key(s[0]) == k then [s[0]] else []) + WithKey(key, k, s[1..])
  }

  lemma WithKeyCons<T>(key: T -> int, k: int, y: T, t: seq<T>)
    ensures WithKey(key, k, [y] + t) == (if key(y) == k then [y] else []) + WithKey(key, k, t)
  {
    assert ([y] + t)[0] == y;
    assert ([y] + t)[1..] == t;
  }

  /**
   * Putting `y` in front of two sequences whose `k`-parts differ by a leading
   * `x` of a different key keeps them differing by exactly that `x`.
   */
  lemma WithKeyStep<T>(key: T -> int, k: int, x: T, y: T, rest: seq<T>, t: seq<T>)
    requires key(x) != key(y)
    requires WithKey(key, k, t) == (if key(x) == k then [x] else []) + WithKey(key, k, rest)
    ensures WithKey(key, k, [y] + t) == (if key(x) == k then [x] else []) + WithKey(key, k, [y] + rest)
  {
    var w := WithKey(key, k, rest);
    WithKeyCons(key, k, y, t);
    WithKeyCons(key, k, y, rest);
    if key(x) == k {
      assert WithKey(key, k, [y] + rest) == w;
    } else if key(y) == k {
      assert WithKey(key, k, [y] + t) == [y] + w;
    }
  }

  lemma {:induction false} InsertWithKey<T>(key: T -> int, k: int, x: T, s: seq<T>)
    ensures WithKey(key, k, Insert(key, x, s)) ==
            (if key(x) == k then [x] else []) + WithKey(key, k, s)
  {
    if s == [] {
      WithKeyCons(key, k, x, []);
      assert [x] + [] == [x];
    } else if key(x) <= key(s[0]) {
      WithKeyCons(key, k, x, s);
    } else {
      var t := Insert(key, x, s[1..]);
      InsertWithKey(key, k, x, s[1..]);
      assert Insert(key, x, s) == [s[0]] + t;
      WithKeyStep(key, k, x, s[0], s[1..], t);
      assert s == [s[0]] + s[1..];
    }
  }

  /** The sort is stable: elements of equal key keep their relative order. */
  lemma {:induction false} SortByStable<T>(key: T -> int, k: int, s: seq<T>)
    ensures WithKey(key, k, SortBy(key, s)) == WithKey(key, k, s)
  {
    if s != [] {
      SortByStable(key, k, s[1..]);
      InsertWithKey(key, k, s[0], SortBy(key, s[1..]));
    }
  }

  /** Stability, for every key at once. */
  lemma SortByStableAll<T>(key: T -> int, s: seq<T>)
    ensures forall k :: WithKey(key, k, SortBy(key, s)) == WithKey(key, k, s)
  {
    forall k ensures WithKey(key, k, SortBy(key, s)) == WithKey(key, k, s) {
      SortByStable(key, k, s);
    }
  }

  /** A lower bound on the keys of `s` bounds the keys of every filtered element. */
  lemma FilterKeepsLowerBound<T>(p: T -> bool, key: T -> int, s: seq<T>, lo: int)
    requires forall i :: 0 <= i < |s| ==> lo <= key(s[i])
    ensures forall j :: 0 <= j < |Filter(p, s)| ==> lo <= key(Filter(p, s)[j])
  {
    var t := Filter(p, s);
    forall j | 0 <= j < |t| ensures lo <= key(t[j]) {
      var i :| 0 <= i < |s| && s[i] == t[j];
    }
  }

  /** The tail of a sorted sequence is sorted, and its head bounds every key of the tail. */
  lemma SortedTail<T>(key: T -> int, s: seq<T>)
    requires s != [] && SortedBy(key, s)
    ensures SortedBy(key, s[1..])
    ensures forall i :: 0 <= i < |s[1..]| ==> key(s[0]) <= key(s[1..][i])
  {
    forall i, j | 0 <= i < j < |s[1..]| ensures key(s[1..][i]) <= key(s[1..][j]) {
      assert s[1..][i] == s[i + 1] && s[1..][j] == s[j + 1];
    }
    forall i | 0 <= i < |s[1..]| ensures key(s[0]) <= key(s[1..][i]) {
      assert s[1..][i] == s[i + 1];
    }
  }

  /** A sorted sequence stays sorted with a head no larger than any of its keys in front. */
  lemma SortedCons<T>(key: T -> int, x: T, t: seq<T>)
    requires SortedBy(key, t)
    requires forall j :: 0 <= j < |t| ==> key(x) <= key(t[j])
    ensures SortedBy(key, [x] + t)
  {
    var r := [x] + t;
    forall i, j | 0 <= i < j < |r| ensures key(r[i]) <= key(r[j]) {
      assert r[j] == t[j - 1];
      if i > 0 {
        assert r[i] == t[i - 1];
      }
    }
  }

  /** An element no larger than the head of a sorted sequence can go in front of it. */
  lemma SortedPrepend<T>(key: T -> int, x: T, s: seq<T>)
    requires s != [] && key(x) <= key(s[0])
    ensures SortedBy(key, s) ==> SortedBy(key, [x] + s)
  {
    if SortedBy(key, s) {
      SortedCons(key, x, s);
    }
  }

  /**
   * The recursive step of `Insert`: when `t` is the tail with `x` inserted,
   * the head stays in front.
   */
  lemma InsertStepSorted<T>(key: T -> int, x: T, s: seq<T>, t: seq<T>)
    requires s != [] && key(x) > key(s[0])
    requires multiset(t) == multiset(s[1..]) + multiset{x}
    requires SortedBy(key, s[1..]) ==> SortedBy(key, t)
    ensures SortedBy(key, s) ==> SortedBy(key, [s[0]] + t)
  {
    if SortedBy(key, s) {
      SortedTail(key, s);
      forall j | 0 <= j < |t| ensures key(s[0]) <= key(t[j]) {
        assert t[j] in multiset(t);
        assert t[j] == x || t[j] in multiset(s[1..]);
      }
      SortedCons(key, s[0], t);
    }
  }

  /** Filtering keeps a sorted sequence sorted. */
  lemma {:induction false} FilterSorted<T>(p: T -> bool, key: T -> int, s: seq<T>)
    requires SortedBy(key, s)
    ensures SortedBy(key, Filter(p, s))
  {
    if s != [] {
      SortedTail(key, s);
      FilterSorted(p, key, s[1..]);
      if p(s[0]) {
        FilterKeepsLowerBound(p, key, s[1..], key(s[0]));
        SortedCons(key, s[0], Filter(p, s[1..]));
      }
    }
  }

  /** Mapping a concatenation maps each part. */
  lemma MapConcat<T, U>(f: T -> U, a: seq<T>, b: seq<T>)
    ensures Map(f, a + b) == Map(f, a) + Map(f, b)
  {
    assert forall i :: 0 <= i < |a + b| ==> Map(f, a + b)[i] == (Map(f, a) + Map(f, b))[i];
  }

  /** Removing the element at index `k` takes one copy of it out of the multiset. */
  lemma RemoveAt<T>(b: seq<T>, k: nat)
    requires k < |b|
    ensures b == b[..k] + [b[k]] + b[k + 1..]
    ensures multiset(b) == multiset(b[..k] + b[k + 1..]) + multiset{b[k]}
  {
    assert b == b[..k] + [b[k]] + b[k + 1..];
  }

  /** Mapping, then removing the image of the head, is mapping the tail. */
  lemma MapRemoveHead<T, U>(f: T -> U, a: seq<T>)
    requires a != []
    ensures multiset(Map(f, a)) == multiset(Map(f, a[1..])) + multiset{f(a[0])}
  {
    MapRemoveAt(f, a, 0);
    assert a[..0] + a[1..] == a[1..];
  }

  /** Taking the head of `a` out of both sides of a permutation, at index `k` in `b`. */
  lemma RemoveHeadAt<T>(a: seq<T>, b: seq<T>, k: nat)
    requires multiset(a) == multiset(b)
    requires a != [] && k < |b| && b[k] == a[0]
    ensures multiset(a[1..]) == multiset(b[..k] + b[k + 1..])
  {
    RemoveAt(b, k);
    assert a == [a[0]] + a[1..];
    assert multiset(a) == multiset(a[1..]) + multiset{a[0]};
    assert multiset(a[1..]) == multiset(a) - multiset{a[0]};
    assert multiset(b[..k] + b[k + 1..]) == multiset(b) - multiset{b[k]};
  }

  /** Mapping, then removing the image of the element at `k`, is mapping without that element. */
  lemma MapRemoveAt<T, U>(f: T -> U, b: seq<T>, k: nat)
    requires k < |b|
    ensures multiset(Map(f, b)) == multiset(Map(f, b[..k] + b[k + 1..])) + multiset{f(b[k])}
  {
    var front, back := b[..k], b[k + 1..];
    assert b == front + ([b[k]] + back);
    MapConcat(f, front, [b[k]] + back);
    MapConcat(f, [b[k]], back);
    MapConcat(f, front, back);
    assert Map(f, [b[k]]) == [f(b[k])];
  }

  /** Mapping two permutations of each other gives two permutations of each other. */
  lemma {:induction false} MapPermutes<T, U>(f: T -> U, a: seq<T>, b: seq<T>)
    requires multiset(a) == multiset(b)
    ensures multiset(Map(f, a)) == multiset(Map(f, b))
    decreases |a|
  {
    if a == [] {
      assert |b| == |multiset(b)| == 0;
    } else {
      assert a[0] in multiset(b);
      var k :| 0 <= k < |b| && b[k] == a[0];
      var rest := b[..k] + b[k + 1..];
      RemoveHeadAt(a, b, k);
      MapPermutes(f, a[1..], rest);
      MapRemoveHead(f, a);
      MapRemoveAt(f, b, k);
    }
  }

  /** A filter keeps every copy of an element that passes and none of one that fails. */
  lemma {:induction false} FilterCount<T>(p: T -> bool, s: seq<T>, x: T)
    ensures multiset(Filter(p, s))[x] == if p(x) then multiset(s)[x] else 0
  {
    if s != [] {
      FilterCount(p, s[1..], x);
      assert s == [s[0]] + s[1..];
      assert multiset(s) == multiset{s[0]} + multiset(s[1..]);
      if p(s[0]) {
        assert Filter(p, s) == [s[0]] + Filter(p, s[1..]);
      } else {
        assert Filter(p, s) == Filter(p, s[1..]);
      }
    }
  }

  /** Filtering two permutations of each other gives two permutations of each other. */
  lemma FilterPermutes<T>(p: T -> bool, a: seq<T>, b: seq<T>)
    requires multiset(a) == multiset(b)
    ensures multiset(Filter(p, a)) == multiset(Filter(p, b))
  {
    forall x ensures multiset(Filter(p, a))[x] == multiset(Filter(p, b))[x] {
      FilterCount(p, a, x);
      FilterCount(p, b, x);
    }
  }
}
