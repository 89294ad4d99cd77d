/**
 * Generic sequence helpers used by every other module: an Option type, the
 * query-set operations the notes app relies on (filter, mapping, "newest
 * first", Python slicing `[:n]`) and sortedness by a key.
 */
module Util {

  datatype Option<T> = None | Some(value: T)

  /** The elements of `s` that satisfy `p`, in their original order. */
  function Filter<T>(p: T -> bool, s: seq<T>): (r: seq<T>)
    ensures |r| <= |s|
    ensures forall i :: 0 <= i < |r| ==> r[i] in s && p(r[i])
    ensures forall i :: 0 <= i < |s| && p(s[i]) ==> s[i] in r
  {
    if s == [] then []
    else Filter(p, s[..|s| - 1]) + (if p(s[|s| - 1]) then [s[|s| - 1]] else [])
  }

  lemma {:induction false} FilterConcat<T>(p: T -> bool, a: seq<T>, b: seq<T>)
    ensures Filter(p, a + b) == Filter(p, a) + Filter(p, b)
    decreases |b|
  {
    if b == [] {
      assert a + b == a;
    } else {
      var b' := b[..|b| - 1];
      assert (a + b)[..|a + b| - 1] == a + b';
      FilterConcat(p, a, b');
    }
  }

  /** Filtering keeps every element when all of them satisfy the predicate. */
  lemma {:induction false} FilterAll<T>(p: T -> bool, s: seq<T>)
    requires forall i :: 0 <= i < |s| ==> p(s[i])
    ensures Filter(p, s) == s
  {
    if s != [] {
      FilterAll(p, s[..|s| - 1]);
    }
  }

  /** Filtering keeps nothing when no element satisfies the predicate. */
  lemma {:induction false} FilterNone<T>(p: T -> bool, s: seq<T>)
    requires forall i :: 0 <= i < |s| ==> !p(s[i])
    ensures Filter(p, s) == []
  {
    if s != [] {
      FilterNone(p, s[..|s| - 1]);
    }
  }

  /** Two predicates that agree on the elements of `s` select the same elements. */
  lemma {:induction false} FilterSame<T>(p: T -> bool, q: T -> bool, s: seq<T>)
    requires forall i :: 0 <= i < |s| ==> p(s[i]) == q(s[i])
    ensures Filter(p, s) == Filter(q, s)
  {
    if s != [] {
      FilterSame(p, q, s[..|s| - 1]);
    }
  }

  /** Filtering by `q` first does not matter when `q` holds wherever `p` does. */
  lemma {:induction false} FilterOfFilter<T>(p: T -> bool, q: T -> bool, s: seq<T>)
    requires forall i :: 0 <= i < |s| && p(s[i]) ==> q(s[i])
    ensures Filter(p, Filter(q, s)) == Filter(p, s)
  {
    if s != [] {
      var s' := s[..|s| - 1];
      var x := s[|s| - 1];
      FilterOfFilter(p, q, s');
      FilterConcat(p, Filter(q, s'), if q(x) then [x] else []);
      if !q(x) {
        assert Filter(q, s) == Filter(q, s');
      }
    }
  }

  /** A sequence is its part before `i`, its element at `i` and its part after `i`. */
  lemma SplitAt<T>(s: seq<T>, i: nat)
    requires i < |s|
    ensures s == s[..i] + [s[i]] + s[i + 1..]
  {
  }

  /** The elements of `s` in the opposite order. */
  function Reverse<T>(s: seq<T>): (r: seq<T>)
    ensures |r| == |s|
    ensures forall i :: 0 <= i < |s| ==> r[i] == s[|s| - 1 - i]
  {
    if s == [] then [] else [s[|s| - 1]] + Reverse(s[..|s| - 1])
  }

  /** Python's slice `s[:n]`: the first `n` elements, or all of them if there are fewer. */
  function Prefix<T>(s: seq<T>, n: nat): (r: seq<T>)
    ensures |r| == if |s| <= n then |s| else n
    ensures r <= s
  {
    if |s| <= n then s else s[..n]
  }

  /** The first `n` elements of a sequence long enough are not changed by appending to it. */
  lemma PrefixOfLonger<T>(a: seq<T>, b: seq<T>, n: nat)
    requires n <= |a|
    ensures Prefix(a + b, n) == Prefix(a, n)
  {
    assert (a + b)[..n] == a[..n];
  }

  /** The elements of `s` mapped through `f`. */
  function Map<T, U>(f: T -> U, s: seq<T>): (r: seq<U>)
    ensures |r| == |s|
    ensures forall i :: 0 <= i < |s| ==> r[i] == f(s[i])
  {
    if s == [] then [] else Map(f, s[..|s| - 1]) + [f(s[|s| - 1])]
  }

  /** The elements of `s` mapped through `f`, the last one first: `[f(x) for x in reversed(s)]`. */
  function MapReversed<T, U>(f: T -> U, s: seq<T>): seq<U>
  {
    if s == [] then [] else MapReversed(f, s[1..]) + [f(s[0])]
  }

  /** Element `j` of the reversed mapping is the image of the element `j` places from the end. */
  lemma {:induction false} MapReversedAt<T, U>(f: T -> U, s: seq<T>)
    ensures |MapReversed(f, s)| == |s|
    ensures forall j :: 0 <= j < |s| ==> MapReversed(f, s)[j] == f(s[|s| - 1 - j])
  {
    if s != [] {
      MapReversedAt(f, s[1..]);
    }
  }

  /** `s` is strictly ascending by `key`. */
  ghost predicate Ascending<T>(key: T -> int, s: seq<T>)
  {
    forall i, j :: 0 <= i < j < |s| ==> key(s[i]) < key(s[j])
  }

  /** `s` is strictly descending by `key`. */
  ghost predicate Descending<T>(key: T -> int, s: seq<T>)
  {
    forall i, j :: 0 <= i < j < |s| ==> key(s[i]) > key(s[j])
  }

  lemma {:induction false} FilterAscending<T>(key: T -> int, p: T -> bool, s: seq<T>)
    ensures Ascending(key, s) ==> Ascending(key, Filter(p, s))
  {
    if s != [] && Ascending(key, s) {
      var s' := s[..|s| - 1];
      var x := s[|s| - 1];
      FilterAscending(key, p, s');
      var f := Filter(p, s');
      forall k | 0 <= k < |f| ensures key(f[k]) < key(x) {
        assert f[k] in s';
      }
    }
  }

  lemma {:induction false} FilterDescending<T>(key: T -> int, p: T -> bool, s: seq<T>)
    ensures Descending(key, s) ==> Descending(key, Filter(p, s))
  {
    if s != [] && Descending(key, s) {
      var s' := s[..|s| - 1];
      var x := s[|s| - 1];
      FilterDescending(key, p, s');
      var f := Filter(p, s');
      forall k | 0 <= k < |f| ensures key(f[k]) > key(x) {
        assert f[k] in s';
      }
    }
  }

  lemma ReverseMember<T>(s: seq<T>, x: T)
    ensures x in Reverse(s) <==> x in s
  {
    var r := Reverse(s);
    if x in s {
      var i :| 0 <= i < |s| && s[i] == x;
      assert r[|s| - 1 - i] == x;
    }
  }

  /** The rows a filter keeps, listed newest first, are exactly the kept rows. */
  lemma NewestFirstMembers<T>(keep: T -> bool, s: seq<T>)
    ensures forall x :: x in Reverse(Filter(keep, s)) <==> x in s && keep(x)
  {
    forall x ensures x in Reverse(Filter(keep, s)) <==> x in s && keep(x) {
      ReverseMember(Filter(keep, s), x);
    }
  }

  /** A table in ascending key order, filtered and listed newest first, descends. */
  lemma NewestFirstOrder<T>(key: T -> int, keep: T -> bool, s: seq<T>)
    ensures Ascending(key, s) ==> Descending(key, Reverse(Filter(keep, s)))
  {
    FilterAscending(key, keep, s);
  }

  lemma PrefixDescending<T>(key: T -> int, s: seq<T>, n: nat)
    ensures Descending(key, s) ==> Descending(key, Prefix(s, n))
  {
  }

  /**
   * A kept row missing from the first `n` rows of a table listed newest
   * first has `n` newer kept rows ahead of it.
   */
  lemma NewestFirstTop<T>(key: T -> int, keep: T -> bool, s: seq<T>, x: T, n: nat)
    requires Ascending(key, s) && x in s && keep(x)
    requires x !in Prefix(Reverse(Filter(keep, s)), n)
    ensures |Prefix(Reverse(Filter(keep, s)), n)| == n
    ensures forall k :: 0 <= k < n ==> key(Prefix(Reverse(Filter(keep, s)), n)[k]) > key(x)
  {
    var all := Reverse(Filter(keep, s));
    NewestFirstMembers(keep, s);
    NewestFirstOrder(key, keep, s);
    var j :| 0 <= j < |all| && all[j] == x;
    assert |all| > n;
    var top := Prefix(all, n);
    assert top == all[..n];
    forall k | 0 <= k < n ensures key(top[k]) > key(x) {
      assert key(all[k]) > key(all[j]);
    }
  }
}
