/** The array operations the views build on: `Array.prototype.filter`
    and `Array.prototype.sort`, which ECMA-262 requires to be stable since
    its 2019 edition, with a comparator `(a, b) => key(a) - key(b)`. */
module Seqs {

  /** `s.filter(p)`: the elements satisfying `p`, in their original order. */
  function Filter<T(==)>(s: seq<T>, p: T -> bool): (r: seq<T>)
    ensures |r| <= |s|
    ensures forall i :: 0 <= i < |r| ==> r[i] in s && p(r[i])
    ensures forall i :: 0 <= i < |s| && p(s[i]) ==> s[i] in r
  {
    if s == [] then []
    else (if p(s[0]) then [s[0]] else []) + Filter(s[1..], p)
  }

  /** Filtering distributes over concatenation: the kept elements of a
      prefix come before those of the rest, so relative order is kept. */
  lemma {:induction false} FilterConcat<T>(a: seq<T>, b: seq<T>, p: T -> bool)
    ensures Filter(a + b, p) == Filter(a, p) + Filter(b, p)
  {
    if a == [] {
      assert a + b == b;
    } else {
      assert (a + b)[1..] == a[1..] + b;
      FilterConcat(a[1..], b, p);
    }
  }

  /** Filtering with a predicate every element satisfies changes nothing. */
  lemma {:induction false} FilterKeepsAll<T>(s: seq<T>, p: T -> bool)
    requires forall i :: 0 <= i < |s| ==> p(s[i])
    ensures Filter(s, p) == s
  {
    if s != [] {
      FilterKeepsAll(s[1..], p);
    }
  }

  /** Filtering out the one element that fails the predicate. */
  lemma {:induction false} FilterDropsOne<T>(s: seq<T>, p: T -> bool, i: nat)
    requires i < |s| && !p(s[i])
    requires forall j :: 0 <= j < |s| && j != i ==> p(s[j])
    ensures Filter(s, p) == s[..i] + s[i + 1..]
  {
    var t := s[1..];
    FilterCons(s, p);
    if i == 0 {
      FilterKeepsAll(t, p);
      assert s[..0] + s[1..] == t;
    } else {
      assert forall j :: 0 <= j < |t| && j != i - 1 ==> p(t[j]) by {
        forall j | 0 <= j < |t| && j != i - 1 ensures p(t[j]) {
          assert t[j] == s[j + 1];
        }
      }
      FilterDropsOne(t, p, i - 1);
      SkipAfterHead(s, i);
    }
  }

  /** Dropping position `i > 0` is keeping the head and dropping
      position `i - 1` of the tail. */
  lemma SkipAfterHead<T>(s: seq<T>, i: nat)
    requires 0 < i < |s|
    ensures s[..i] + s[i + 1..] == [s[0]] + (s[1..][..i - 1] + s[1..][i..])
  {
    assert s[..i] == [s[0]] + s[1..][..i - 1];
    assert s[i + 1..] == s[1..][i..];
  }

  /** A predicate and its negation split a sequence: every element lands
      in exactly one of the two filters. */
  lemma {:induction false} FilterSplit<T>(s: seq<T>, p: T -> bool, q: T -> bool)
    requires forall x :: q(x) == !p(x)
    ensures multiset(Filter(s, p)) + multiset(Filter(s, q)) == multiset(s)
    ensures |Filter(s, p)| + |Filter(s, q)| == |s|
  {
    if s != [] {
      FilterSplit(s[1..], p, q);
      assert s == [s[0]] + s[1..];
    }
  }

  /** Removing the element at `j` removes one copy of it from the multiset. */
  lemma MultisetWithout<T>(s: seq<T>, j: nat)
    requires j < |s|
    ensures multiset(s[..j] + s[j + 1..]) == multiset(s) - multiset{s[j]}
  {
    assert s == s[..j] + [s[j]] + s[j + 1..];
  }

  /** No two elements of `s` share a key. */
  ghost predicate KeysDistinct<T>(s: seq<T>, key: T -> int)
  {
    forall i, j :: 0 <= i < j < |s| ==> key(s[i]) != key(s[j])
  }

  /** Filtering never creates two elements with the same key. */
  lemma {:induction false} FilterKeysDistinct<T>(s: seq<T>, p: T -> bool, key: T -> int)
    requires KeysDistinct(s, key)
    ensures KeysDistinct(Filter(s, p), key)
  {
    if s != [] {
      FilterKeysDistinct(s[1..], p, key);
      var rest := Filter(s[1..], p);
      forall i | 0 <= i < |rest| ensures key(rest[i]) != key(s[0]) {
        var j :| 0 <= j < |s[1..]| && s[1..][j] == rest[i];
        assert s[j + 1] == rest[i];
      }
    }
  }

  /** `s` is in ascending order of `key`. */
  ghost predicate SortedBy<T>(s: seq<T>, key: T -> int)
  {
    forall i, j :: 0 <= i < j < |s| ==> key(s[i]) <= key(s[j])
  }

  /** Inserts `x` into a sorted sequence before the first element whose key
      is not smaller: `x` goes before the elements with an equal key. */
  function Insert<T(==)>(x: T, s: seq<T>, key: T -> int): (r: seq<T>)
    requires SortedBy(s, key)
    ensures SortedBy(r, key)
    ensures multiset(r) == multiset(s) + multiset{x}
    ensures |r| == |s| + 1
  {
    if s == [] || key(x) <= key(s[0]) then
      assert s == [] || key(x) <= key(s[0]);
      [x] + s
    else
      var rest := Insert(x, s[1..], key);
      InsertBehindHead(x, s, key, rest);
      [s[0]] + rest
  }

  /** The step of `Insert` that keeps the head: the head's key is below
      every key of the tail and of `x`, so it stays in front. */
  lemma InsertBehindHead<T>(x: T, s: seq<T>, key: T -> int, rest: seq<T>)
    requires s != [] && SortedBy(s, key) && key(s[0]) < key(x)
    requires SortedBy(rest, key) && multiset(rest) == multiset(s[1..]) + multiset{x}
    ensures SortedBy([s[0]] + rest, key)
    ensures multiset([s[0]] + rest) == multiset(s) + multiset{x}
  {
    assert s == [s[0]] + s[1..];
    forall i | 0 <= i < |rest| ensures key(s[0]) <= key(rest[i]) {
      assert rest[i] in multiset(rest);
      if rest[i] != x {
        assert rest[i] in multiset(s[1..]);
        var j :| 0 <= j < |s[1..]| && s[1..][j] == rest[i];
        assert s[j + 1] == rest[i];
      }
    }
    var r := [s[0]] + rest;
    forall i, j | 0 <= i < j < |r| ensures key(r[i]) <= key(r[j]) {
      assert r[j] == rest[j - 1];
      if i > 0 {
        assert r[i] == rest[i - 1];
      }
    }
  }

  /** Insertion sort by `key`, ascending; stable because each element is
      inserted in front of the later elements with an equal key. */
  function SortBy<T(==)>(s: seq<T>, key: T -> int): (r: seq<T>)
    ensures SortedBy(r, key)
    ensures multiset(r) == multiset(s)
    ensures |r| == |s|
  {
    if s == [] then []
    else
      assert s == [s[0]] + s[1..];
      Insert(s[0], SortBy(s[1..], key), key)
  }

  /** The predicate "has key `k`". */
  function KeyIs<T>(key: T -> int, k: int): T -> bool
  {
    x => key(x) == k
  }

  /** Inserting `x` adds it to the front of its key group and leaves the
      other groups as they were. */
  lemma {:induction false} InsertGroups<T>(x: T, s: seq<T>, key: T -> int, k: int)
    requires SortedBy(s, key)
    ensures Filter(Insert(x, s, key), KeyIs(key, k))
         == (if key(x) == k then [x] else []) + Filter(s, KeyIs(key, k))
  {
    if s == [] || key(x) <= key(s[0]) {
      assert Insert(x, s, key) == [x] + s;
      FilterCons([x] + s, KeyIs(key, k));
      assert ([x] + s)[1..] == s;
    } else {
      var rest := Insert(x, s[1..], key);
      assert Insert(x, s, key) == [s[0]] + rest;
      InsertGroups(x, s[1..], key, k);
      BehindHeadGroups(x, s[0], rest, s[1..], key, k);
      assert [s[0]] + s[1..] == s;
    }
  }

  /** The step of `InsertGroups` past a head `y` whose key is below `x`'s:
      `y` and `x` never share a key group, so `x` may pass `y`. */
  lemma BehindHeadGroups<T>(x: T, y: T, rest: seq<T>, tail: seq<T>, key: T -> int, k: int)
    requires key(y) < key(x)
    requires Filter(rest, KeyIs(key, k)) == (if key(x) == k then [x] else []) + Filter(tail, KeyIs(key, k))
    ensures Filter([y] + rest, KeyIs(key, k))
         == (if key(x) == k then [x] else []) + Filter([y] + tail, KeyIs(key, k))
  {
    var p := KeyIs(key, k);
    FilterCons([y] + rest, p);
    assert ([y] + rest)[1..] == rest;
    FilterCons([y] + tail, p);
    assert ([y] + tail)[1..] == tail;
    var hx: seq<T> := if key(x) == k then [x] else [];
    var hy: seq<T> := if p(y) then [y] else [];
    SwapEmpty(hy, hx, Filter(tail, p));
  }

  /** Two pieces of which one is empty can be swapped. */
  lemma SwapEmpty<T>(a: seq<T>, b: seq<T>, c: seq<T>)
    requires a == [] || b == []
    ensures a + (b + c) == b + (a + c)
  {
    if a == [] {
      assert a + (b + c) == b + c == b + (a + c);
    } else {
      assert a + (b + c) == a + c == b + (a + c);
    }
  }

  /** Stability: for every key, the elements with that key appear in the
      sorted result in the same order as in the input. */
  lemma {:induction false} SortByStable<T>(s: seq<T>, key: T -> int, k: int)
    ensures Filter(SortBy(s, key), KeyIs(key, k)) == Filter(s, KeyIs(key, k))
  {
    if s != [] {
      SortByStable(s[1..], key, k);
      InsertGroups(s[0], SortBy(s[1..], key), key, k);
    }
  }

  /** One step of `Filter`: the head is kept or dropped, then the rest. */
  lemma FilterCons<T>(s: seq<T>, p: T -> bool)
    requires s != []
    ensures Filter(s, p) == (if p(s[0]) then [s[0]] else []) + Filter(s[1..], p)
  {
  }

  /** The head of a sorted sequence has the smallest key. */
  lemma SortedHeadIsLeast<T>(a: seq<T>, key: T -> int, y: T)
    requires SortedBy(a, key) && y in a
    ensures key(a[0]) <= key(y)
  {
    var j :| 0 <= j < |a| && a[j] == y;
    assert j == 0 || key(a[0]) <= key(a[j]);
  }

  /** Non-empty sorted sequences that agree on the key groups of both
      heads start with the same element. */
  lemma SortedSameHead<T>(a: seq<T>, b: seq<T>, key: T -> int)
    requires SortedBy(a, key) && SortedBy(b, key) && a != [] && b != []
    requires Filter(a, KeyIs(key, key(a[0]))) == Filter(b, KeyIs(key, key(a[0])))
    requires Filter(a, KeyIs(key, key(b[0]))) == Filter(b, KeyIs(key, key(b[0])))
    ensures a[0] == b[0]
  {
    var ka, kb := key(a[0]), key(b[0]);
    var fa, fb := Filter(a, KeyIs(key, kb)), Filter(b, KeyIs(key, kb));
    FilterCons(b, KeyIs(key, kb));
    assert fb[0] == b[0];
    assert b[0] in a by { assert fa[0] in a; }
    SortedHeadIsLeast(a, key, b[0]);
    var ga, gb := Filter(a, KeyIs(key, ka)), Filter(b, KeyIs(key, ka));
    FilterCons(a, KeyIs(key, ka));
    assert ga[0] == a[0];
    assert a[0] in b by { assert gb[0] in b; }
    SortedHeadIsLeast(b, key, a[0]);
    assert ka == kb;
  }

  /** Dropping an equal head keeps equal key groups equal. */
  lemma TailGroups<T>(a: seq<T>, b: seq<T>, key: T -> int, k: int)
    requires a != [] && b != [] && a[0] == b[0]
    requires Filter(a, KeyIs(key, k)) == Filter(b, KeyIs(key, k))
    ensures Filter(a[1..], KeyIs(key, k)) == Filter(b[1..], KeyIs(key, k))
  {
    var p := KeyIs(key, k);
    var h: seq<T> := if p(a[0]) then [a[0]] else [];
    FilterCons(a, p);
    FilterCons(b, p);
    calc {
      Filter(a[1..], p);
      (h + Filter(a[1..], p))[|h|..];
      (h + Filter(b[1..], p))[|h|..];
      Filter(b[1..], p);
    }
  }

  /** The key group of the head of a non-empty sequence is not empty. */
  lemma HeadGroupNonEmpty<T>(s: seq<T>, key: T -> int)
    requires s != []
    ensures Filter(s, KeyIs(key, key(s[0]))) != []
  {
    FilterCons(s, KeyIs(key, key(s[0])));
  }

  /** Two sorted sequences with the same key groups are equal. */
  lemma {:induction false} SortedGroupsDetermine<T>(a: seq<T>, b: seq<T>, key: T -> int)
    requires SortedBy(a, key) && SortedBy(b, key)
    requires forall k :: Filter(a, KeyIs(key, k)) == Filter(b, KeyIs(key, k))
    ensures a == b
    decreases |a| + |b|
  {
    if a == [] || b == [] {
      var c := if a == [] then b else a;
      if c != [] {
        HeadGroupNonEmpty(c, key);
      }
    } else {
      SortedSameHead(a, b, key);
      forall k ensures Filter(a[1..], KeyIs(key, k)) == Filter(b[1..], KeyIs(key, k)) {
        TailGroups(a, b, key, k);
      }
      SortedGroupsDetermine(a[1..], b[1..], key);
      assert a == [a[0]] + a[1..] && b == [b[0]] + b[1..];
    }
  }

  /** Any sorted arrangement of `s` that keeps each key group in input
      order is exactly `SortBy(s, key)`; so `SortBy` gives what every
      stable sort with the comparator `key(a) - key(b)` gives. */
  lemma StableSortIsSortBy<T>(s: seq<T>, r: seq<T>, key: T -> int)
    requires SortedBy(r, key)
    requires forall k :: Filter(r, KeyIs(key, k)) == Filter(s, KeyIs(key, k))
    ensures r == SortBy(s, key)
  {
    forall k ensures Filter(r, KeyIs(key, k)) == Filter(SortBy(s, key), KeyIs(key, k)) {
      SortByStable(s, key, k);
    }
    SortedGroupsDetermine(r, SortBy(s, key), key);
  }

  /** Every element of a sorted filter result comes from the input and
      passes the filter. */
  lemma SortFilterMembers<T>(s: seq<T>, p: T -> bool, key: T -> int)
    ensures forall i :: 0 <= i < |SortBy(Filter(s, p), key)| ==>
              SortBy(Filter(s, p), key)[i] in s && p(SortBy(Filter(s, p), key)[i])
  {
    var f := Filter(s, p);
    var r := SortBy(f, key);
    forall i | 0 <= i < |r| ensures r[i] in s && p(r[i]) {
      assert r[i] in multiset(r);
      assert r[i] in multiset(f);
      var j :| 0 <= j < |f| && f[j] == r[i];
    }
  }

  /** `s.filter(p).sort(...)` with the comparator `key(a) - key(b)`: the
      elements that pass, as a permutation of the filter, in ascending
      key order. */
  function SortedFilter<T(==)>(s: seq<T>, p: T -> bool, key: T -> int): (r: seq<T>)
    ensures multiset(r) == multiset(Filter(s, p))
    ensures forall i :: 0 <= i < |r| ==> r[i] in s && p(r[i])
    ensures forall i, j :: 0 <= i < j < |r| ==> key(r[i]) <= key(r[j])
  {
    SortFilterMembers(s, p, key);
    SortBy(Filter(s, p), key)
  }

  /** `s.slice(0, n)`: at most the first `n` elements. */
  function Take<T>(s: seq<T>, n: nat): (r: seq<T>)
    ensures |r| == if |s| < n then |s| else n
    ensures r == s[..|r|]
  {
    if |s| <= n then s else s[..n]
  }
}
