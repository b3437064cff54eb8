/** Generic sequence operations that the components build their views from:
    JavaScript's `filter`, `reduce`-sums, `flatMap`, de-duplication through a
    `Set`, and a stable sort by an integer key. */
module Seqs {

  /** `Array.prototype.filter`: the elements of `s` that satisfy `p`, in order. */
  function Filter<T(!new)>(s: seq<T>, p: T -> bool): (r: seq<T>)
    ensures |r| <= |s|
    ensures forall x :: x in r <==> x in s && p(x)
  {
    if s == [] then [] else (if p(s[0]) then [s[0]] else []) + Filter(s[1..], p)
  }

  /** `a` occurs in `b` as a (not necessarily contiguous) subsequence, in order. */
  ghost predicate IsSubsequence<T>(a: seq<T>, b: seq<T>)
    decreases |b|
  {
    if a == [] then true
    else if b == [] then false
    else if a[0] == b[0] then IsSubsequence(a[1..], b[1..])
    else IsSubsequence(a, b[1..])
  }

  lemma {:induction false} FilterIsSubsequence<T(!new)>(s: seq<T>, p: T -> bool)
    ensures IsSubsequence(Filter(s, p), s)
  {
    if s != [] {
      FilterIsSubsequence(s[1..], p);
      var rest := Filter(s[1..], p);
      if p(s[0]) {
        assert Filter(s, p) == [s[0]] + rest;
        assert ([s[0]] + rest)[1..] == rest;
      } else {
        assert Filter(s, p) == rest;
        if rest != [] {
          assert p(rest[0]);
          assert rest[0] != s[0];
        }
      }
    }
  }

  /** Filtering keeps every copy of a satisfying element and no copy of the others. */
  lemma {:induction false} FilterMultiset<T(!new)>(s: seq<T>, p: T -> bool, x: T)
    ensures multiset(Filter(s, p))[x] == if p(x) then multiset(s)[x] else 0
  {
    if s != [] {
      FilterMultiset(s[1..], p, x);
      assert s == [s[0]] + s[1..];
    }
  }

  lemma {:induction false} FilterConcat<T(!new)>(a: seq<T>, b: seq<T>, p: T -> bool)
    ensures Filter(a + b, p) == Filter(a, p) + Filter(b, p)
  {
    if a == [] {
      assert a + b == b;
    } else {
      assert (a + b)[1..] == a[1..] + b;
      FilterConcat(a[1..], b, p);
    }
  }

  /** A weaker selector keeps at least as many elements. */
  lemma {:induction false} FilterMonotone<T(!new)>(s: seq<T>, p: T -> bool, q: T -> bool)
    requires forall x :: p(x) ==> q(x)
    ensures |Filter(s, p)| <= |Filter(s, q)|
  {
    if s != [] {
      FilterMonotone(s[1..], p, q);
    }
  }

  /** `reduce((sum, x) => sum + f(x), 0)`. */
  function SumOf<T>(s: seq<T>, f: T -> nat): nat
  {
    if s == [] then 0 else f(s[0]) + SumOf(s[1..], f)
  }

  lemma {:induction false} SumOfConcat<T>(a: seq<T>, b: seq<T>, f: T -> nat)
    ensures SumOf(a + b, f) == SumOf(a, f) + SumOf(b, f)
  {
    if a == [] {
      assert a + b == b;
    } else {
      assert (a + b)[1..] == a[1..] + b;
      SumOfConcat(a[1..], b, f);
    }
  }

  function One<T>(): T -> nat
  {
    _ => 1
  }

  lemma {:induction false} SumOfOneIsLength<T>(s: seq<T>)
    ensures SumOf(s, One()) == |s|
  {
    if s != [] {
      SumOfOneIsLength(s[1..]);
    }
  }

  /** The length of what `f` produces, as a weight for `SumOf`. */
  function LengthOf<T, U>(f: T -> seq<U>): T -> nat
  {
    x => |f(x)|
  }

  /** `Array.prototype.flatMap`: the concatenation of `f(x)` over `s`, in order. */
  function FlatMap<T, U>(s: seq<T>, f: T -> seq<U>): seq<U>
  {
    if s == [] then [] else f(s[0]) + FlatMap(s[1..], f)
  }

  lemma {:induction false} FlatMapLength<T, U>(s: seq<T>, f: T -> seq<U>)
    ensures |FlatMap(s, f)| == SumOf(s, LengthOf(f))
  {
    if s != [] {
      FlatMapLength(s[1..], f);
    }
  }

  lemma {:induction false} FlatMapMembers<T, U>(s: seq<T>, f: T -> seq<U>, u: U)
    ensures u in FlatMap(s, f) <==> exists x :: x in s && u in f(x)
  {
    if s != [] {
      FlatMapMembers(s[1..], f, u);
      assert forall x :: x in s <==> x == s[0] || x in s[1..];
    }
  }

  lemma {:induction false} FlatMapMultiset<T, U>(s: seq<T>, f: T -> seq<U>)
    ensures multiset(FlatMap(s, f)) == MultisetUnion(s, f)
  {
    if s != [] {
      FlatMapMultiset(s[1..], f);
    }
  }

  ghost function MultisetUnion<T, U>(s: seq<T>, f: T -> seq<U>): multiset<U>
  {
    if s == [] then multiset{} else multiset(f(s[0])) + MultisetUnion(s[1..], f)
  }

  /** No element occurs twice. */
  ghost predicate NoDup<T>(s: seq<T>)
  {
    forall i, j :: 0 <= i < j < |s| ==> s[i] != s[j]
  }

  /** `[...new Set(s)]`: each element once, in order of first appearance. */
  function Distinct<T(==,!new)>(s: seq<T>): (r: seq<T>)
    ensures NoDup(r)
    ensures forall x :: x in r <==> x in s
    decreases |s|
  {
    if s == [] then []
    else
      var d := Distinct(s[..|s| - 1]);
      assert s == s[..|s| - 1] + [s[|s| - 1]];
      if s[|s| - 1] in d then d else d + [s[|s| - 1]]
  }

  /** The position of the first occurrence of `x` in `s`. */
  function FirstIndex<T(==)>(s: seq<T>, x: T): (k: nat)
    requires x in s
    ensures k < |s| && s[k] == x
    ensures forall j :: 0 <= j < k ==> s[j] != x
    decreases |s|
  {
    if x in s[..|s| - 1] then FirstIndex(s[..|s| - 1], x) else |s| - 1
  }

  lemma FirstIndexExtend<T>(s: seq<T>, y: T, z: T)
    requires z in s
    ensures FirstIndex(s + [y], z) == FirstIndex(s, z)
  {
    assert (s + [y])[..|s|] == s;
  }

  /** `Distinct` lists the elements in the order of their first occurrences. */
  lemma {:induction false} DistinctFirstSeenOrder<T(!new)>(s: seq<T>)
    ensures forall i, j :: 0 <= i < j < |Distinct(s)| ==>
      FirstIndex(s, Distinct(s)[i]) < FirstIndex(s, Distinct(s)[j])
  {
    if s != [] {
      var s' := s[..|s| - 1];
      var y := s[|s| - 1];
      DistinctFirstSeenOrder(s');
      assert s == s' + [y];
      var d' := Distinct(s');
      var d := Distinct(s);
      if y !in d' {
        assert d == d' + [y];
        assert FirstIndex(s, y) == |s| - 1;
        forall i, j | 0 <= i < j < |d|
          ensures FirstIndex(s, d[i]) < FirstIndex(s, d[j])
        {
          assert d[i] == d'[i] && d'[i] in s';
          FirstIndexExtend(s', y, d[i]);
          if j < |d'| {
            assert d[j] == d'[j] && d'[j] in s';
            FirstIndexExtend(s', y, d[j]);
            assert FirstIndex(s', d'[i]) < FirstIndex(s', d'[j]);
          }
        }
      } else {
        assert d == d';
        forall i, j | 0 <= i < j < |d|
          ensures FirstIndex(s, d[i]) < FirstIndex(s, d[j])
        {
          assert d'[i] in s' && d'[j] in s';
          FirstIndexExtend(s', y, d[i]);
          FirstIndexExtend(s', y, d[j]);
          assert FirstIndex(s', d'[i]) < FirstIndex(s', d'[j]);
        }
      }
    }
  }

  /** x occurs exactly once in a duplicate-free sequence that contains it. */
  lemma {:induction false} NoDupCount<T>(s: seq<T>, x: T)
    requires NoDup(s)
    ensures multiset(s)[x] == if x in s then 1 else 0
  {
    if s != [] {
      assert s == [s[0]] + s[1..];
      assert NoDup(s[1..]) by {
        forall i, j | 0 <= i < j < |s[1..]| ensures s[1..][i] != s[1..][j] {
          assert s[1..][i] == s[i + 1] && s[1..][j] == s[j + 1];
        }
      }
      NoDupCount(s[1..], x);
      if x == s[0] {
        forall k | 0 <= k < |s[1..]| ensures s[1..][k] != x {
          assert s[1..][k] == s[k + 1];
        }
      }
    }
  }

  /** Every element of `s` has key at most that of every later element. */
  ghost predicate SortedBy<T>(s: seq<T>, key: T -> int)
  {
    forall i, j :: 0 <= i < j < |s| ==> key(s[i]) <= key(s[j])
  }

  /** Inserts `x` before the first element whose key is at least `key(x)`. */
  function InsertBy<T>(x: T, s: seq<T>, key: T -> int): (r: seq<T>)
    requires SortedBy(s, key)
    ensures SortedBy(r, key)
    ensures multiset(r) == multiset(s) + multiset{x}
  {
    if s == [] || key(x) <= key(s[0]) then
      SortedCons(x, s, key);
      [x] + s
    else
      var rest := InsertBy(x, s[1..], key);
      assert s == [s[0]] + s[1..];
      InsertedAfterHead(x, s, key, rest);
      SortedCons(s[0], rest, key);
      [s[0]] + rest
  }

  /** Every key of `rest`, which holds `x` and the tail of `s`, is at least
      the key of the head of `s`. */
  lemma InsertedAfterHead<T>(x: T, s: seq<T>, key: T -> int, rest: seq<T>)
    requires SortedBy(s, key) && s != [] && key(s[0]) < key(x)
    requires multiset(rest) == multiset(s[1..]) + multiset{x}
    ensures forall k :: 0 <= k < |rest| ==> key(s[0]) <= key(rest[k])
  {
    forall k | 0 <= k < |rest| ensures key(s[0]) <= key(rest[k]) {
      assert rest[k] in multiset(rest);
      if rest[k] != x {
        assert rest[k] in multiset(s[1..]);
        var i :| 0 <= i < |s[1..]| && s[1..][i] == rest[k];
        assert s[1..][i] == s[i + 1];
      }
    }
  }

  /** An element no larger than everything after it keeps the order sorted. */
  lemma SortedCons<T>(y: T, rest: seq<T>, key: T -> int)
    requires SortedBy(rest, key)
    requires forall k :: 0 <= k < |rest| ==> key(y) <= key(rest[k])
    ensures SortedBy([y] + rest, key)
  {
    var r := [y] + rest;
    forall i, j | 0 <= i < j < |r| ensures key(r[i]) <= key(r[j]) {
      assert r[j] == rest[j - 1];
      if i > 0 {
        assert r[i] == rest[i - 1];
      }
    }
  }

  /** `Array.prototype.sort` by ascending `key`; stable, as the ECMAScript sort is. */
  function SortBy<T>(s: seq<T>, key: T -> int): (r: seq<T>)
    ensures SortedBy(r, key)
    ensures multiset(r) == multiset(s)
  {
    if s == [] then []
    else
      assert s == [s[0]] + s[1..];
      InsertBy(s[0], SortBy(s[1..], key), key)
  }

  function HasKey<T>(key: T -> int, k: int): T -> bool
  {
    (x: T) => key(x) == k
  }

  lemma FilterCons<T(!new)>(x: T, t: seq<T>, p: T -> bool)
    ensures Filter([x] + t, p) == (if p(x) then [x] else []) + Filter(t, p)
  {
    assert ([x] + t)[0] == x && ([x] + t)[1..] == t;
  }

  /** Inserting `x` puts it before every element with the same key. */
  lemma {:induction false} InsertByStable<T(!new)>(x: T, s: seq<T>, key: T -> int, k: int)
    requires SortedBy(s, key)
    ensures Filter(InsertBy(x, s, key), HasKey(key, k))
         == (if key(x) == k then [x] else []) + Filter(s, HasKey(key, k))
  {
    var p := HasKey(key, k);
    if s == [] || key(x) <= key(s[0]) {
      FilterCons(x, s, p);
    } else {
      var head, tail := s[0], s[1..];
      var rest := InsertBy(x, tail, key);
      assert InsertBy(x, s, key) == [head] + rest;
      InsertByStable(x, tail, key, k);
      FilterCons(head, rest, p);
      assert s == [head] + tail;
      FilterCons(head, tail, p);
      if key(x) == k {
        assert !p(head);
        assert Filter(rest, p) == [x] + Filter(tail, p);
        assert Filter(s, p) == Filter(tail, p);
      } else {
        assert Filter(rest, p) == Filter(tail, p);
      }
    }
  }

  /** The sort is stable: the elements sharing any one key keep their
      relative order. */
  lemma {:induction false} SortByStable<T(!new)>(s: seq<T>, key: T -> int, k: int)
    ensures Filter(SortBy(s, key), HasKey(key, k)) == Filter(s, HasKey(key, k))
  {
    if s != [] {
      SortByStable(s[1..], key, k);
      InsertByStable(s[0], SortBy(s[1..], key), key, k);
      FilterCons(s[0], s[1..], HasKey(key, k));
      assert s == [s[0]] + s[1..];
    }
  }

  /** Stability, for any test that picks exactly the elements with key `k`. */
  lemma SortByStableFor<T(!new)>(s: seq<T>, key: T -> int, k: int, q: T -> bool)
    requires forall x :: q(x) == (key(x) == k)
    ensures Filter(SortBy(s, key), q) == Filter(s, q)
  {
    var r := SortBy(s, key);
    assert Filter(r, HasKey(key, k)) == Filter(r, q) by {
      FilterAgree(r, HasKey(key, k), q);
    }
    assert Filter(s, HasKey(key, k)) == Filter(s, q) by {
      FilterAgree(s, HasKey(key, k), q);
    }
    SortByStable(s, key, k);
  }

  /** `Array.prototype.map`. */
  function Map<T, U>(s: seq<T>, f: T -> U): (r: seq<U>)
    ensures |r| == |s|
    ensures forall i :: 0 <= i < |r| ==> r[i] == f(s[i])
  {
    if s == [] then [] else [f(s[0])] + Map(s[1..], f)
  }

  /** `Map` of a non-empty sequence: the map of its front, then the image of its last element. */
  lemma {:induction false} MapLast<T, U>(s: seq<T>, f: T -> U)
    requires s != []
    ensures Map(s, f) == Map(s[..|s| - 1], f) + [f(s[|s| - 1])]
  {
    var a := Map(s, f);
    var front := Map(s[..|s| - 1], f);
    var b := front + [f(s[|s| - 1])];
    forall i | 0 <= i < |a| ensures a[i] == b[i] {
      if i < |s| - 1 {
        assert b[i] == front[i] == f(s[..|s| - 1][i]);
      }
    }
  }

  /** Filtering a duplicate-free sequence leaves it duplicate-free. */
  lemma {:induction false} FilterNoDup<T(!new)>(s: seq<T>, p: T -> bool)
    requires NoDup(s)
    ensures NoDup(Filter(s, p))
  {
    if s != [] {
      assert NoDup(s[1..]) by {
        forall i, j | 0 <= i < j < |s[1..]| ensures s[1..][i] != s[1..][j] {
          assert s[1..][i] == s[i + 1] && s[1..][j] == s[j + 1];
        }
      }
      FilterNoDup(s[1..], p);
      var rest := Filter(s[1..], p);
      forall k | 0 <= k < |rest| ensures rest[k] != s[0] {
        assert rest[k] in rest;
        var m :| 0 <= m < |s[1..]| && s[1..][m] == rest[k];
        assert s[1..][m] == s[m + 1];
      }
    }
  }

  /** `x => key(x) === k`. */
  function KeyIs<T(!new), K(==,!new)>(key: T -> K, k: K): T -> bool
  {
    x => key(x) == k
  }

  /** The size of the bucket of `k` when `s` is grouped by `key`. */
  function BucketSize<T(!new), K(==,!new)>(s: seq<T>, key: T -> K): K -> nat
  {
    k => |Filter(s, KeyIs(key, k))|
  }

  lemma {:induction false} SumOfPlusIndicator<K>(d: seq<K>, f: K -> nat, g: K -> nat, kx: K)
    requires NoDup(d)
    requires forall k :: k in d ==> f(k) == g(k) + (if k == kx then 1 else 0)
    ensures SumOf(d, f) == SumOf(d, g) + (if kx in d then 1 else 0)
  {
    if d != [] {
      assert NoDup(d[1..]) by {
        forall i, j | 0 <= i < j < |d[1..]| ensures d[1..][i] != d[1..][j] {
          assert d[1..][i] == d[i + 1] && d[1..][j] == d[j + 1];
        }
      }
      SumOfPlusIndicator(d[1..], f, g, kx);
      if d[0] == kx {
        forall k | 0 <= k < |d[1..]| ensures d[1..][k] != kx {
          assert d[1..][k] == d[k + 1];
        }
      }
      assert kx in d <==> kx == d[0] || kx in d[1..];
    }
  }

  /** `Distinct` of a sequence extended by one element. */
  lemma {:induction false} DistinctSnoc<T(!new)>(a: seq<T>, y: T)
    ensures Distinct(a + [y]) == if y in Distinct(a) then Distinct(a) else Distinct(a) + [y]
  {
    assert (a + [y])[..|a + [y]| - 1] == a;
  }

  lemma {:induction false} FilterNone<T(!new)>(s: seq<T>, p: T -> bool)
    requires forall i :: 0 <= i < |s| ==> !p(s[i])
    ensures Filter(s, p) == []
  {
    if s != [] {
      assert forall i :: 0 <= i < |s[1..]| ==> s[1..][i] == s[i + 1];
      FilterNone(s[1..], p);
    }
  }

  lemma {:induction false} FilterAll<T(!new)>(s: seq<T>, p: T -> bool)
    requires forall i :: 0 <= i < |s| ==> p(s[i])
    ensures Filter(s, p) == s
  {
    if s != [] {
      assert forall i :: 0 <= i < |s[1..]| ==> s[1..][i] == s[i + 1];
      FilterAll(s[1..], p);
    }
  }

  /** Selectors that agree on every element select the same subsequence. */
  lemma {:induction false} FilterAgree<T(!new)>(s: seq<T>, p: T -> bool, q: T -> bool)
    requires forall i :: 0 <= i < |s| ==> p(s[i]) == q(s[i])
    ensures Filter(s, p) == Filter(s, q)
  {
    if s != [] {
      assert forall i :: 0 <= i < |s[1..]| ==> s[1..][i] == s[i + 1];
      FilterAgree(s[1..], p, q);
    }
  }

  /** A key no element has gets an empty bucket. */
  lemma {:induction false} EmptyBucket<T(!new), K(!new)>(s: seq<T>, key: T -> K, k: K)
    requires k !in Map(s, key)
    ensures BucketSize(s, key)(k) == 0
  {
    forall i | 0 <= i < |s| ensures !KeyIs(key, k)(s[i]) {
      assert Map(s, key)[i] == key(s[i]);
    }
    FilterNone(s, KeyIs(key, k));
  }

  /** One more element adds one to its own bucket and nothing to the others. */
  lemma {:induction false} BucketSnoc<T(!new), K(!new)>(s: seq<T>, x: T, key: T -> K, k: K)
    ensures BucketSize(s + [x], key)(k) == BucketSize(s, key)(k) + (if key(x) == k then 1 else 0)
  {
    FilterConcat(s, [x], KeyIs(key, k));
    assert [x][1..] == [];
  }

  /** The inductive step of `BucketSizesSum`, whose hypothesis it takes as `requires`. */
  lemma {:induction false} BucketSizesSumStep<T(!new), K(!new)>(s: seq<T>, x: T, key: T -> K)
    requires SumOf(Distinct(Map(s, key)), BucketSize(s, key)) == |s|
    ensures SumOf(Distinct(Map(s + [x], key)), BucketSize(s + [x], key)) == |s| + 1
  {
    var kx := key(x);
    assert Map(s + [x], key) == Map(s, key) + [kx];
    var d := Distinct(Map(s, key));
    DistinctSnoc(Map(s, key), kx);
    var f, g := BucketSize(s + [x], key), BucketSize(s, key);
    forall k | k in d + [kx] ensures f(k) == g(k) + (if k == kx then 1 else 0) {
      BucketSnoc(s, x, key, k);
    }
    SumOfPlusIndicator(d, f, g, kx);
    if kx !in d {
      NewBucket(d, f, g, kx);
      EmptyBucket(s, key, kx);
    }
  }

  lemma {:induction false} NewBucket<K>(d: seq<K>, f: K -> nat, g: K -> nat, kx: K)
    requires kx !in d
    requires SumOf(d, f) == SumOf(d, g)
    ensures SumOf(d + [kx], f) == SumOf(d, g) + f(kx)
  {
    SumOfConcat(d, [kx], f);
    assert SumOf([kx], f) == f(kx) + SumOf([], f);
  }

  /** Grouping by a key puts every element in exactly one bucket: the bucket
      sizes, over the distinct keys, add up to the length. */
  lemma {:induction false} BucketSizesSum<T(!new), K(!new)>(s: seq<T>, key: T -> K)
    ensures SumOf(Distinct(Map(s, key)), BucketSize(s, key)) == |s|
    decreases |s|
  {
    if s == [] {
      assert Map(s, key) == [];
    } else {
      BucketSizesSum(s[..|s| - 1], key);
      BucketSizesSumStep(s[..|s| - 1], s[|s| - 1], key);
      assert s == s[..|s| - 1] + [s[|s| - 1]];
    }
  }

  lemma {:induction false} FilterSnoc<T(!new)>(s: seq<T>, x: T, p: T -> bool)
    ensures Filter(s + [x], p) == Filter(s, p) + (if p(x) then [x] else [])
  {
    FilterConcat(s, [x], p);
    assert [x][1..] == [];
  }

  /** What a `reduce` that pushes each element onto the bucket of its key
      has built after `prefix`: `order` lists the keys in bucket-creation order. */
  ghost predicate GroupedBy<T(!new), K(!new)>(prefix: seq<T>, key: T -> K, groups: map<K, seq<T>>, order: seq<K>)
  {
    && order == Distinct(Map(prefix, key))
    && (forall k :: k in groups <==> k in order)
    && (forall k :: k in groups ==> groups[k] == Filter(prefix, KeyIs(key, k)))
  }

  /** Before the first element, there are no buckets. */
  lemma GroupedByStart<T(!new), K(!new)>(s: seq<T>, key: T -> K)
    ensures GroupedBy(s[..0], key, map[], [])
  {
    assert Map(s[..0], key) == [];
  }

  /** The keys after one more element, whether or not its key is new. */
  lemma {:induction false} DistinctKeysSnoc<T(!new), K(!new)>(prefix: seq<T>, x: T, key: T -> K)
    ensures Distinct(Map(prefix + [x], key)) == if key(x) in Distinct(Map(prefix, key))
      then Distinct(Map(prefix, key)) else Distinct(Map(prefix, key)) + [key(x)]
  {
    MapLast(prefix + [x], key);
    assert (prefix + [x])[..|prefix|] == prefix;
    DistinctSnoc(Map(prefix, key), key(x));
  }

  /** One step of that `reduce` when the bucket of `s[i]` exists: push onto it. */
  lemma GroupedByPush<T(!new), K(!new)>(s: seq<T>, i: nat, key: T -> K,
                                        groups: map<K, seq<T>>, order: seq<K>)
    requires i < |s| && GroupedBy(s[..i], key, groups, order)
    requires key(s[i]) in groups
    ensures GroupedBy(s[..i + 1], key, groups[key(s[i]) := groups[key(s[i])] + [s[i]]], order)
  {
    assert s[..i + 1] == s[..i] + [s[i]];
    PushOnto(s[..i], s[i], key, groups, order);
  }

  lemma PushOnto<T(!new), K(!new)>(prefix: seq<T>, x: T, key: T -> K,
                                   groups: map<K, seq<T>>, order: seq<K>)
    requires GroupedBy(prefix, key, groups, order)
    requires key(x) in groups
    ensures GroupedBy(prefix + [x], key, groups[key(x) := groups[key(x)] + [x]], order)
  {
    var g' := groups[key(x) := groups[key(x)] + [x]];
    assert order == Distinct(Map(prefix + [x], key)) by {
      DistinctKeysSnoc(prefix, x, key);
      assert key(x) in order;
    }
    assert forall k :: k in g' <==> k in order by {
      assert key(x) in order;
    }
    assert forall k :: k in g' ==> g'[k] == Filter(prefix + [x], KeyIs(key, k)) by {
      BucketsAfterPush(prefix, x, key, groups);
    }
    GroupedByIntro(prefix + [x], key, g', order);
  }

  lemma GroupedByIntro<T(!new), K(!new)>(prefix: seq<T>, key: T -> K, groups: map<K, seq<T>>, order: seq<K>)
    requires order == Distinct(Map(prefix, key))
    requires forall k :: k in groups <==> k in order
    requires forall k :: k in groups ==> groups[k] == Filter(prefix, KeyIs(key, k))
    ensures GroupedBy(prefix, key, groups, order)
  {
  }

  lemma BucketsAfterPush<T(!new), K(!new)>(prefix: seq<T>, x: T, key: T -> K, groups: map<K, seq<T>>)
    requires key(x) in groups
    requires forall k :: k in groups ==> groups[k] == Filter(prefix, KeyIs(key, k))
    ensures var g' := groups[key(x) := groups[key(x)] + [x]];
      forall k :: k in g' ==> g'[k] == Filter(prefix + [x], KeyIs(key, k))
  {
    forall k | k in groups {
      FilterSnoc(prefix, x, KeyIs(key, k));
    }
  }

  /** One step of that `reduce` when the key of `s[i]` is new: a bucket holding just it. */
  lemma GroupedByNew<T(!new), K(!new)>(s: seq<T>, i: nat, key: T -> K,
                                       groups: map<K, seq<T>>, order: seq<K>)
    requires i < |s| && GroupedBy(s[..i], key, groups, order)
    requires key(s[i]) !in groups
    ensures GroupedBy(s[..i + 1], key, groups[key(s[i]) := [s[i]]], order + [key(s[i])])
  {
    assert s[..i + 1] == s[..i] + [s[i]];
    OpenBucket(s[..i], s[i], key, groups, order);
  }

  lemma OpenBucket<T(!new), K(!new)>(prefix: seq<T>, x: T, key: T -> K,
                                     groups: map<K, seq<T>>, order: seq<K>)
    requires GroupedBy(prefix, key, groups, order)
    requires key(x) !in groups
    ensures GroupedBy(prefix + [x], key, groups[key(x) := [x]], order + [key(x)])
  {
    var g' := groups[key(x) := [x]];
    assert order + [key(x)] == Distinct(Map(prefix + [x], key)) by {
      DistinctKeysSnoc(prefix, x, key);
    }
    assert forall k :: k in g' <==> k in order + [key(x)];
    assert forall k :: k in g' ==> g'[k] == Filter(prefix + [x], KeyIs(key, k)) by {
      forall k | k in g' ensures g'[k] == Filter(prefix + [x], KeyIs(key, k)) {
        FilterSnoc(prefix, x, KeyIs(key, k));
        if k == key(x) {
          EmptyBucket(prefix, key, key(x));
        }
      }
    }
    GroupedByIntro(prefix + [x], key, g', order + [key(x)]);
  }

  /** Two equal elements at different positions occur at least twice in the multiset. */
  lemma CountTwoPositions<T>(t: seq<T>, i: nat, j: nat)
    requires i < j < |t| && t[i] == t[j]
    ensures multiset(t)[t[i]] >= 2
  {
    assert t == t[..j] + [t[j]] + t[j + 1..];
    assert t[..j][i] == t[i];
  }

  /** An element that occurs at least twice has two positions. */
  lemma TwoPositions<T>(s: seq<T>, x: T) returns (a: nat, b: nat)
    requires multiset(s)[x] >= 2
    ensures a < b < |s| && s[a] == x && s[b] == x
  {
    a := FirstIndex(s, x);
    assert s == s[..a] + [x] + s[a + 1..];
    assert x !in s[..a];
    assert multiset(s[a + 1..])[x] >= 1;
    var c :| 0 <= c < |s[a + 1..]| && s[a + 1..][c] == x;
    b := a + 1 + c;
  }

  /** A permutation has the same images. */
  lemma PermutationKeepsImages<T, U>(s: seq<T>, t: seq<T>, f: T -> U, u: U)
    requires multiset(s) == multiset(t)
    ensures u in Map(s, f) <==> u in Map(t, f)
  {
    if u in Map(s, f) {
      var i :| 0 <= i < |s| && Map(s, f)[i] == u;
      assert s[i] in multiset(t);
      var j :| 0 <= j < |t| && t[j] == s[i];
      assert Map(t, f)[j] == u;
    }
    if u in Map(t, f) {
      var j :| 0 <= j < |t| && Map(t, f)[j] == u;
      assert t[j] in multiset(s);
      var i :| 0 <= i < |s| && s[i] == t[j];
      assert Map(s, f)[i] == u;
    }
  }

  /** Distinct keys survive any permutation of the elements. */
  lemma PermutationKeepsKeysDistinct<T, K>(s: seq<T>, t: seq<T>, key: T -> K)
    requires multiset(s) == multiset(t)
    requires NoDup(Map(s, key))
    ensures NoDup(Map(t, key))
  {
    forall i, j | 0 <= i < j < |t| ensures Map(t, key)[i] != Map(t, key)[j] {
      var a, b;
      if t[i] == t[j] {
        CountTwoPositions(t, i, j);
        a, b := TwoPositions(s, t[i]);
      } else {
        assert t[i] in multiset(s) && t[j] in multiset(s);
        a :| 0 <= a < |s| && s[a] == t[i];
        b :| 0 <= b < |s| && s[b] == t[j];
      }
      assert a != b && Map(s, key)[a] == key(t[i]) && Map(s, key)[b] == key(t[j]);
    }
  }
}
