/**
 * The generic array helpers of the browser's shared extensions: multiset
 * comparison, first match, membership under a custom relation, key-based and
 * comparator-based de-duplication, union, chunking, universal quantification
 * and bounds-checked indexing. Arrays are sequences.
 */
module ArrayExtensions {
  import opened Wrappers

  // ---------------------------------------------------------------------------
  // sameElements: sort both arrays, then compare them element by element
  // ---------------------------------------------------------------------------

  predicate SortedAsc(s: seq<int>) {
    forall i, j :: 0 <= i < j < |s| ==> s[i] <= s[j]
  }

  /** Inserts `x` into the sorted sequence `s`, keeping it sorted. */
  function Insert(x: int, s: seq<int>): (r: seq<int>)
    requires SortedAsc(s)
    ensures SortedAsc(r) && |r| == |s| + 1
    ensures multiset(r) == multiset(s) + multiset{x}
    ensures forall i :: 0 <= i < |r| ==> r[i] == x || r[i] in s
  {
    if s == [] then [x]
    else if x <= s[0] then [x] + s
    else
      var rest := Insert(x, s[1..]);
      assert s == [s[0]] + s[1..];
      assert forall i :: 0 <= i < |rest| ==> s[0] <= rest[i];
      [s[0]] + rest
  }

  /** The ascending sort that `sorted(by: <)` performs; which algorithm it uses
      is immaterial, since its result is the unique sorted permutation. */
  function Sort(s: seq<int>): (r: seq<int>)
    ensures SortedAsc(r) && |r| == |s|
    ensures multiset(r) == multiset(s)
  {
    if s == [] then []
    else
      assert s == [s[0]] + s[1..];
      Insert(s[0], Sort(s[1..]))
  }

  /** The head of a non-empty sorted sequence is its least element. */
  lemma SortedHeadIsLeast(a: seq<int>, y: int)
    requires SortedAsc(a) && y in multiset(a)
    ensures a[0] <= y
  {
    var i :| 0 <= i < |a| && a[i] == y;
  }

  lemma SortedTail(a: seq<int>)
    requires SortedAsc(a) && a != []
    ensures SortedAsc(a[1..])
    ensures multiset(a[1..]) == multiset(a) - multiset{a[0]}
  {
    assert a == [a[0]] + a[1..];
  }

  /** Two sorted sequences holding the same multiset of elements are equal. */
  lemma {:induction false} SortedSameMultisetEqual(a: seq<int>, b: seq<int>)
    requires SortedAsc(a) && SortedAsc(b)
    requires multiset(a) == multiset(b)
    ensures a == b
  {
    assert |a| == |multiset(a)| == |multiset(b)| == |b|;
    if a != [] {
      SortedHeadIsLeast(a, b[0]);
      SortedHeadIsLeast(b, a[0]);
      SortedTail(a);
      SortedTail(b);
      assert a[0] == b[0];
      assert multiset(a[1..]) == multiset(b[1..]);
      SortedSameMultisetEqual(a[1..], b[1..]);
      assert a == [a[0]] + a[1..] && b == [b[0]] + b[1..];
    }
  }

  /** Two sorted sequences are equal exactly when they hold the same multiset
      of elements: the reason that comparing sorted copies decides multiset
      equality. */
  lemma SortedEqualIffSameMultiset(a: seq<int>, b: seq<int>)
    requires SortedAsc(a) && SortedAsc(b)
    ensures a == b <==> multiset(a) == multiset(b)
  {
    if multiset(a) == multiset(b) {
      SortedSameMultisetEqual(a, b);
    }
  }

  /** `sameElements`: false when the lengths differ; otherwise true exactly
      when the two sorted copies agree at every position. */
  method SameElements(self: seq<int>, arr: seq<int>) returns (r: bool)
    ensures r <==> multiset(self) == multiset(arr)
  {
    if |self| != |arr| {
      assert |multiset(self)| != |multiset(arr)|;
      return false;
    }
    var sorted := Sort(self);
    var arrSorted := Sort(arr);
    SortedEqualIffSameMultiset(sorted, arrSorted);
    for i := 0 to |sorted|
      invariant forall j :: 0 <= j < i ==> sorted[j] == arrSorted[j]
    {
      if sorted[i] != arrSorted[i] {
        return false;
      }
    }
    assert sorted == arrSorted;
    return true;
  }

  // ---------------------------------------------------------------------------
  // find, contains(_:f:), every, subscript(safe:)
  // ---------------------------------------------------------------------------

  /** `find`: the first element that satisfies `f`, or None when none does. */
  method Find<T>(self: seq<T>, f: T -> bool) returns (r: Option<T>)
    ensures r.None? <==> forall i :: 0 <= i < |self| ==> !f(self[i])
    ensures r.Some? ==>
      exists i :: 0 <= i < |self| && self[i] == r.value && f(self[i]) &&
        forall j :: 0 <= j < i ==> !f(self[j])
  {
    for i := 0 to |self|
      invariant forall j :: 0 <= j < i ==> !f(self[j])
    {
      if f(self[i]) {
        return Some(self[i]);
      }
    }
    return None;
  }

  /** `contains(_:f:)`: whether some element `y` has `f(x, y)`. */
  method Contains<T>(self: seq<T>, x: T, f: (T, T) -> bool) returns (r: bool)
    ensures r <==> exists i :: 0 <= i < |self| && f(x, self[i])
  {
    for i := 0 to |self|
      invariant forall j :: 0 <= j < i ==> !f(x, self[j])
    {
      if f(x, self[i]) {
        return true;
      }
    }
    return false;
  }

  /** `every`: whether all elements satisfy `f`. */
  method Every<T>(self: seq<T>, f: T -> bool) returns (r: bool)
    ensures r <==> forall i :: 0 <= i < |self| ==> f(self[i])
  {
    for i := 0 to |self|
      invariant forall j :: 0 <= j < i ==> f(self[j])
    {
      if !f(self[i]) {
        return false;
      }
    }
    return true;
  }

  /** `subscript(safe:)`: the element at `index` when it is a valid index. */
  function SafeIndex<T>(self: seq<T>, index: int): (r: Option<T>)
    ensures r.Some? <==> 0 <= index < |self|
    ensures r.Some? ==> r.value == self[index]
  {
    if 0 <= index < |self| then Some(self[index]) else None
  }

  // ---------------------------------------------------------------------------
  // Subsequences given by increasing index lists
  // ---------------------------------------------------------------------------

  predicate Increasing(idx: seq<int>) {
    forall a, b :: 0 <= a < b < |idx| ==> idx[a] < idx[b]
  }

  predicate IndicesIn<T>(idx: seq<int>, s: seq<T>) {
    forall k :: 0 <= k < |idx| ==> 0 <= idx[k] < |s|
  }

  /** The elements of `s` at the positions `idx`, in that order. */
  function Select<T>(s: seq<T>, idx: seq<int>): seq<T>
    requires IndicesIn(idx, s)
  {
    seq(|idx|, k requires 0 <= k < |idx| => s[idx[k]])
  }

  // ---------------------------------------------------------------------------
  // unique(_:) and union: de-duplication by a hashable key
  // ---------------------------------------------------------------------------

  /** Position `i` holds the first element of `s` with its key. */
  predicate IsFirstKey<T, K(==)>(s: seq<T>, key: T -> K, i: int)
    requires 0 <= i < |s|
  {
    forall j :: 0 <= j < i ==> key(s[j]) != key(s[i])
  }

  function Keys<T, K>(s: seq<T>, key: T -> K): set<K> {
    set i | 0 <= i < |s| :: key(s[i])
  }

  /** The positions `unique(_:)` keeps: exactly the first position of every
      key, in increasing order. */
  function FirstIndices<T, K(==)>(s: seq<T>, key: T -> K): (idx: seq<int>)
    ensures Increasing(idx) && IndicesIn(idx, s)
    ensures forall i :: 0 <= i < |s| ==> (i in idx <==> IsFirstKey(s, key, i))
  {
    if s == [] then []
    else
      var init := s[..|s| - 1];
      var p := FirstIndices(init, key);
      assert forall i :: 0 <= i < |init| ==> (IsFirstKey(init, key, i) <==> IsFirstKey(s, key, i));
      if IsFirstKey(s, key, |s| - 1) then p + [|s| - 1] else p
  }

  /** What `unique(_:)` returns. */
  function UniqueBy<T, K(==)>(s: seq<T>, key: T -> K): seq<T> {
    Select(s, FirstIndices(s, key))
  }

  /** `unique(_:)`: `compactMap` over the array, recording each new key in a
      dictionary and dropping the elements whose key is already recorded. */
  method Unique<T, K(==)>(self: seq<T>, f: T -> K) returns (r: seq<T>)
    ensures r == UniqueBy(self, f)
  {
    var seen: map<K, T> := map[];
    r := [];
    for i := 0 to |self|
      invariant r == UniqueBy(self[..i], f)
      invariant seen.Keys == Keys(self[..i], f)
    {
      var t := f(self[i]);
      ghost var prefix := self[..i + 1];
      assert prefix[..i] == self[..i];
      assert IsFirstKey(prefix, f, i) <==> t !in Keys(self[..i], f);
      if t !in seen {
        seen := seen[t := self[i]];
        r := r + [self[i]];
      }
      assert Keys(prefix, f) == Keys(self[..i], f) + {t};
    }
    assert self[..|self|] == self;
  }

  /** Every position has a first position with the same key at or before it. */
  lemma {:induction false} FirstOfKeyExists<T, K>(s: seq<T>, key: T -> K, i: int)
    requires 0 <= i < |s|
    ensures exists j :: 0 <= j <= i && key(s[j]) == key(s[i]) && IsFirstKey(s, key, j)
    decreases i
  {
    if !IsFirstKey(s, key, i) {
      var j :| 0 <= j < i && key(s[j]) == key(s[i]);
      FirstOfKeyExists(s, key, j);
    }
  }

  /** The keys `unique(_:)` keeps are pairwise distinct. */
  lemma UniqueByKeysDistinct<T, K>(s: seq<T>, key: T -> K)
    ensures var r := UniqueBy(s, key);
      forall a, b :: 0 <= a < b < |r| ==> key(r[a]) != key(r[b])
  {
    var idx := FirstIndices(s, key);
    forall a, b | 0 <= a < b < |idx| ensures key(s[idx[a]]) != key(s[idx[b]]) {
      assert idx[b] in idx;
      assert IsFirstKey(s, key, idx[b]);
    }
  }

  /** `unique(_:)` keeps one element for every key of its input, no more. */
  lemma UniqueByKeysCover<T, K>(s: seq<T>, key: T -> K)
    ensures Keys(UniqueBy(s, key), key) == Keys(s, key)
  {
    var idx := FirstIndices(s, key);
    var r := UniqueBy(s, key);
    forall i | 0 <= i < |s|
      ensures key(s[i]) in Keys(r, key)
    {
      FirstOfKeyExists(s, key, i);
      var j :| 0 <= j <= i && key(s[j]) == key(s[i]) && IsFirstKey(s, key, j);
      var k :| 0 <= k < |idx| && idx[k] == j;
      assert r[k] == s[j];
    }
  }

  /** The first positions of a prefix begin the first positions of the whole. */
  lemma {:induction false} FirstIndicesOfPrefix<T, K>(s: seq<T>, key: T -> K, n: int)
    requires 0 <= n <= |s|
    ensures var p, q := FirstIndices(s[..n], key), FirstIndices(s, key);
      |p| <= |q| && q[..|p|] == p && forall k :: |p| <= k < |q| ==> q[k] >= n
    decreases |s|
  {
    if n < |s| {
      var init := s[..|s| - 1];
      assert init[..n] == s[..n];
      FirstIndicesOfPrefix(init, key, n);
    } else {
      assert s[..n] == s;
    }
  }

  /** `union`: the de-duplicated concatenation. */
  function Union<T, K(==)>(self: seq<T>, arr: seq<T>, f: T -> K): seq<T> {
    UniqueBy(self + arr, f)
  }

  /** In `union`, the elements of `self` win every key collision: the result
      starts with `unique(self)` and continues with elements of `arr` whose
      keys `self` does not have. */
  lemma UnionPrefersSelf<T, K>(self: seq<T>, arr: seq<T>, f: T -> K)
    ensures var u, p := Union(self, arr, f), UniqueBy(self, f);
      |p| <= |u| && u[..|p|] == p &&
      forall k :: |p| <= k < |u| ==> u[k] in arr && f(u[k]) !in Keys(self, f)
  {
    var s := self + arr;
    assert s[..|self|] == self;
    FirstIndicesOfPrefix(s, f, |self|);
    var q := FirstIndices(s, f);
    forall k | |UniqueBy(self, f)| <= k < |q|
      ensures s[q[k]] in arr && f(s[q[k]]) !in Keys(self, f)
    {
      assert q[k] in q;
      assert s[q[k]] == arr[q[k] - |self|];
      forall j | 0 <= j < |self| ensures f(self[j]) != f(s[q[k]]) {
        assert s[j] == self[j];
      }
    }
  }

  // ---------------------------------------------------------------------------
  // unique(f:): de-duplication by a custom comparator
  // ---------------------------------------------------------------------------

  /** Some kept position of `idx` before `i` holds `y` with `f(s[i], y)`. */
  predicate MatchedBefore<T>(s: seq<T>, f: (T, T) -> bool, idx: seq<int>, i: int)
    requires IndicesIn(idx, s) && 0 <= i < |s|
  {
    exists k :: 0 <= k < |idx| && idx[k] < i && f(s[i], s[idx[k]])
  }

  /** The positions `unique(f:)` keeps. */
  function KeptIndices<T>(s: seq<T>, f: (T, T) -> bool): (idx: seq<int>)
    ensures Increasing(idx) && IndicesIn(idx, s)
  {
    if s == [] then []
    else
      var p := KeptIndices(s[..|s| - 1], f);
      if exists k :: 0 <= k < |p| && f(s[|s| - 1], s[p[k]]) then p else p + [|s| - 1]
  }

  /** What `unique(f:)` returns. */
  function UniqueWith<T>(s: seq<T>, f: (T, T) -> bool): seq<T> {
    Select(s, KeptIndices(s, f))
  }

  /** Dropping the last element keeps or drops the last position only. */
  lemma KeptIndicesOfInit<T>(s: seq<T>, f: (T, T) -> bool)
    requires s != []
    ensures var p := KeptIndices(s[..|s| - 1], f);
      KeptIndices(s, f) == p || KeptIndices(s, f) == p + [|s| - 1]
  {
  }

  /** Dropping the last element changes neither which earlier positions are
      kept nor which of them are matched by a kept element. */
  lemma MatchedBeforeOfInit<T>(s: seq<T>, f: (T, T) -> bool, i: int)
    requires 0 <= i < |s| - 1
    ensures var init := s[..|s| - 1];
      (i in KeptIndices(s, f) <==> i in KeptIndices(init, f)) &&
      (MatchedBefore(s, f, KeptIndices(s, f), i) <==> MatchedBefore(init, f, KeptIndices(init, f), i))
  {
    var init := s[..|s| - 1];
    var p := KeptIndices(init, f);
    var idx := KeptIndices(s, f);
    KeptIndicesOfInit(s, f);
    assert init[i] == s[i];
    if MatchedBefore(init, f, p, i) {
      var k :| 0 <= k < |p| && p[k] < i && f(init[i], init[p[k]]);
      assert idx[k] == p[k] && s[idx[k]] == init[p[k]];
    }
    if MatchedBefore(s, f, idx, i) {
      var k :| 0 <= k < |idx| && idx[k] < i && f(s[i], s[idx[k]]);
      assert k < |p| && idx[k] == p[k] && s[idx[k]] == init[p[k]];
    }
  }

  /** A position is kept exactly when no earlier kept element `y` has
      `f(element, y)`. */
  lemma {:induction false} KeptIndicesCharacterized<T>(s: seq<T>, f: (T, T) -> bool)
    ensures forall i :: 0 <= i < |s| ==>
      (i in KeptIndices(s, f) <==> !MatchedBefore(s, f, KeptIndices(s, f), i))
    decreases |s|
  {
    if s != [] {
      var init := s[..|s| - 1];
      var last := |s| - 1;
      KeptIndicesCharacterized(init, f);
      forall i | 0 <= i < last
        ensures i in KeptIndices(s, f) <==> !MatchedBefore(s, f, KeptIndices(s, f), i)
      {
        MatchedBeforeOfInit(s, f, i);
      }
      var p := KeptIndices(init, f);
      var idx := KeptIndices(s, f);
      if exists k :: 0 <= k < |p| && f(s[last], s[p[k]]) {
        var k :| 0 <= k < |p| && f(s[last], s[p[k]]);
        assert idx == p && idx[k] < last;
      } else {
        assert idx == p + [last];
        assert !MatchedBefore(s, f, idx, last);
      }
    }
  }

  /** In the result of `unique(f:)`, no element `e` has `f(e, r)` for an
      element `r` before it. */
  lemma UniqueWithNoLaterMatch<T>(s: seq<T>, f: (T, T) -> bool)
    ensures var r := UniqueWith(s, f);
      forall a, b :: 0 <= a < b < |r| ==> !f(r[b], r[a])
  {
    KeptIndicesCharacterized(s, f);
    forall a, b | 0 <= a < b < |KeptIndices(s, f)|
      ensures !f(s[KeptIndices(s, f)[b]], s[KeptIndices(s, f)[a]])
    {
      var idx := KeptIndices(s, f);
      assert idx[b] in idx && idx[a] < idx[b];
      assert !MatchedBefore(s, f, KeptIndices(s, f), idx[b]);
    }
  }

  /** `unique(f:)`: appends each element whose `contains(_:f:)` test against
      the elements kept so far fails. */
  method UniqueComparing<T>(self: seq<T>, f: (T, T) -> bool) returns (result: seq<T>)
    ensures result == UniqueWith(self, f)
  {
    result := [];
    for i := 0 to |self|
      invariant result == UniqueWith(self[..i], f)
    {
      ghost var prefix := self[..i + 1];
      assert prefix[..i] == self[..i];
      ghost var p := KeptIndices(self[..i], f);
      var found := Contains(result, self[i], f);
      assert found <==> exists k :: 0 <= k < |p| && f(prefix[i], prefix[p[k]]) by {
        assert forall k :: 0 <= k < |p| ==> result[k] == prefix[p[k]];
      }
      if !found {
        result := result + [self[i]];
      }
    }
    assert self[..|self|] == self;
  }

  // ---------------------------------------------------------------------------
  // splitEvery
  // ---------------------------------------------------------------------------

  function Min(a: int, b: int): int { if a <= b then a else b }

  /** `stride(from: start, to: count, by: n).map { self[$0..<min($0 + n, count)] }` */
  function StrideChunks<T>(s: seq<T>, n: int, start: int): seq<seq<T>>
    requires n > 0 && 0 <= start
    decreases |s| - start
  {
    if start >= |s| then []
    else [s[start..Min(start + n, |s|)]] + StrideChunks(s, n, start + n)
  }

  /** `splitEvery(n)` */
  function SplitEvery<T>(self: seq<T>, n: int): seq<seq<T>> {
    if n <= 0 || |self| == 0 then []
    else if n >= |self| then [self]
    else StrideChunks(self, n, 0)
  }

  function Flatten<T>(chunks: seq<seq<T>>): seq<T> {
    if chunks == [] then [] else chunks[0] + Flatten(chunks[1..])
  }

  /** Every chunk but the last has `n` elements, the last between 1 and `n`. */
  predicate ChunkShape<T>(chunks: seq<seq<T>>, n: int) {
    forall k :: 0 <= k < |chunks| ==>
      1 <= |chunks[k]| <= n && (k < |chunks| - 1 ==> |chunks[k]| == n)
  }

  lemma {:induction false} StrideChunksProperties<T>(s: seq<T>, n: int, start: int)
    requires n > 0 && 0 <= start <= |s|
    ensures var c := StrideChunks(s, n, start);
      Flatten(c) == s[start..] && ChunkShape(c, n) && (c == [] <==> start == |s|)
    decreases |s| - start
  {
    var c := StrideChunks(s, n, start);
    if start < |s| {
      var next := Min(start + n, |s|);
      StrideChunksProperties(s, n, next);
      if start + n < |s| {
        assert StrideChunks(s, n, start + n) == StrideChunks(s, n, next);
      } else {
        assert StrideChunks(s, n, start + n) == [] == StrideChunks(s, n, next);
      }
      assert c[1..] == StrideChunks(s, n, next);
      assert s[start..] == s[start..next] + s[next..];
    }
  }

  /** `splitEvery(n)` returns `[]` for `n <= 0` or an empty array, `[self]`
      when `n >= count`, and otherwise chunks of `n` (the last possibly
      shorter) that concatenate back to the original. */
  lemma SplitEveryProperties<T>(self: seq<T>, n: int)
    ensures var c := SplitEvery(self, n);
      (n <= 0 || self == [] ==> c == []) &&
      (n > 0 && self != [] && n >= |self| ==> c == [self]) &&
      (n > 0 ==> Flatten(c) == self && ChunkShape(c, n))
  {
    if n > 0 && self != [] {
      if n >= |self| {
        assert Flatten([self]) == self + Flatten([]);
      } else {
        StrideChunksProperties(self, n, 0);
      }
    }
  }

  /** The example of the documentation comment. */
  lemma SplitEveryExample()
    ensures SplitEvery([1, 2, 3, 4, 5, 6], 3) == [[1, 2, 3], [4, 5, 6]]
  {
    var s := [1, 2, 3, 4, 5, 6];
    assert s[0..3] == [1, 2, 3] && s[3..6] == [4, 5, 6];
    assert StrideChunks(s, 3, 6) == [];
    assert StrideChunks(s, 3, 3) == [[4, 5, 6]];
    assert StrideChunks(s, 3, 0) == [[1, 2, 3], [4, 5, 6]];
  }
}
