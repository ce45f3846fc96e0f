/** Sequence facts shared by the de-duplication steps (pandas `drop_duplicates`
    and `unique`) and by the row filters. */
module Seqs {

  import opened Wrappers

  /** `a` occurs in `b` in the same order, possibly with gaps. */
  predicate IsSubsequence<T(==)>(a: seq<T>, b: seq<T>)
    decreases |b|
  {
    if a == [] then true
    else if b == [] then false
    else if a[0] == b[0] then IsSubsequence(a[1..], b[1..])
    else IsSubsequence(a, b[1..])
  }

  lemma {:induction false} SubsequenceMembers<T>(a: seq<T>, b: seq<T>)
    requires IsSubsequence(a, b)
    ensures forall x :: x in a ==> x in b
    decreases |b|
  {
    if a != [] && b != [] {
      if a[0] == b[0] {
        SubsequenceMembers(a[1..], b[1..]);
        assert forall x :: x in a ==> x == a[0] || x in a[1..];
      } else {
        SubsequenceMembers(a, b[1..]);
      }
    }
  }

  lemma {:induction false} SubsequenceLength<T>(a: seq<T>, b: seq<T>)
    requires IsSubsequence(a, b)
    ensures |a| <= |b|
    decreases |b|
  {
    if a != [] && b != [] {
      if a[0] == b[0] {
        SubsequenceLength(a[1..], b[1..]);
      } else {
        SubsequenceLength(a, b[1..]);
      }
    }
  }

  /** Dropping the first element of a subsequence leaves a subsequence. */
  lemma {:induction false} SubsequenceDropHead<T>(a: seq<T>, b: seq<T>)
    requires a != [] && IsSubsequence(a, b)
    ensures IsSubsequence(a[1..], b)
    decreases |b|, 1
  {
    if a[0] == b[0] {
      SubsequenceCons(a[1..], b[1..], b[0]);
    } else {
      SubsequenceDropHead(a, b[1..]);
      SubsequenceCons(a[1..], b[1..], b[0]);
    }
    assert [b[0]] + b[1..] == b;
  }

  /** A subsequence stays one when an element is put in front of the sequence. */
  lemma {:induction false} SubsequenceCons<T>(a: seq<T>, c: seq<T>, x: T)
    requires IsSubsequence(a, c)
    ensures IsSubsequence(a, [x] + c)
    decreases |c| + 1, 0
  {
    assert ([x] + c)[1..] == c;
    if a != [] && a[0] == x {
      SubsequenceDropHead(a, c);
    }
  }

  /** A subsequence of a suffix is a subsequence of the whole sequence. */
  lemma {:induction false} SubsequenceOfSuffix<T>(a: seq<T>, b: seq<T>, k: nat)
    requires k <= |b| && IsSubsequence(a, b[k..])
    ensures IsSubsequence(a, b)
    decreases k
  {
    if k > 0 {
      assert b[1..][k - 1..] == b[k..];
      SubsequenceOfSuffix(a, b[1..], k - 1);
      SubsequenceCons(a, b[1..], b[0]);
      assert [b[0]] + b[1..] == b;
    } else {
      assert b[0..] == b;
    }
  }

  /** The elements of `xs` that satisfy `keep`, in order: a boolean mask on a
      pandas frame, or a WHERE clause over a table. */
  function Filter<T(==,!new)>(xs: seq<T>, keep: T -> bool): (r: seq<T>)
    ensures IsSubsequence(r, xs)
    ensures forall x :: x in r <==> x in xs && keep(x)
  {
    if |xs| == 0 then []
    else
      var rest := Filter(xs[1..], keep);
      SubsequenceMembers(rest, xs[1..]);
      if keep(xs[0]) then [xs[0]] + rest else rest
  }

  /** Each element that passes is kept as often as it occurs; the others not at all. */
  lemma {:induction false} FilterCounts<T(!new)>(xs: seq<T>, keep: T -> bool)
    ensures forall x :: multiset(Filter(xs, keep))[x] == if keep(x) then multiset(xs)[x] else 0
  {
    if |xs| > 0 {
      FilterCounts(xs[1..], keep);
      assert xs == [xs[0]] + xs[1..];
    }
  }

  /** Nothing is dropped when every element passes. */
  lemma {:induction false} FilterKeepsAll<T(!new)>(xs: seq<T>, keep: T -> bool)
    requires forall i :: 0 <= i < |xs| ==> keep(xs[i])
    ensures Filter(xs, keep) == xs
  {
    if |xs| > 0 {
      FilterKeepsAll(xs[1..], keep);
      assert [xs[0]] + xs[1..] == xs;
    }
  }

  /** `f` applied to every element, or `None` as soon as one application
      fails: a row-wise pandas `apply` whose function may raise. */
  function MapAll<T, U>(xs: seq<T>, f: T -> Option<U>): (r: Option<seq<U>>)
    ensures r.Some? <==> forall i :: 0 <= i < |xs| ==> f(xs[i]).Some?
    ensures r.Some? ==> |r.value| == |xs| && forall i :: 0 <= i < |xs| ==> r.value[i] == f(xs[i]).value
  {
    if |xs| == 0 then Some([])
    else
      var rest := MapAll(xs[1..], f);
      assert forall i :: 1 <= i < |xs| ==> xs[i] == xs[1..][i - 1];
      if f(xs[0]).None? || rest.None? then None
      else Some([f(xs[0]).value] + rest.value)
  }

  /** No two elements of `xs` share a key. */
  predicate DistinctKeys<T, K(==)>(xs: seq<T>, key: T -> K) {
    forall i, j :: 0 <= i < j < |xs| ==> key(xs[i]) != key(xs[j])
  }

  /** No element occurs twice in `xs`. */
  predicate Distinct<T(==)>(xs: seq<T>) {
    forall i, j :: 0 <= i < j < |xs| ==> xs[i] != xs[j]
  }

  function KeysOf<T(==), K(==)>(xs: seq<T>, key: T -> K): set<K> {
    set x | x in xs :: key(x)
  }

  lemma KeysOfCons<T, K>(x: T, xs: seq<T>, key: T -> K)
    ensures KeysOf([x] + xs, key) == {key(x)} + KeysOf(xs, key)
  {
    assert forall y :: y in [x] + xs <==> y == x || y in xs;
  }

  /** The element at `j` is the first one of `xs` with its key. */
  predicate IsFirstWithKey<T, K(==)>(xs: seq<T>, key: T -> K, j: int)
    requires 0 <= j < |xs|
  {
    forall i :: 0 <= i < j ==> key(xs[i]) != key(xs[j])
  }

  /** Keeps, in order, each element of `xs` whose key is neither in `seen`
      nor the key of an earlier element. */
  function DistinctFrom<T(==), K(==)>(xs: seq<T>, key: T -> K, seen: set<K>): (r: seq<T>)
    ensures IsSubsequence(r, xs)
    ensures forall i :: 0 <= i < |r| ==> key(r[i]) !in seen
    ensures DistinctKeys(r, key)
    ensures KeysOf(r, key) == KeysOf(xs, key) - seen
    decreases |xs|
  {
    if xs == [] then []
    else if key(xs[0]) in seen then DistinctFrom(xs[1..], key, seen)
    else
      var rest := DistinctFrom(xs[1..], key, seen + {key(xs[0])});
      KeysOfCons(xs[0], xs[1..], key);
      KeysOfCons(xs[0], rest, key);
      assert [xs[0]] + xs[1..] == xs;
      [xs[0]] + rest
  }

  /** The elements of `xs` at the positions from `i` on whose key no
      earlier position has, in position order. */
  function FirstsFrom<T, K(==)>(xs: seq<T>, key: T -> K, i: nat): seq<T>
    requires i <= |xs|
    decreases |xs| - i
  {
    if i == |xs| then []
    else if IsFirstWithKey(xs, key, i) then [xs[i]] + FirstsFrom(xs, key, i + 1)
    else FirstsFrom(xs, key, i + 1)
  }

  /** Skipping the keys of the first `i` elements keeps exactly the
      first-with-key positions from `i` on. */
  lemma {:induction false} DistinctFromFirsts<T, K>(xs: seq<T>, key: T -> K, i: nat)
    requires i <= |xs|
    ensures DistinctFrom(xs[i..], key, KeysOf(xs[..i], key)) == FirstsFrom(xs, key, i)
    decreases |xs| - i
  {
    if i == |xs| {
      assert xs[i..] == [];
    } else {
      var seen := KeysOf(xs[..i], key);
      assert xs[..i + 1] == xs[..i] + [xs[i]];
      assert KeysOf(xs[..i + 1], key) == seen + {key(xs[i])} by {
        assert forall y :: y in xs[..i + 1] <==> y in xs[..i] || y == xs[i];
      }
      assert xs[i..][0] == xs[i] && xs[i..][1..] == xs[i + 1..];
      DistinctFromFirsts(xs, key, i + 1);
      if key(xs[i]) in seen {
        var y :| y in xs[..i] && key(y) == key(xs[i]);
        var j :| 0 <= j < i && xs[..i][j] == y;
        assert key(xs[j]) == key(xs[i]);
        assert !IsFirstWithKey(xs, key, i);
        assert KeysOf(xs[..i + 1], key) == seen;
        assert DistinctFrom(xs[i..], key, seen) == DistinctFrom(xs[i + 1..], key, seen);
      } else {
        forall j | 0 <= j < i ensures key(xs[j]) != key(xs[i]) {
          assert xs[j] == xs[..i][j];
        }
        assert DistinctFrom(xs[i..], key, seen) == [xs[i]] + DistinctFrom(xs[i + 1..], key, seen + {key(xs[i])});
      }
    }
  }

  /** `f` applied to every element: a column of a frame. */
  function Map<T, U>(xs: seq<T>, f: T -> U): (r: seq<U>)
    ensures |r| == |xs| && forall i :: 0 <= i < |xs| ==> r[i] == f(xs[i])
  {
    seq(|xs|, i requires 0 <= i < |xs| => f(xs[i]))
  }

  function Identity<T>(x: T): T {
    x
  }

  /** Keeping the first element of each key and then taking the key column
      is the same as keeping the first occurrence of each value of the column. */
  lemma {:induction false} FirstsOfColumn<T, K>(xs: seq<T>, key: T -> K, i: nat)
    requires i <= |xs|
    ensures Map(FirstsFrom(xs, key, i), key) == FirstsFrom(Map(xs, key), Identity, i)
    decreases |xs| - i
  {
    if i < |xs| {
      var col := Map(xs, key);
      FirstsOfColumn(xs, key, i + 1);
      assert IsFirstWithKey(xs, key, i) <==> IsFirstWithKey(col, Identity, i);
      var rest := FirstsFrom(xs, key, i + 1);
      assert Map([xs[i]] + rest, key) == [key(xs[i])] + Map(rest, key);
    }
  }

  /** pandas' `drop_duplicates(keep='first')` on the key `key`, and, with the
      identity key, `Series.unique()`: the first element of each key, in input order. */
  function DistinctBy<T(==), K(==)>(xs: seq<T>, key: T -> K): (r: seq<T>)
    ensures IsSubsequence(r, xs)
    ensures DistinctKeys(r, key)
    ensures KeysOf(r, key) == KeysOf(xs, key)
  {
    DistinctFrom(xs, key, {})
  }

  /** The element kept for each key is its first occurrence: `DistinctBy`
      keeps exactly the positions where a key appears for the first time. */
  lemma DistinctByKeepsFirsts<T, K>(xs: seq<T>, key: T -> K)
    ensures DistinctBy(xs, key) == FirstsFrom(xs, key, 0)
  {
    DistinctFromFirsts(xs, key, 0);
    assert xs[0..] == xs && xs[..0] == [];
    assert KeysOf(xs[..0], key) == {};
  }
}
