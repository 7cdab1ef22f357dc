/** Sequence operations that the route handlers and the pages use on lists:
    `filter`, by-id `map` replacement, removal, prepend and `slice`. */
module Seqs {

  /** `xs.map(f)`: `f` applied to each element, in order. */
  function Map<T, U>(f: T -> U, xs: seq<T>): (r: seq<U>)
    ensures |r| == |xs|
    ensures forall i :: 0 <= i < |xs| ==> r[i] == f(xs[i])
    decreases |xs|
  {
    if xs == [] then []
    else
      var t := Map(f, xs[1..]);
      assert forall i :: 1 <= i < |xs| ==> xs[1..][i - 1] == xs[i];
      [f(xs[0])] + t
  }

  /** `xs.filter(p)`: the elements satisfying `p`, in their original order. */
  function Filter<T>(p: T -> bool, xs: seq<T>): (r: seq<T>)
    ensures |r| <= |xs|
    ensures forall i :: 0 <= i < |r| ==> r[i] in xs && p(r[i])
    ensures forall i :: 0 <= i < |xs| && p(xs[i]) ==> xs[i] in r
    decreases |xs|
  {
    if xs == [] then []
    else if p(xs[0]) then [xs[0]] + Filter(p, xs[1..])
    else Filter(p, xs[1..])
  }

  lemma {:induction false} FilterConcat<T>(p: T -> bool, a: seq<T>, b: seq<T>)
    ensures Filter(p, a + b) == Filter(p, a) + Filter(p, b)
    decreases |a|
  {
    if a == [] {
      assert a + b == b;
    } else {
      assert (a + b)[1..] == a[1..] + b;
      FilterConcat(p, a[1..], b);
    }
  }

  /** Filtering with a predicate every element satisfies keeps the list. */
  lemma {:induction false} FilterAll<T>(p: T -> bool, xs: seq<T>)
    requires forall i :: 0 <= i < |xs| ==> p(xs[i])
    ensures Filter(p, xs) == xs
    decreases |xs|
  {
    if xs != [] {
      FilterAll(p, xs[1..]);
    }
  }

  /** Filtering with a predicate no element satisfies leaves nothing. */
  lemma {:induction false} FilterNone<T>(p: T -> bool, xs: seq<T>)
    requires forall i :: 0 <= i < |xs| ==> !p(xs[i])
    ensures Filter(p, xs) == []
    decreases |xs|
  {
    if xs != [] {
      FilterNone(p, xs[1..]);
    }
  }

  /** `filter(p)` and `filter(!p)` split a list: together they have its
      length and its elements, each element going to exactly one side. */
  lemma {:induction false} FilterPartition<T>(p: T -> bool, q: T -> bool, xs: seq<T>)
    requires forall x :: q(x) == !p(x)
    ensures |Filter(p, xs)| + |Filter(q, xs)| == |xs|
    ensures multiset(Filter(p, xs)) + multiset(Filter(q, xs)) == multiset(xs)
    decreases |xs|
  {
    if xs != [] {
      FilterPartition(p, q, xs[1..]);
      assert xs == [xs[0]] + xs[1..];
    }
  }

  /** Overwriting one element by another that `p` judges the same way
      keeps the number of elements `p` selects. */
  lemma {:induction false} FilterCountUpdate<T>(p: T -> bool, xs: seq<T>, i: nat, v: T)
    requires i < |xs| && p(xs[i]) == p(v)
    ensures |Filter(p, xs[i := v])| == |Filter(p, xs)|
    decreases |xs|
  {
    var ys := xs[i := v];
    if i == 0 {
      assert ys[1..] == xs[1..];
    } else {
      assert ys[1..] == xs[1..][i - 1 := v];
      FilterCountUpdate(p, xs[1..], i - 1, v);
    }
  }

  /** Overwriting one element `p` rejects by one it selects adds exactly
      one element to what `p` selects. */
  lemma {:induction false} FilterCountFlip<T>(p: T -> bool, xs: seq<T>, i: nat, v: T)
    requires i < |xs| && !p(xs[i]) && p(v)
    ensures |Filter(p, xs[i := v])| == |Filter(p, xs)| + 1
    decreases |xs|
  {
    var ys := xs[i := v];
    if i == 0 {
      assert ys[1..] == xs[1..];
    } else {
      assert ys[1..] == xs[1..][i - 1 := v];
      FilterCountFlip(p, xs[1..], i - 1, v);
    }
  }

  /** `xs.filter((_, i) => i !== k)`: drop the element at position `k`. */
  function RemoveAt<T>(xs: seq<T>, k: int): (r: seq<T>)
    ensures 0 <= k < |xs| ==> |r| == |xs| - 1
    ensures 0 <= k < |xs| ==> forall i :: 0 <= i < |r| ==> r[i] == (if i < k then xs[i] else xs[i + 1])
    ensures !(0 <= k < |xs|) ==> r == xs
  {
    if 0 <= k < |xs| then xs[..k] + xs[k + 1..] else xs
  }

  /** `xs.map(x => key(x) === k ? v : x)`: every element whose key is `k`
      becomes `v`; all others stay where they are. */
  function ReplaceByKey<T, K(==)>(xs: seq<T>, key: T -> K, k: K, v: T): (r: seq<T>)
    ensures |r| == |xs|
    ensures forall i :: 0 <= i < |xs| ==> r[i] == (if key(xs[i]) == k then v else xs[i])
  {
    seq(|xs|, i requires 0 <= i < |xs| => if key(xs[i]) == k then v else xs[i])
  }

  /** No two elements share a key. */
  predicate UniqueKeys<T, K(==)>(xs: seq<T>, key: T -> K) {
    forall i, j :: 0 <= i < j < |xs| ==> key(xs[i]) != key(xs[j])
  }

  /** With unique keys, replacing by the key of the element at `i` is
      overwriting position `i`, and removing by it is dropping position `i`. */
  lemma ByUniqueKey<T, K>(xs: seq<T>, key: T -> K, i: nat, v: T)
    requires UniqueKeys(xs, key) && i < |xs|
    ensures ReplaceByKey(xs, key, key(xs[i]), v) == xs[i := v]
    ensures RemoveByKey(xs, key, key(xs[i])) == RemoveAt(xs, i)
  {
    var r := ReplaceByKey(xs, key, key(xs[i]), v);
    forall j | 0 <= j < |xs|
      ensures r[j] == xs[i := v][j]
    {
      if j < i {
        assert key(xs[j]) != key(xs[i]);
      } else if j > i {
        assert key(xs[i]) != key(xs[j]);
      }
    }
    FilterDropsOne(KeyIsNot(key, key(xs[i])), xs, i);
  }

  /** Filtering with a predicate that rejects exactly the element at `i`. */
  lemma FilterDropsOne<T>(p: T -> bool, xs: seq<T>, i: nat)
    requires i < |xs| && !p(xs[i]) && forall j :: 0 <= j < |xs| && j != i ==> p(xs[j])
    ensures Filter(p, xs) == RemoveAt(xs, i)
  {
    var pre, post := xs[..i], xs[i + 1..];
    assert xs == pre + ([xs[i]] + post);
    assert forall j :: 0 <= j < |pre| ==> p(pre[j]) by {
      forall j | 0 <= j < |pre| ensures p(pre[j]) {
        assert pre[j] == xs[j];
      }
    }
    assert forall j :: 0 <= j < |post| ==> p(post[j]) by {
      forall j | 0 <= j < |post| ensures p(post[j]) {
        assert post[j] == xs[i + 1 + j];
      }
    }
    FilterAll(p, pre);
    FilterAll(p, post);
    FilterConcat(p, pre, [xs[i]] + post);
    FilterConcat(p, [xs[i]], post);
    assert Filter(p, [xs[i]]) == [];
  }

  /** `xs.filter(x => key(x) !== k)`. */
  function RemoveByKey<T, K(==)>(xs: seq<T>, key: T -> K, k: K): (r: seq<T>)
    ensures forall i :: 0 <= i < |r| ==> r[i] in xs && key(r[i]) != k
    ensures forall i :: 0 <= i < |xs| && key(xs[i]) != k ==> xs[i] in r
    ensures |r| <= |xs|
  {
    Filter(KeyIsNot(key, k), xs)
  }

  function KeyIsNot<T, K(==)>(key: T -> K, k: K): T -> bool {
    x => key(x) != k
  }

  /** Removing a key no element has, or a key only the first element has
      when it is put in front, keeps the list. */
  lemma RemoveByKeyAbsent<T, K>(xs: seq<T>, key: T -> K, k: K, v: T)
    requires forall i :: 0 <= i < |xs| ==> key(xs[i]) != k
    ensures RemoveByKey(xs, key, k) == xs
    ensures key(v) == k ==> RemoveByKey([v] + xs, key, k) == xs
  {
    FilterAll(KeyIsNot(key, k), xs);
    assert ([v] + xs)[1..] == xs;
  }

  /** Upper bound `slice(0, n)` uses: a negative `n` counts from the end,
      and the bound is clamped to the list. */
  function JsSliceBound(len: nat, n: int): (b: nat)
    ensures b <= len
    ensures 0 <= n <= len ==> b == n
    ensures n > len ==> b == len
    ensures n < 0 ==> b == (if len + n < 0 then 0 else len + n)
  {
    if n < 0 then (if len + n < 0 then 0 else len + n)
    else if n > len then len
    else n
  }

  /** `xs.slice(0, n)`. */
  function JsSlice<T>(xs: seq<T>, n: int): (r: seq<T>)
    ensures |r| <= |xs|
    ensures r == xs[..|r|]
    ensures 0 <= n ==> |r| == if n < |xs| then n else |xs|
  {
    xs[..JsSliceBound(|xs|, n)]
  }

  predicate NoDuplicates<T(==)>(xs: seq<T>) {
    forall i, j :: 0 <= i < j < |xs| ==> xs[i] != xs[j]
  }

  /** Number of elements satisfying `p` (`xs.filter(p).length`). */
  function Count<T>(p: T -> bool, xs: seq<T>): nat {
    |Filter(p, xs)|
  }
}
