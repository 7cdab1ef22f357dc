/** `Model.find(filter)` over a collection held as a map from id to
    document. Ids are handed out in increasing order as documents are
    created, so ascending id order is insertion order and descending id
    order is newest first (`sort({ creadoEn: -1 })`). */
module Queries {
  import opened Wrappers

  /** The ids below `bound` of the documents satisfying `p`, oldest first. */
  function FindIds<T>(m: map<nat, T>, p: T -> bool, bound: nat): (r: seq<nat>)
    ensures forall i :: 0 <= i < |r| ==> r[i] < bound && r[i] in m && p(m[r[i]])
    ensures forall k :: k < bound && k in m && p(m[k]) ==> k in r
    ensures forall i, j :: 0 <= i < j < |r| ==> r[i] < r[j]
    decreases bound
  {
    if bound == 0 then []
    else
      var k := bound - 1;
      FindIds(m, p, k) + (if k in m && p(m[k]) then [k] else [])
  }

  /** The same ids, newest first. */
  function FindIdsNewestFirst<T>(m: map<nat, T>, p: T -> bool, bound: nat): (r: seq<nat>)
    ensures forall i :: 0 <= i < |r| ==> r[i] < bound && r[i] in m && p(m[r[i]])
    ensures forall k :: k < bound && k in m && p(m[k]) ==> k in r
    ensures forall i, j :: 0 <= i < j < |r| ==> r[i] > r[j]
    decreases bound
  {
    if bound == 0 then []
    else
      var k := bound - 1;
      (if k in m && p(m[k]) then [k] else []) + FindIdsNewestFirst(m, p, k)
  }

  /** The documents with the given ids, in that order. */
  function Values<T>(m: map<nat, T>, ids: seq<nat>): (r: seq<T>)
    requires forall i :: 0 <= i < |ids| ==> ids[i] in m
    ensures |r| == |ids| && forall i :: 0 <= i < |ids| ==> r[i] == m[ids[i]]
  {
    seq(|ids|, i requires 0 <= i < |ids| => m[ids[i]])
  }


  /** `find(filter).sort({ creadoEn: -1 })`: every stored document below
      the bound that satisfies `p`, each one once, newest first. */
  function FindNewestFirst<T(==)>(m: map<nat, T>, p: T -> bool, bound: nat): (r: seq<T>)
    ensures |r| == |FindIdsNewestFirst(m, p, bound)|
    ensures forall i :: 0 <= i < |r| ==> r[i] == m[FindIdsNewestFirst(m, p, bound)[i]]
    ensures forall i :: 0 <= i < |r| ==> r[i] in m.Values && p(r[i])
    ensures forall k :: k < bound && k in m && p(m[k]) ==> m[k] in r
  {
    var ids := FindIdsNewestFirst(m, p, bound);
    var r := Values(m, ids);
    assert forall i :: 0 <= i < |r| ==> ids[i] in m && r[i] == m[ids[i]];
    forall k | k < bound && k in m && p(m[k]) ensures m[k] in r {
      var i :| 0 <= i < |ids| && ids[i] == k;
      assert r[i] == m[k];
    }
    r
  }

  /** `findOne(filter)`: the oldest matching document's id, if any. */
  function FindFirst<T>(m: map<nat, T>, p: T -> bool, bound: nat): (r: Option<nat>)
    ensures r.Some? ==> r.value < bound && r.value in m && p(m[r.value])
    ensures r.Some? ==> forall k :: k < r.value && k in m ==> !p(m[k])
    ensures r.None? ==> forall k :: k < bound && k in m ==> !p(m[k])
  {
    var ids := FindIds(m, p, bound);
    if ids == [] then None
    else
      FirstIsLeast(m, p, bound);
      Some(ids[0])
  }

  lemma FirstIsLeast<T>(m: map<nat, T>, p: T -> bool, bound: nat)
    requires FindIds(m, p, bound) != []
    ensures forall k :: k < FindIds(m, p, bound)[0] && k in m ==> !p(m[k])
  {
    var ids := FindIds(m, p, bound);
    forall k | k < bound && k in m && p(m[k]) ensures ids[0] <= k {
      var i :| 0 <= i < |ids| && ids[i] == k;
      if i > 0 {
        assert ids[0] < ids[i];
      }
    }
  }

  /** When exactly one document below the bound matches, `findOne` finds it. */
  lemma FindFirstUnique<T>(m: map<nat, T>, p: T -> bool, bound: nat, k: nat)
    requires k < bound && k in m && p(m[k])
    requires forall j :: j < bound && j in m && p(m[j]) ==> j == k
    ensures FindFirst(m, p, bound) == Some(k)
  {
  }
}
