/** `Array.prototype.filter` and an independent description of what it selects. */
module Sequences {

  /** The elements of `s` that satisfy `keep`, in their original relative order. */
  function Filter<T(!new)>(s: seq<T>, keep: T -> bool): (r: seq<T>)
    ensures |r| <= |s|
    ensures forall x :: x in r <==> x in s && keep(x)
    decreases |s|
  {
    if s == [] then []
    else
      var init := Filter(s[..|s| - 1], keep);
      assert s == s[..|s| - 1] + [s[|s| - 1]];
      if keep(s[|s| - 1]) then init + [s[|s| - 1]] else init
  }

  /** The positions of `s` whose element satisfies `keep`, ascending. */
  ghost function KeptIndices<T(!new)>(s: seq<T>, keep: T -> bool): (idx: seq<nat>)
    ensures forall k :: 0 <= k < |idx| ==> idx[k] < |s| && keep(s[idx[k]])
    ensures forall k, l :: 0 <= k < l < |idx| ==> idx[k] < idx[l]
    ensures forall i :: 0 <= i < |s| && keep(s[i]) ==> i in idx
    decreases |s|
  {
    if s == [] then []
    else
      var init := KeptIndices(s[..|s| - 1], keep);
      if keep(s[|s| - 1]) then init + [|s| - 1] else init
  }

  /** Filter picks exactly the kept positions, in ascending order: nothing kept
      is dropped, nothing dropped is kept, and the relative order is unchanged. */
  lemma {:induction false} FilterSelectsKeptIndices<T(!new)>(s: seq<T>, keep: T -> bool)
    ensures var r, idx := Filter(s, keep), KeptIndices(s, keep);
      |r| == |idx| && forall k :: 0 <= k < |r| ==> r[k] == s[idx[k]]
    decreases |s|
  {
    if s != [] {
      var n := |s| - 1;
      var init := s[..n];
      FilterSelectsKeptIndices(init, keep);
      var r, idx := Filter(init, keep), KeptIndices(init, keep);
      forall k | 0 <= k < |r| ensures r[k] == s[idx[k]] {
        assert idx[k] < n && init[idx[k]] == s[idx[k]];
      }
      if keep(s[n]) {
        assert Filter(s, keep) == r + [s[n]];
        assert KeptIndices(s, keep) == idx + [n];
      } else {
        assert Filter(s, keep) == r;
        assert KeptIndices(s, keep) == idx;
      }
    }
  }
}
