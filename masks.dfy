/**
 Boolean-mask row selection, the way `df[mask]` keeps the rows whose mask
 entry is true, in their original order.
 */
module Masks {

  /** `xs[mask]`: the elements whose mask entry is true, in order. */
  function Select<T>(xs: seq<T>, mask: seq<bool>): (r: seq<T>)
    requires |mask| == |xs|
    ensures |r| <= |xs|
  {
    if xs == [] then []
    else Select(xs[..|xs| - 1], mask[..|xs| - 1]) + (if mask[|xs| - 1] then [xs[|xs| - 1]] else [])
  }

  /** The positions whose mask entry is true, in increasing order. */
  function TrueIndices(mask: seq<bool>): (idx: seq<nat>)
    ensures forall k :: 0 <= k < |idx| ==> idx[k] < |mask|
  {
    if mask == [] then []
    else TrueIndices(mask[..|mask| - 1]) + (if mask[|mask| - 1] then [|mask| - 1] else [])
  }

  predicate Increasing(idx: seq<nat>) {
    forall k, l :: 0 <= k < l < |idx| ==> idx[k] < idx[l]
  }

  /** `r` is the subsequence of `xs` at the increasing positions `idx`. */
  ghost predicate PicksAt<T>(r: seq<T>, xs: seq<T>, idx: seq<nat>) {
    && |r| == |idx|
    && Increasing(idx)
    && forall k :: 0 <= k < |idx| ==> idx[k] < |xs| && r[k] == xs[idx[k]]
  }

  /** The positions listed are exactly those the mask marks, each once and in order. */
  lemma {:induction false} TrueIndicesExact(mask: seq<bool>)
    ensures Increasing(TrueIndices(mask))
    ensures forall i :: 0 <= i < |mask| ==> (i in TrueIndices(mask) <==> mask[i])
  {
    if mask != [] {
      var init := mask[..|mask| - 1];
      TrueIndicesExact(init);
      assert forall i :: 0 <= i < |init| ==> init[i] == mask[i];
    }
  }

  /** Selection is an order-preserving subsequence: the rows kept are those at
      the marked positions, in the order of those positions. */
  lemma {:induction false} SelectPicksMarked<T>(xs: seq<T>, mask: seq<bool>)
    requires |mask| == |xs|
    ensures PicksAt(Select(xs, mask), xs, TrueIndices(mask))
    ensures forall i :: 0 <= i < |xs| ==> (i in TrueIndices(mask) <==> mask[i])
  {
    TrueIndicesExact(mask);
    if xs != [] {
      var n := |xs| - 1;
      SelectPicksMarked(xs[..n], mask[..n]);
      var r, idx := Select(xs, mask), TrueIndices(mask);
      var r0, idx0 := Select(xs[..n], mask[..n]), TrueIndices(mask[..n]);
      assert r == r0 + (if mask[n] then [xs[n]] else []);
      assert idx == idx0 + (if mask[n] then [n] else []);
      forall k | 0 <= k < |idx|
        ensures idx[k] < |xs| && r[k] == xs[idx[k]]
      {
        if k < |idx0| {
          assert r[k] == r0[k] && idx[k] == idx0[k];
        }
      }
    }
  }

  /** Membership in a selection: exactly the elements standing at a marked position. */
  lemma SelectMembers<T>(xs: seq<T>, mask: seq<bool>, x: T)
    requires |mask| == |xs|
    ensures x in Select(xs, mask) <==> exists i :: 0 <= i < |xs| && mask[i] && xs[i] == x
  {
    SelectPicksMarked(xs, mask);
    var r, idx := Select(xs, mask), TrueIndices(mask);
    if x in r {
      var k :| 0 <= k < |r| && r[k] == x;
      assert idx[k] in idx;
    }
    if exists i :: 0 <= i < |xs| && mask[i] && xs[i] == x {
      var i :| 0 <= i < |xs| && mask[i] && xs[i] == x;
      var k :| 0 <= k < |idx| && idx[k] == i;
      assert r[k] == x;
    }
  }

  /** Appending one element extends the selection by that element when it is marked. */
  lemma SelectSnoc<T>(xs: seq<T>, mask: seq<bool>, x: T, b: bool)
    requires |mask| == |xs|
    ensures Select(xs + [x], mask + [b]) == Select(xs, mask) + (if b then [x] else [])
  {
    assert (xs + [x])[..|xs|] == xs;
    assert (mask + [b])[..|xs|] == mask;
  }

  /** A mask that marks exactly one position selects exactly that element. */
  lemma SelectSingle<T>(xs: seq<T>, mask: seq<bool>, i: nat)
    requires |mask| == |xs| && i < |xs|
    requires forall j :: 0 <= j < |mask| ==> (mask[j] <==> j == i)
    ensures Select(xs, mask) == [xs[i]]
  {
    SelectPicksMarked(xs, mask);
    var idx := TrueIndices(mask);
    assert i in idx;
    assert |idx| >= 2 ==> idx[0] < idx[1];
    forall k | 0 <= k < |idx|
      ensures idx[k] == i
    {
      assert idx[k] in idx;
    }
  }
}
