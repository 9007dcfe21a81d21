/** Generic facts about sequences used by several stages of the gene track. */
module Sequences {

  /** The elements of `s` whose mask bit is set, in their original order. */
  function Masked<T>(s: seq<T>, mask: seq<bool>): (r: seq<T>)
    requires |mask| == |s|
    ensures |r| <= |s|
    decreases |s|
  {
    if s == [] then []
    else Masked(s[..|s| - 1], mask[..|s| - 1]) + (if mask[|s| - 1] then [s[|s| - 1]] else [])
  }

  /** `a` is `b` with some elements dropped and the rest kept in order. */
  ghost predicate IsSubsequence<T>(a: seq<T>, b: seq<T>) {
    exists mask: seq<bool> :: |mask| == |b| && Masked(b, mask) == a
  }

  lemma SubsequenceEmpty<T>(b: seq<T>)
    ensures IsSubsequence([], b)
  {
    var mask := seq(|b|, i => false);
    MaskedNone(b, mask);
  }

  lemma {:induction false} MaskedNone<T>(b: seq<T>, mask: seq<bool>)
    requires |mask| == |b|
    requires forall i :: 0 <= i < |mask| ==> !mask[i]
    ensures Masked(b, mask) == []
    decreases |b|
  {
    if b != [] {
      MaskedNone(b[..|b| - 1], mask[..|b| - 1]);
    }
  }

  /** Appending one element to the longer sequence keeps a subsequence, whether or
      not the element is also appended to the shorter one. */
  lemma SubsequenceExtend<T>(a: seq<T>, b: seq<T>, x: T)
    requires IsSubsequence(a, b)
    ensures IsSubsequence(a, b + [x])
    ensures IsSubsequence(a + [x], b + [x])
  {
    var mask :| |mask| == |b| && Masked(b, mask) == a;
    assert (b + [x])[..|b|] == b;
    assert (mask + [false])[..|b|] == mask;
    assert (mask + [true])[..|b|] == mask;
    assert Masked(b + [x], mask + [false]) == a;
    assert Masked(b + [x], mask + [true]) == a + [x];
  }

  /** The concatenation of a sequence of lanes, first lane first. */
  function Flatten<T>(lanes: seq<seq<T>>): seq<T>
    decreases |lanes|
  {
    if lanes == [] then [] else Flatten(lanes[..|lanes| - 1]) + lanes[|lanes| - 1]
  }

  /** Appending `x` to lane `j` adds exactly one `x` to the flattened contents. */
  lemma {:induction false} FlattenAppendToLane<T>(lanes: seq<seq<T>>, j: nat, x: T)
    requires j < |lanes|
    ensures multiset(Flatten(lanes[j := lanes[j] + [x]])) == multiset(Flatten(lanes)) + multiset{x}
    decreases |lanes|
  {
    var n := |lanes| - 1;
    var updated := lanes[j := lanes[j] + [x]];
    if j == n {
      assert updated[..n] == lanes[..n];
    } else {
      assert updated[..n] == lanes[..n][j := lanes[j] + [x]];
      FlattenAppendToLane(lanes[..n], j, x);
    }
  }

  /** Adding a new lane `[x]` adds exactly one `x` to the flattened contents. */
  lemma FlattenNewLane<T>(lanes: seq<seq<T>>, x: T)
    ensures Flatten(lanes + [[x]]) == Flatten(lanes) + [x]
  {
    assert (lanes + [[x]])[..|lanes|] == lanes;
  }
}
