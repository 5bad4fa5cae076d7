/**
  Sequences of sequences laid end to end, as the terrain code does when it appends the
  buckets of a chunk row and when it adds the children of one triangle after another.
 */
module Seqs {

  /** The blocks laid end to end, in order. */
  function Concat<T(==, !new)>(bs: seq<seq<T>>): (r: seq<T>)
    ensures forall t :: t in r <==> exists i :: 0 <= i < |bs| && t in bs[i]
  {
    if bs == [] then []
    else
      var init := bs[..|bs| - 1];
      assert forall i :: 0 <= i < |init| ==> init[i] == bs[i];
      Concat(init) + bs[|bs| - 1]
  }

  /** Blocks of four laid end to end: element 4j + k is element k of block j. */
  lemma {:induction false} ConcatAt<T(!new)>(bs: seq<seq<T>>, j: nat, k: nat)
    requires forall i :: 0 <= i < |bs| ==> |bs[i]| == 4
    requires j < |bs| && k < 4
    ensures |Concat(bs)| == 4 * |bs| && Concat(bs)[4 * j + k] == bs[j][k]
  {
    var init := bs[..|bs| - 1];
    assert forall i :: 0 <= i < |init| ==> |init[i]| == 4 by {
      forall i | 0 <= i < |init| ensures |init[i]| == 4 { assert init[i] == bs[i]; }
    }
    ConcatLength(init);
    if j < |bs| - 1 {
      ConcatAt(init, j, k);
      assert init[j] == bs[j];
    }
  }

  lemma {:induction false} ConcatLength<T(!new)>(bs: seq<seq<T>>)
    requires forall i :: 0 <= i < |bs| ==> |bs[i]| == 4
    ensures |Concat(bs)| == 4 * |bs|
  {
    if bs != [] {
      var init := bs[..|bs| - 1];
      forall i | 0 <= i < |init| ensures |init[i]| == 4 { assert init[i] == bs[i]; }
      ConcatLength(init);
    }
  }
}
