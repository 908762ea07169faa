/**
 * The gather that picks each question's summary state out of the encoded
 * question tensor: row b is read at position q_len[b] - 1, the last
 * counted question position.
 */
module QuestionSummary {
  import opened Wrappers
  import opened Tensor
  import opened Masking

  /** tf.concat([range(N)[:, None], (q_len - 1)[:, None]], axis=1): one (row, position) pair per batch row. */
  function GatherIndices(qLen: seq<int>): (idx: seq<(int, int)>)
    ensures |idx| == |qLen|
    ensures forall b :: 0 <= b < |qLen| ==> idx[b].0 == b && idx[b].1 + 1 == qLen[b]
  {
    seq(|qLen|, b requires 0 <= b < |qLen| => (b, qLen[b] - 1))
  }

  /** An index pair addresses an entry of an (rows, cols) tensor. */
  predicate InBounds(ix: (int, int), rows: nat, cols: nat) {
    0 <= ix.0 < rows && 0 <= ix.1 < cols
  }

  /**
   * tf.gather_nd(x, idx) with index pairs: the addressed entries, or None
   * when some pair is outside the (rows, cols) shape of `x`.
   */
  function GatherNd<T>(x: seq<seq<T>>, cols: nat, idx: seq<(int, int)>): (r: Option<seq<T>>)
    requires IsMatrix(x, |x|, cols)
    ensures r.Some? <==> forall b :: 0 <= b < |idx| ==> InBounds(idx[b], |x|, cols)
    ensures r.Some? ==> |r.value| == |idx|
    ensures r.Some? ==> forall b :: 0 <= b < |idx| ==> r.value[b] == x[idx[b].0][idx[b].1]
  {
    if forall b :: 0 <= b < |idx| ==> InBounds(idx[b], |x|, cols) then
      Some(seq(|idx|, b requires 0 <= b < |idx| => x[idx[b].0][idx[b].1]))
    else
      None
  }

  /**
   * With lengths bounded by the question width, the index of row b is in
   * range exactly when that question has at least one real token; an
   * all-padding question gives position -1.
   */
  lemma GatherIndexInRange(qLen: seq<int>, width: nat, b: int)
    requires forall r :: 0 <= r < |qLen| ==> 0 <= qLen[r] <= width
    requires 0 <= b < |qLen|
    ensures InBounds(GatherIndices(qLen)[b], |qLen|, width) <==> qLen[b] >= 1
    ensures qLen[b] == 0 ==> GatherIndices(qLen)[b].1 == -1
  {
  }

  /**
   * The summary gather over an encoded question tensor of shape (N, QL)
   * succeeds exactly when no question of the batch is all padding, and
   * then row b reads the encoding at q_len[b] - 1.
   */
  lemma QuestionStateDefined<T>(encoded: seq<seq<T>>, width: nat, qLen: seq<int>)
    requires IsMatrix(encoded, |qLen|, width)
    requires forall r :: 0 <= r < |qLen| ==> 0 <= qLen[r] <= width
    ensures GatherNd(encoded, width, GatherIndices(qLen)).Some? <==>
      forall b :: 0 <= b < |qLen| ==> qLen[b] >= 1
    ensures GatherNd(encoded, width, GatherIndices(qLen)).Some? ==>
      forall b :: 0 <= b < |qLen| ==>
        GatherNd(encoded, width, GatherIndices(qLen)).value[b] == encoded[b][qLen[b] - 1]
  {
    forall b | 0 <= b < |qLen|
      ensures InBounds(GatherIndices(qLen)[b], |qLen|, width) <==> qLen[b] >= 1
    {
      GatherIndexInRange(qLen, width, b);
    }
  }

  /**
   * For a padded question row, the gathered position is its last real
   * token: that id is not padding and every later id is.
   */
  lemma LastTokenPosition(q: seq<seq<int>>, b: int)
    requires 0 <= b < |q| && PaddedRow(q[b])
    requires Lengths(Mask(q))[b] >= 1
    ensures var pos := GatherIndices(Lengths(Mask(q)))[b].1;
      0 <= pos < |q[b]| && q[b][pos] != 0 &&
      forall i :: pos < i < |q[b]| ==> q[b][i] == 0
  {
    PaddedRowTokens(q[b]);
  }
}
