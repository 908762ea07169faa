/**
 * Masks and lengths derived from padded id tensors (`c`, `q` and the
 * per-token character ids `ch`, `qh`). Id 0 is padding; every other id,
 * negative ones included, is a real token, as `tf.cast(ids, tf.bool)` says.
 */
module Masking {
  import opened Tensor

  /** tf.cast(ids, tf.bool) on one row. */
  function MaskRow(ids: seq<int>): (r: seq<bool>)
    ensures |r| == |ids|
    ensures forall i :: 0 <= i < |ids| ==> (r[i] <==> ids[i] != 0)
  {
    seq(|ids|, i requires 0 <= i < |ids| => ids[i] != 0)
  }

  /** tf.cast(m, tf.bool) on a batch: entry (b, i) is true exactly when id (b, i) is not padding. */
  function Mask(m: seq<seq<int>>): (r: seq<seq<bool>>)
    ensures |r| == |m|
    ensures forall b :: 0 <= b < |m| ==>
      |r[b]| == |m[b]| && forall i :: 0 <= i < |m[b]| ==> (r[b][i] <==> m[b][i] != 0)
  {
    seq(|m|, b requires 0 <= b < |m| => MaskRow(m[b]))
  }

  /** tf.reduce_sum(tf.cast(mask, tf.int32)) over one row: the number of set positions. */
  function Count(mask: seq<bool>): (n: int)
    ensures 0 <= n <= |mask|
  {
    if mask == [] then 0
    else Count(mask[..|mask| - 1]) + (if mask[|mask| - 1] then 1 else 0)
  }

  /** tf.reduce_sum(tf.cast(mask, tf.int32), axis=1): one length per batch row. */
  function Lengths(mask: seq<seq<bool>>): (r: seq<int>)
    ensures |r| == |mask|
    ensures forall b :: 0 <= b < |mask| ==> 0 <= r[b] <= |mask[b]|
  {
    seq(|mask|, b requires 0 <= b < |mask| => Count(mask[b]))
  }

  /** tf.reduce_max over a non-empty batch of lengths. */
  function MaxLen(lens: seq<int>): (r: int)
    requires |lens| > 0
    ensures forall b :: 0 <= b < |lens| ==> lens[b] <= r
    ensures exists b :: 0 <= b < |lens| && lens[b] == r
  {
    if |lens| == 1 then lens[0]
    else
      var rest := MaxLen(lens[1..]);
      assert forall b :: 1 <= b < |lens| ==> lens[1..][b - 1] == lens[b];
      if lens[0] >= rest then lens[0] else rest
  }

  /**
   * tf.reshape(tf.reduce_sum(tf.cast(tf.cast(ch, tf.bool), tf.int32), axis=2), [-1]):
   * the number of real characters of every token, batch row after batch row.
   */
  function CharLengths(ch: seq<seq<seq<int>>>): (r: seq<int>)
    ensures forall i :: 0 <= i < |r| ==> r[i] >= 0
  {
    var perToken := seq(|ch|, n requires 0 <= n < |ch| => Lengths(Mask(ch[n])));
    Flatten(perToken)
  }

  /** The positions of a row that hold a real (non-padding) id. */
  ghost function TokenPositions(ids: seq<int>): set<int> {
    set i | 0 <= i < |ids| && ids[i] != 0
  }

  /** A padded row: once padding starts, it runs to the end of the row. */
  ghost predicate PaddedRow(ids: seq<int>) {
    forall i, j :: 0 <= i <= j < |ids| && ids[i] == 0 ==> ids[j] == 0
  }

  /** The length of a row is the number of its non-padding ids. */
  lemma {:induction false} CountIsTokenCount(ids: seq<int>)
    ensures Count(MaskRow(ids)) == |TokenPositions(ids)|
  {
    if ids != [] {
      var n := |ids|;
      var init := ids[..n - 1];
      CountIsTokenCount(init);
      assert MaskRow(ids)[..n - 1] == MaskRow(init);
      if ids[n - 1] != 0 {
        assert TokenPositions(ids) == TokenPositions(init) + {n - 1};
      } else {
        assert TokenPositions(ids) == TokenPositions(init);
      }
    }
  }

  /** Counting distributes over concatenation. */
  lemma {:induction false} CountConcat(a: seq<bool>, b: seq<bool>)
    ensures Count(a + b) == Count(a) + Count(b)
  {
    if b == [] {
      assert a + b == a;
    } else {
      var init := b[..|b| - 1];
      CountConcat(a, init);
      assert (a + b)[..|a + b| - 1] == a + init;
    }
  }

  /** A mask that is uniformly `v` counts all or nothing. */
  lemma {:induction false} CountUniform(mask: seq<bool>, v: bool)
    requires forall i :: 0 <= i < |mask| ==> mask[i] == v
    ensures Count(mask) == if v then |mask| else 0
  {
    if mask != [] {
      CountUniform(mask[..|mask| - 1], v);
    }
  }

  /** In a padded row the real ids are exactly the first Count(MaskRow(ids)) positions. */
  lemma {:induction false} PaddedRowTokens(ids: seq<int>)
    requires PaddedRow(ids)
    ensures forall i :: 0 <= i < |ids| ==> (ids[i] != 0 <==> i < Count(MaskRow(ids)))
  {
    if ids != [] {
      var n := |ids|;
      var init := ids[..n - 1];
      assert MaskRow(ids)[..n - 1] == MaskRow(init);
      if ids[n - 1] != 0 {
        CountUniform(MaskRow(init), true);
      } else {
        assert PaddedRow(init);
        PaddedRowTokens(init);
      }
    }
  }

  /** A row of real ids followed by padding has the length of its real part. */
  lemma PaddedLength(content: seq<int>, padding: seq<int>)
    requires forall i :: 0 <= i < |content| ==> content[i] != 0
    requires forall i :: 0 <= i < |padding| ==> padding[i] == 0
    ensures Count(MaskRow(content + padding)) == |content|
  {
    assert MaskRow(content + padding) == MaskRow(content) + MaskRow(padding);
    CountConcat(MaskRow(content), MaskRow(padding));
    CountUniform(MaskRow(content), true);
    CountUniform(MaskRow(padding), false);
  }

  /** The passage [3, 7, 2, 9, 0]: four real tokens, then one padding position. */
  lemma PassageExampleLength()
    ensures Mask([[3, 7, 2, 9, 0]]) == [[true, true, true, true, false]]
    ensures Lengths(Mask([[3, 7, 2, 9, 0]])) == [4]
  {
    var row := [3, 7, 2, 9, 0];
    assert row == [3, 7, 2, 9] + [0];
    PaddedLength([3, 7, 2, 9], [0]);
    assert MaskRow(row) == [true, true, true, true, false];
    assert Mask([row]) == [MaskRow(row)];
    assert Lengths(Mask([row]))[0] == Count(MaskRow(row));
  }

  /** Masking commutes with slicing: masking first and slicing the mask, as the model does, gives the mask of the sliced ids. */
  lemma MaskSlice(m: seq<seq<int>>, k: nat)
    requires forall b :: 0 <= b < |m| ==> k <= |m[b]|
    ensures SliceCols(Mask(m), k) == Mask(SliceCols(m, k))
  {
    forall b | 0 <= b < |m| ensures SliceCols(Mask(m), k)[b] == Mask(SliceCols(m, k))[b] {
    }
  }

  /**
   * Truncating padded rows to a width `k` at least as large as every row's
   * length drops padding only: the cut-off ids are all 0 and the lengths
   * of the truncated rows are the lengths of the original ones.
   */
  lemma TruncationIsLossless(m: seq<seq<int>>, k: nat)
    requires forall b :: 0 <= b < |m| ==> PaddedRow(m[b])
    requires forall b :: 0 <= b < |m| ==> Lengths(Mask(m))[b] <= k <= |m[b]|
    ensures forall b, i :: 0 <= b < |m| && k <= i < |m[b]| ==> m[b][i] == 0
    ensures Lengths(Mask(SliceCols(m, k))) == Lengths(Mask(m))
  {
    forall b | 0 <= b < |m|
      ensures (forall i :: k <= i < |m[b]| ==> m[b][i] == 0)
      ensures Lengths(Mask(SliceCols(m, k)))[b] == Lengths(Mask(m))[b]
    {
      var row := m[b];
      PaddedRowTokens(row);
      assert row == row[..k] + row[k..];
      assert MaskRow(row) == MaskRow(row[..k]) + MaskRow(row[k..]);
      CountConcat(MaskRow(row[..k]), MaskRow(row[k..]));
      CountUniform(MaskRow(row[k..]), false);
      assert SliceCols(m, k)[b] == row[..k];
    }
  }

  /** ch_len has one entry per token, entry RowMajor(n, PL, p) counting the real characters of token (n, p). */
  lemma CharLengthsLayout(ch: seq<seq<seq<int>>>, batch: nat, width: nat, chars: nat)
    requires IsTensor3(ch, batch, width, chars)
    ensures |CharLengths(ch)| == batch * width
    ensures forall n: nat, p: nat :: n < batch && p < width ==>
      RowMajor(n, width, p) < |CharLengths(ch)|
      && CharLengths(ch)[RowMajor(n, width, p)] == Count(MaskRow(ch[n][p]))
      && 0 <= Count(MaskRow(ch[n][p])) <= chars
  {
    var perToken := seq(|ch|, n requires 0 <= n < |ch| => Lengths(Mask(ch[n])));
    FlattenLayout(perToken, width);
  }
}
