/**
 * Shapes of the padded, rectangular batch tensors and the two shape
 * operations the preprocessing uses: slicing along the sequence axis
 * (tf.slice with begin 0) and row-major flattening (tf.reshape to [-1]).
 */
module Tensor {

  /** `m` has shape (rows, cols). */
  predicate IsMatrix<T>(m: seq<seq<T>>, rows: nat, cols: nat) {
    |m| == rows && forall b :: 0 <= b < |m| ==> |m[b]| == cols
  }

  /** `t` has shape (d0, d1, d2). */
  predicate IsTensor3<T>(t: seq<seq<seq<T>>>, d0: nat, d1: nat, d2: nat) {
    |t| == d0 && forall b :: 0 <= b < |t| ==> IsMatrix(t[b], d1, d2)
  }

  /**
   * tf.slice(m, [0, 0, ...], [rows, k, ...]): every row keeps its first `k`
   * entries (for a 3-D tensor an entry is a whole token's character row).
   */
  function SliceCols<T>(m: seq<seq<T>>, k: nat): (r: seq<seq<T>>)
    requires forall b :: 0 <= b < |m| ==> k <= |m[b]|
    ensures |r| == |m|
    ensures forall b :: 0 <= b < |m| ==>
      |r[b]| == k && forall i :: 0 <= i < k ==> r[b][i] == m[b][i]
  {
    seq(|m|, b requires 0 <= b < |m| => m[b][..k])
  }

  /** Slicing to the full width is the identity. */
  lemma SliceFullWidth<T>(m: seq<seq<T>>, w: nat)
    requires forall b :: 0 <= b < |m| ==> |m[b]| == w
    ensures SliceCols(m, w) == m
  {
    forall b | 0 <= b < |m| ensures SliceCols(m, w)[b] == m[b] {
      assert m[b][..w] == m[b];
    }
  }

  /** Slicing keeps the shape of the remaining axes. */
  lemma SliceShape<T>(t: seq<seq<seq<T>>>, d0: nat, d1: nat, d2: nat, k: nat)
    requires IsTensor3(t, d0, d1, d2) && k <= d1
    ensures IsTensor3(SliceCols(t, k), d0, k, d2)
  {
    forall b | 0 <= b < d0 ensures IsMatrix(SliceCols(t, k)[b], k, d2) {
      assert SliceCols(t, k)[b] == t[b][..k];
    }
  }

  /** Every entry of `r` is an entry of some row of `m`. */
  ghost predicate EntriesFrom<T>(r: seq<T>, m: seq<seq<T>>) {
    forall i :: 0 <= i < |r| ==> exists b :: 0 <= b < |m| && r[i] in m[b]
  }

  /** Prepending a row keeps every entry drawn from the rows. */
  lemma EntriesFromCons<T>(m: seq<seq<T>>, rest: seq<T>)
    requires |m| > 0 && EntriesFrom(rest, m[1..])
    ensures EntriesFrom(m[0] + rest, m)
  {
    var r := m[0] + rest;
    forall i | 0 <= i < |r|
      ensures exists b :: 0 <= b < |m| && r[i] in m[b]
    {
      if i < |m[0]| {
        assert r[i] == m[0][i];
        assert r[i] in m[0];
      } else {
        var k := i - |m[0]|;
        assert r[i] == rest[k];
        var b :| 0 <= b < |m[1..]| && rest[k] in m[1..][b];
        assert m[1..][b] == m[b + 1];
        assert r[i] in m[b + 1];
      }
    }
  }

  /** tf.reshape(m, [-1]): the rows of `m` laid end to end. */
  function Flatten<T>(m: seq<seq<T>>): (r: seq<T>)
    ensures EntriesFrom(r, m)
  {
    if m == [] then []
    else
      var rest := Flatten(m[1..]);
      EntriesFromCons(m, rest);
      m[0] + rest
  }

  /** Position of entry (b, p) of a width-`w` matrix once it is flattened row-major. */
  function RowMajor(b: nat, w: nat, p: nat): nat {
    b * w + p
  }

  /** Flattening `|m|` rows of width `w` gives `|m| * w` entries. */
  lemma {:induction false} FlattenLength<T>(m: seq<seq<T>>, w: nat)
    requires forall b :: 0 <= b < |m| ==> |m[b]| == w
    ensures |Flatten(m)| == |m| * w
  {
    if m != [] {
      FlattenLength(m[1..], w);
      assert |m| * w == w + (|m| - 1) * w;
    }
  }

  /** Flattening is row-major: entry (b, p) lands at RowMajor(b, w, p). */
  lemma {:induction false} FlattenAt<T>(m: seq<seq<T>>, w: nat, b: nat, p: nat)
    requires forall r :: 0 <= r < |m| ==> |m[r]| == w
    requires b < |m| && p < w
    ensures RowMajor(b, w, p) < |Flatten(m)| && Flatten(m)[RowMajor(b, w, p)] == m[b][p]
  {
    if b > 0 {
      FlattenAt(m[1..], w, b - 1, p);
      assert RowMajor(b, w, p) == w + RowMajor(b - 1, w, p);
    }
  }

  /** FlattenAt for every position at once. */
  lemma FlattenLayout<T>(m: seq<seq<T>>, w: nat)
    requires forall b :: 0 <= b < |m| ==> |m[b]| == w
    ensures |Flatten(m)| == |m| * w
    ensures forall b: nat, p: nat :: b < |m| && p < w ==>
      RowMajor(b, w, p) < |Flatten(m)| && Flatten(m)[RowMajor(b, w, p)] == m[b][p]
  {
    FlattenLength(m, w);
    forall b: nat, p: nat | b < |m| && p < w
      ensures RowMajor(b, w, p) < |Flatten(m)| && Flatten(m)[RowMajor(b, w, p)] == m[b][p]
    {
      FlattenAt(m, w, b, p);
    }
  }
}
