/**
 * Inference-time span decoding: the outer product of the start and end
 * probabilities, banded so that only spans of length 0..maxSpan remain,
 * then the first arg-max of the row maxima (start) and of the column
 * maxima (end). Probabilities are arbitrary non-negative reals here; how
 * they are produced is not part of this module.
 */
module SpanDecoding {
  import opened Wrappers
  import opened Tensor

  /** The band upper bound the prediction step uses. */
  const PredictMaxSpan: int := 15

  predicate NonNegative(p: seq<real>) {
    forall i :: 0 <= i < |p| ==> p[i] >= 0.0
  }

  /** tf.matmul(p1[:, None], p2[None, :]): the joint score of every (start, end) pair. */
  function Outer(p1: seq<real>, p2: seq<real>): (m: seq<seq<real>>)
    ensures IsMatrix(m, |p1|, |p2|)
    ensures forall i, j :: 0 <= i < |p1| && 0 <= j < |p2| ==> m[i][j] == p1[i] * p2[j]
  {
    seq(|p1|, i requires 0 <= i < |p1| => seq(|p2|, j requires 0 <= j < |p2| => p1[i] * p2[j]))
  }

  /** The band of tf.matrix_band_part: a negative bound leaves that side unbounded. */
  predicate InBand(i: int, j: int, numLower: int, numUpper: int) {
    (numLower < 0 || i - j <= numLower) && (numUpper < 0 || j - i <= numUpper)
  }

  /** tf.matrix_band_part(m, numLower, numUpper): entries outside the band become 0. */
  function BandPart(m: seq<seq<real>>, numLower: int, numUpper: int): (r: seq<seq<real>>)
    ensures |r| == |m|
    ensures forall i :: 0 <= i < |m| ==> |r[i]| == |m[i]|
    ensures forall i, j :: 0 <= i < |m| && 0 <= j < |m[i]| ==>
      r[i][j] == if InBand(i, j, numLower, numUpper) then m[i][j] else 0.0
  {
    seq(|m|, i requires 0 <= i < |m| =>
      seq(|m[i]|, j requires 0 <= j < |m[i]| =>
        if InBand(i, j, numLower, numUpper) then m[i][j] else 0.0))
  }

  /** A (start, end) pair is a candidate span: end is not before start and at most maxSpan after it. */
  predicate ValidSpan(i: int, j: int, maxSpan: int) {
    InBand(i, j, 0, maxSpan)
  }

  /** The banded joint matrix of the prediction step. */
  function Banded(p1: seq<real>, p2: seq<real>, maxSpan: int): (m: seq<seq<real>>)
    ensures IsMatrix(m, |p1|, |p2|)
    ensures forall i, j :: 0 <= i < |p1| && 0 <= j < |p2| ==>
      m[i][j] == if ValidSpan(i, j, maxSpan) then p1[i] * p2[j] else 0.0
  {
    BandPart(Outer(p1, p2), 0, maxSpan)
  }

  ghost predicate NonNegativeEntries(m: seq<seq<real>>, n: nat)
    requires IsMatrix(m, n, n)
  {
    forall i, j :: 0 <= i < n && 0 <= j < n ==> m[i][j] >= 0.0
  }

  ghost predicate ZeroOutsideBand(m: seq<seq<real>>, n: nat, maxSpan: int)
    requires IsMatrix(m, n, n)
  {
    forall i, j :: 0 <= i < n && 0 <= j < n && !ValidSpan(i, j, maxSpan) ==> m[i][j] == 0.0
  }

  /** With non-negative probabilities the banded matrix is non-negative and vanishes off the band. */
  lemma BandedShape(p1: seq<real>, p2: seq<real>, maxSpan: int)
    requires |p1| == |p2|
    requires NonNegative(p1) && NonNegative(p2)
    ensures NonNegativeEntries(Banded(p1, p2, maxSpan), |p1|)
    ensures ZeroOutsideBand(Banded(p1, p2, maxSpan), |p1|, maxSpan)
  {
    var m := Banded(p1, p2, maxSpan);
    forall i, j | 0 <= i < |p1| && 0 <= j < |p2| ensures m[i][j] >= 0.0 {
      if ValidSpan(i, j, maxSpan) {
        ProductNonNegative(p1[i], p2[j]);
      }
    }
  }

  lemma ProductNonNegative(x: real, y: real)
    requires x >= 0.0 && y >= 0.0
    ensures x * y >= 0.0
  {
  }

  /** tf.reduce_max over a non-empty vector. */
  function Max(s: seq<real>): (r: real)
    requires |s| > 0
    ensures forall i :: 0 <= i < |s| ==> s[i] <= r
    ensures exists i :: 0 <= i < |s| && s[i] == r
  {
    if |s| == 1 then s[0]
    else
      var rest := Max(s[..|s| - 1]);
      assert forall i :: 0 <= i < |s| - 1 ==> s[..|s| - 1][i] == s[i];
      if s[|s| - 1] > rest then s[|s| - 1] else rest
  }

  /** tf.argmax over a non-empty vector: the first position of a largest entry. */
  function ArgMax(s: seq<real>): (k: nat)
    requires |s| > 0
    ensures k < |s|
    ensures forall i :: 0 <= i < |s| ==> s[i] <= s[k]
    ensures forall i :: 0 <= i < k ==> s[i] < s[k]
  {
    if |s| == 1 then 0
    else
      var k := ArgMax(s[..|s| - 1]);
      assert forall i :: 0 <= i < |s| - 1 ==> s[..|s| - 1][i] == s[i];
      if s[|s| - 1] > s[k] then |s| - 1 else k
  }

  /** tf.reduce_max(m, axis=2) on one matrix: the largest entry of each row. */
  function RowMax(m: seq<seq<real>>): (r: seq<real>)
    requires forall i :: 0 <= i < |m| ==> |m[i]| > 0
    ensures |r| == |m|
    ensures forall i :: 0 <= i < |m| ==> r[i] == Max(m[i])
  {
    seq(|m|, i requires 0 <= i < |m| => Max(m[i]))
  }

  /** Column j of a matrix whose rows all have length `cols`. */
  function Column(m: seq<seq<real>>, cols: nat, j: nat): (c: seq<real>)
    requires IsMatrix(m, |m|, cols) && j < cols
    ensures |c| == |m| && forall i :: 0 <= i < |m| ==> c[i] == m[i][j]
  {
    seq(|m|, i requires 0 <= i < |m| => m[i][j])
  }

  /** tf.reduce_max(m, axis=1) on one matrix: the largest entry of each column. */
  function ColMax(m: seq<seq<real>>, cols: nat): (r: seq<real>)
    requires |m| > 0 && IsMatrix(m, |m|, cols)
    ensures |r| == cols
    ensures forall j :: 0 <= j < cols ==> r[j] == Max(Column(m, cols, j))
  {
    seq(cols, j requires 0 <= j < cols => Max(Column(m, cols, j)))
  }

  /**
   * The prediction step for one passage of P positions: (yp1, yp2), or None
   * when P is 0, where tf.argmax has an empty axis to reduce and fails.
   */
  function Decode(p1: seq<real>, p2: seq<real>, maxSpan: int): (r: Option<(nat, nat)>)
    requires |p1| == |p2|
    ensures r.None? <==> |p1| == 0
    ensures r.Some? ==> r.value.0 < |p1| && r.value.1 < |p2|
  {
    if |p1| == 0 then None
    else
      var outer := Banded(p1, p2, maxSpan);
      Some((ArgMax(RowMax(outer)), ArgMax(ColMax(outer, |p2|))))
  }

  /** The prediction step over a batch of passages that all have `width` positions. */
  function DecodeBatch(p1: seq<seq<real>>, p2: seq<seq<real>>, width: nat, maxSpan: int)
    : (r: Option<seq<(nat, nat)>>)
    requires IsMatrix(p1, |p1|, width) && IsMatrix(p2, |p1|, width)
    ensures r.None? <==> width == 0
    ensures r.Some? ==> |r.value| == |p1|
    ensures r.Some? ==> forall b :: 0 <= b < |p1| ==> Decode(p1[b], p2[b], maxSpan) == Some(r.value[b])
  {
    if width == 0 then None
    else Some(seq(|p1|, b requires 0 <= b < |p1| => Decode(p1[b], p2[b], maxSpan).value))
  }

  /** Scaling both sides of an inequality by a non-negative factor keeps it. */
  lemma ScaleMonotone(x: real, y: real, z: real)
    requires x <= y && z >= 0.0
    ensures x * z <= y * z
  {
  }

  /** A positive factor can be cancelled from both sides of an inequality. */
  lemma CancelPositive(x: real, y: real, z: real)
    requires z > 0.0
    requires x * z <= y * z
    ensures x <= y
  {
  }

  /** A product of non-negative reals that is positive has a positive right factor. */
  lemma PositiveFactor(x: real, y: real)
    requires x >= 0.0 && y >= 0.0 && x * y > 0.0
    ensures y > 0.0
  {
  }

  /**
   * The rank-one step: if a*b and c*d are at most t > 0 while the cross
   * products a*d and c*b both equal t, then a*b equals t.
   */
  lemma CrossProductTie(a: real, b: real, c: real, d: real, t: real)
    requires a >= 0.0 && b >= 0.0 && c >= 0.0 && d >= 0.0 && t > 0.0
    requires a * d == t
    requires c * b == t
    requires a * b <= t
    requires c * d <= t
    ensures a * b == t
  {
    PositiveFactor(a, d);
    CancelPositive(c, a, d);
    ScaleMonotone(c, a, b);
  }

  /** The largest entry of a non-empty matrix: the maximum of its row maxima. */
  function Top(m: seq<seq<real>>, cols: nat): real
    requires |m| > 0 && cols > 0 && IsMatrix(m, |m|, cols)
  {
    Max(RowMax(m))
  }

  /**
   * The first arg-max of the row maxima is the first row that holds the
   * largest entry of the matrix.
   */
  lemma StartIsFirstTopRow(m: seq<seq<real>>, cols: nat)
    requires |m| > 0 && cols > 0 && IsMatrix(m, |m|, cols)
    ensures forall i, j :: 0 <= i < |m| && 0 <= j < cols ==> m[i][j] <= Top(m, cols)
    ensures exists j :: 0 <= j < cols && m[ArgMax(RowMax(m))][j] == Top(m, cols)
    ensures forall i, j :: 0 <= i < ArgMax(RowMax(m)) && 0 <= j < cols ==> m[i][j] < Top(m, cols)
  {
    var rows := RowMax(m);
    var s := ArgMax(rows);
    assert rows[s] == Top(m, cols);
    var j :| 0 <= j < cols && m[s][j] == Max(m[s]);
    forall i, j | 0 <= i < |m| && 0 <= j < cols ensures m[i][j] <= rows[i] {
    }
  }

  /** The j-th column maximum bounds column j and is attained in it. */
  lemma ColumnMaxAttained(m: seq<seq<real>>, cols: nat, j: nat)
    requires |m| > 0 && IsMatrix(m, |m|, cols) && j < cols
    ensures forall i :: 0 <= i < |m| ==> m[i][j] <= ColMax(m, cols)[j]
    ensures exists i :: 0 <= i < |m| && m[i][j] == ColMax(m, cols)[j]
  {
    var column := Column(m, cols, j);
    assert ColMax(m, cols)[j] == Max(column);
    var i :| 0 <= i < |m| && column[i] == Max(column);
    assert m[i][j] == ColMax(m, cols)[j];
  }

  /** The largest column maximum is the largest entry of the matrix. */
  lemma TopColumnMax(m: seq<seq<real>>, cols: nat)
    requires |m| > 0 && cols > 0 && IsMatrix(m, |m|, cols)
    ensures ColMax(m, cols)[ArgMax(ColMax(m, cols))] == Top(m, cols)
  {
    StartIsFirstTopRow(m, cols);
    var colMax := ColMax(m, cols);
    var e := ArgMax(colMax);
    var j1 :| 0 <= j1 < cols && m[ArgMax(RowMax(m))][j1] == Top(m, cols);
    ColumnMaxAttained(m, cols, j1);
    ColumnMaxAttained(m, cols, e);
    var i2 :| 0 <= i2 < |m| && m[i2][e] == colMax[e];
  }

  /**
   * The first arg-max of the column maxima is the first column that holds
   * the largest entry of the matrix.
   */
  lemma EndIsFirstTopColumn(m: seq<seq<real>>, cols: nat)
    requires |m| > 0 && cols > 0 && IsMatrix(m, |m|, cols)
    ensures exists i :: 0 <= i < |m| && m[i][ArgMax(ColMax(m, cols))] == Top(m, cols)
    ensures forall i, j :: 0 <= i < |m| && 0 <= j < ArgMax(ColMax(m, cols)) ==> m[i][j] < Top(m, cols)
  {
    var colMax := ColMax(m, cols);
    var e := ArgMax(colMax);
    TopColumnMax(m, cols);
    ColumnMaxAttained(m, cols, e);
    forall i, j | 0 <= i < |m| && 0 <= j < e ensures m[i][j] < colMax[e] {
      ColumnMaxAttained(m, cols, j);
    }
  }

  /**
   * For a non-negative matrix that vanishes off the band, the decoded
   * start s and end e form a valid span; when the largest entry is
   * positive, it sits at (s, j1) and at (i2, e) for some s <= i2 <= e <= j1.
   */
  lemma FirstTopWitnesses(m: seq<seq<real>>, n: nat, maxSpan: int) returns (j1: nat, i2: nat)
    requires n > 0 && IsMatrix(m, n, n)
    requires NonNegativeEntries(m, n) && ZeroOutsideBand(m, n, maxSpan)
    ensures Top(m, n) >= 0.0
    ensures ValidSpan(ArgMax(RowMax(m)), ArgMax(ColMax(m, n)), maxSpan)
    ensures Top(m, n) == 0.0 ==> ArgMax(RowMax(m)) == 0 && ArgMax(ColMax(m, n)) == 0
    ensures Top(m, n) > 0.0 ==>
      && j1 < n && i2 < n
      && ArgMax(RowMax(m)) <= i2 && ArgMax(ColMax(m, n)) <= j1
      && ValidSpan(ArgMax(RowMax(m)), j1, maxSpan) && m[ArgMax(RowMax(m))][j1] == Top(m, n)
      && ValidSpan(i2, ArgMax(ColMax(m, n)), maxSpan) && m[i2][ArgMax(ColMax(m, n))] == Top(m, n)
      && ValidSpan(i2, j1, maxSpan)
  {
    var s, e := ArgMax(RowMax(m)), ArgMax(ColMax(m, n));
    StartIsFirstTopRow(m, n);
    EndIsFirstTopColumn(m, n);
    var top := Top(m, n);
    assert top >= m[0][0] >= 0.0;
    if top > 0.0 {
      j1 :| 0 <= j1 < n && m[s][j1] == top;
      i2 :| 0 <= i2 < n && m[i2][e] == top;
      assert ValidSpan(s, j1, maxSpan) && ValidSpan(i2, e, maxSpan);
      assert e <= j1 && s <= i2;
    } else {
      j1, i2 := 0, 0;
      assert s == 0 && e == 0;
      assert ValidSpan(0, 0, maxSpan);
    }
  }

  /** Inside the band, an entry of the banded matrix is the joint score. */
  lemma BandedAt(p1: seq<real>, p2: seq<real>, maxSpan: int, i: nat, j: nat)
    requires |p1| == |p2| && i < |p1| && j < |p2| && ValidSpan(i, j, maxSpan)
    ensures Banded(p1, p2, maxSpan)[i][j] == p1[i] * p2[j]
  {
  }

  /** The rank-one step of CrossProductTie, stated on banded entries. */
  lemma BandedTie(p1: seq<real>, p2: seq<real>, maxSpan: int, s: nat, e: nat, i2: nat, j1: nat, top: real)
    requires |p1| == |p2| && s < |p1| && e < |p1| && i2 < |p1| && j1 < |p1|
    requires NonNegative(p1) && NonNegative(p2) && top > 0.0
    requires ValidSpan(s, e, maxSpan) && ValidSpan(s, j1, maxSpan)
    requires ValidSpan(i2, e, maxSpan) && ValidSpan(i2, j1, maxSpan)
    requires Banded(p1, p2, maxSpan)[s][j1] == top && Banded(p1, p2, maxSpan)[i2][e] == top
    requires Banded(p1, p2, maxSpan)[s][e] <= top && Banded(p1, p2, maxSpan)[i2][j1] <= top
    ensures Banded(p1, p2, maxSpan)[s][e] == top
  {
    CrossProductTie(p1[s], p2[e], p1[i2], p2[j1], top);
  }

  /** The decoded (start, end) is a valid span whose banded entry is the largest one. */
  lemma DecodedSpanReachesTop(p1: seq<real>, p2: seq<real>, maxSpan: int)
    requires |p1| == |p2| > 0
    requires NonNegative(p1) && NonNegative(p2)
    ensures ValidSpan(ArgMax(RowMax(Banded(p1, p2, maxSpan))), ArgMax(ColMax(Banded(p1, p2, maxSpan), |p2|)), maxSpan)
    ensures Banded(p1, p2, maxSpan)[ArgMax(RowMax(Banded(p1, p2, maxSpan)))][ArgMax(ColMax(Banded(p1, p2, maxSpan), |p2|))]
      == Top(Banded(p1, p2, maxSpan), |p2|)
  {
    var n := |p1|;
    var m := Banded(p1, p2, maxSpan);
    var s, e := ArgMax(RowMax(m)), ArgMax(ColMax(m, n));
    BandedShape(p1, p2, maxSpan);
    var j1, i2 := FirstTopWitnesses(m, n, maxSpan);
    StartIsFirstTopRow(m, n);
    var top := Top(m, n);
    if top > 0.0 {
      BandedTie(p1, p2, maxSpan, s, e, i2, j1, top);
    }
  }

  /** Every valid span scores at most the largest banded entry. */
  lemma ValidSpansBelowTop(p1: seq<real>, p2: seq<real>, maxSpan: int)
    requires |p1| == |p2| > 0
    ensures forall i, j :: 0 <= i < |p1| && 0 <= j < |p2| && ValidSpan(i, j, maxSpan) ==>
      p1[i] * p2[j] <= Top(Banded(p1, p2, maxSpan), |p2|)
  {
    var m := Banded(p1, p2, maxSpan);
    StartIsFirstTopRow(m, |p2|);
    forall i, j | 0 <= i < |p1| && 0 <= j < |p2| && ValidSpan(i, j, maxSpan)
      ensures p1[i] * p2[j] <= Top(m, |p2|)
    {
      BandedAt(p1, p2, maxSpan, i, j);
    }
  }

  /** No valid span has a larger joint score than (s, e). */
  ghost predicate BestSpan(p1: seq<real>, p2: seq<real>, maxSpan: int, s: nat, e: nat)
    requires |p1| == |p2| && s < |p1| && e < |p2|
  {
    forall i, j :: 0 <= i < |p1| && 0 <= j < |p2| && ValidSpan(i, j, maxSpan) ==>
      p1[i] * p2[j] <= p1[s] * p2[e]
  }

  /**
   * The decoded span is a valid span of the passage and is optimal: with
   * non-negative probabilities, yp1 <= yp2 < P, yp2 - yp1 <= maxSpan when
   * maxSpan >= 0, and no valid span has a larger joint score than
   * p1[yp1] * p2[yp2].
   */
  lemma DecodedSpanIsOptimal(p1: seq<real>, p2: seq<real>, maxSpan: int)
    requires |p1| == |p2| > 0
    requires NonNegative(p1) && NonNegative(p2)
    ensures Decode(p1, p2, maxSpan).Some?
    ensures Decode(p1, p2, maxSpan).value.0 <= Decode(p1, p2, maxSpan).value.1 < |p1|
    ensures ValidSpan(Decode(p1, p2, maxSpan).value.0, Decode(p1, p2, maxSpan).value.1, maxSpan)
    ensures BestSpan(p1, p2, maxSpan, Decode(p1, p2, maxSpan).value.0, Decode(p1, p2, maxSpan).value.1)
  {
    var m := Banded(p1, p2, maxSpan);
    var s, e := ArgMax(RowMax(m)), ArgMax(ColMax(m, |p2|));
    DecodedSpanReachesTop(p1, p2, maxSpan);
    BandedAt(p1, p2, maxSpan, s, e);
    assert Decode(p1, p2, maxSpan).value == (s, e);
    forall i, j | 0 <= i < |p1| && 0 <= j < |p2| && ValidSpan(i, j, maxSpan)
      ensures p1[i] * p2[j] <= p1[s] * p2[e]
    {
      ValidSpansBelowTop(p1, p2, maxSpan);
    }
    assert BestSpan(p1, p2, maxSpan, s, e);
  }
}
