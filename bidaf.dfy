/**
 * The discrete bookkeeping of the BiDAF reader: the constructor derives
 * masks and lengths from a padded batch, optionally truncates every
 * passage-shaped and question-shaped tensor to the longest real sequence
 * in the batch, and flattens the per-token character lengths; the
 * prediction step stores the decoded answer span of every passage.
 * Embeddings, encoders, attention and the pointer network are not modelled:
 * the prediction step takes the start and end probabilities as arguments.
 */
module BiDAFModel {
  import opened Wrappers
  import opened Tensor
  import opened Masking
  import opened QuestionSummary
  import opened SpanDecoding

  /** The configuration knobs the constructor reads. */
  datatype Config = Config(batchSize: nat, charLimit: nat, paraLimit: nat, quesLimit: nat)

  /** One batch of the input pipeline; the example ids are not part of this model. */
  datatype Batch = Batch(
    c: seq<seq<int>>, q: seq<seq<int>>,
    ch: seq<seq<seq<int>>>, qh: seq<seq<seq<int>>>,
    y1: seq<seq<real>>, y2: seq<seq<real>>)

  /**
   * The shapes the input pipeline delivers: N rows padded to the configured
   * passage, question and character limits.
   */
  predicate WellShaped(config: Config, batch: Batch) {
    var n := config.batchSize;
    && IsMatrix(batch.c, n, config.paraLimit) && IsMatrix(batch.q, n, config.quesLimit)
    && IsTensor3(batch.ch, n, config.paraLimit, config.charLimit)
    && IsTensor3(batch.qh, n, config.quesLimit, config.charLimit)
    && IsMatrix(batch.y1, n, config.paraLimit) && IsMatrix(batch.y2, n, config.paraLimit)
  }

  /** Every passage and question row is real tokens followed by padding only. */
  ghost predicate PaddedBatch(batch: Batch) {
    && (forall b :: 0 <= b < |batch.c| ==> PaddedRow(batch.c[b]))
    && (forall b :: 0 <= b < |batch.q| ==> PaddedRow(batch.q[b]))
  }

  /**
   * Cutting a well-shaped batch to widths (cm, qm) within the limits gives
   * tensors of those widths whose masks are the cut masks and whose
   * character lengths have one entry per kept token; when no row is longer
   * than its cut and the rows are padded, the lengths do not change.
   */
  lemma CutBatch(config: Config, batch: Batch, cm: nat, qm: nat)
    requires WellShaped(config, batch)
    requires cm <= config.paraLimit && qm <= config.quesLimit
    ensures IsMatrix(SliceCols(batch.c, cm), config.batchSize, cm)
    ensures IsMatrix(SliceCols(batch.q, qm), config.batchSize, qm)
    ensures IsTensor3(SliceCols(batch.ch, cm), config.batchSize, cm, config.charLimit)
    ensures IsTensor3(SliceCols(batch.qh, qm), config.batchSize, qm, config.charLimit)
    ensures IsMatrix(SliceCols(batch.y1, cm), config.batchSize, cm)
    ensures IsMatrix(SliceCols(batch.y2, cm), config.batchSize, cm)
    ensures SliceCols(Mask(batch.c), cm) == Mask(SliceCols(batch.c, cm))
    ensures SliceCols(Mask(batch.q), qm) == Mask(SliceCols(batch.q, qm))
    ensures PaddedBatch(batch) && (forall b :: 0 <= b < config.batchSize ==> Lengths(Mask(batch.c))[b] <= cm) ==>
      Lengths(Mask(SliceCols(batch.c, cm))) == Lengths(Mask(batch.c))
    ensures PaddedBatch(batch) && (forall b :: 0 <= b < config.batchSize ==> Lengths(Mask(batch.q))[b] <= qm) ==>
      Lengths(Mask(SliceCols(batch.q, qm))) == Lengths(Mask(batch.q))
  {
    var n := config.batchSize;
    MaskSlice(batch.c, cm);
    MaskSlice(batch.q, qm);
    SliceShape(batch.ch, n, config.paraLimit, config.charLimit, cm);
    SliceShape(batch.qh, n, config.quesLimit, config.charLimit, qm);
    if PaddedBatch(batch) && (forall b :: 0 <= b < n ==> Lengths(Mask(batch.c))[b] <= cm) {
      TruncationIsLossless(batch.c, cm);
    }
    if PaddedBatch(batch) && (forall b :: 0 <= b < n ==> Lengths(Mask(batch.q))[b] <= qm) {
      TruncationIsLossless(batch.q, qm);
    }
  }

  /** The character lengths of a batch cut to widths (cm, qm) have one entry per kept token. */
  lemma CutCharLengths(config: Config, batch: Batch, cm: nat, qm: nat)
    requires WellShaped(config, batch)
    requires cm <= config.paraLimit && qm <= config.quesLimit
    ensures |CharLengths(SliceCols(batch.ch, cm))| == config.batchSize * cm
    ensures |CharLengths(SliceCols(batch.qh, qm))| == config.batchSize * qm
  {
    var n := config.batchSize;
    SliceShape(batch.ch, n, config.paraLimit, config.charLimit, cm);
    SliceShape(batch.qh, n, config.quesLimit, config.charLimit, qm);
    CharLengthsLayout(SliceCols(batch.ch, cm), n, cm, config.charLimit);
    CharLengthsLayout(SliceCols(batch.qh, qm), n, qm, config.charLimit);
  }

  /** Cutting a well-shaped batch to the configured limits changes nothing. */
  lemma FullWidthCut(config: Config, batch: Batch)
    requires WellShaped(config, batch)
    ensures SliceCols(batch.c, config.paraLimit) == batch.c
    ensures SliceCols(batch.q, config.quesLimit) == batch.q
    ensures SliceCols(batch.ch, config.paraLimit) == batch.ch
    ensures SliceCols(batch.qh, config.quesLimit) == batch.qh
    ensures SliceCols(batch.y1, config.paraLimit) == batch.y1
    ensures SliceCols(batch.y2, config.paraLimit) == batch.y2
  {
    SliceFullWidth(batch.c, config.paraLimit);
    SliceFullWidth(batch.q, config.quesLimit);
    SliceFullWidth(batch.ch, config.paraLimit);
    SliceFullWidth(batch.qh, config.quesLimit);
    SliceFullWidth(batch.y1, config.paraLimit);
    SliceFullWidth(batch.y2, config.paraLimit);
  }

  class BiDAF {
    const config: Config
    const opt: bool
    var c: seq<seq<int>>
    var q: seq<seq<int>>
    var ch: seq<seq<seq<int>>>
    var qh: seq<seq<seq<int>>>
    var y1: seq<seq<real>>
    var y2: seq<seq<real>>
    var cMask: seq<seq<bool>>
    var qMask: seq<seq<bool>>
    var cLen: seq<int>
    var qLen: seq<int>
    var cMaxlen: nat
    var qMaxlen: nat
    var chLen: seq<int>
    var qhLen: seq<int>
    var yp1: seq<nat>
    var yp2: seq<nat>

    /**
     * The invariant the constructor establishes: every passage-shaped tensor
     * has width cMaxlen and every question-shaped one qMaxlen, the masks are
     * those of the working ids, no recorded length exceeds the working width,
     * and the character lengths are those of the working character ids.
     */
    ghost predicate Valid()
      reads this
    {
      var n := config.batchSize;
      && IsMatrix(c, n, cMaxlen) && IsMatrix(q, n, qMaxlen)
      && IsTensor3(ch, n, cMaxlen, config.charLimit) && IsTensor3(qh, n, qMaxlen, config.charLimit)
      && IsMatrix(y1, n, cMaxlen) && IsMatrix(y2, n, cMaxlen)
      && cMask == Mask(c) && qMask == Mask(q)
      && |cLen| == n && |qLen| == n
      && (forall b :: 0 <= b < n ==> 0 <= cLen[b] <= cMaxlen)
      && (forall b :: 0 <= b < n ==> 0 <= qLen[b] <= qMaxlen)
      && cMaxlen <= config.paraLimit && qMaxlen <= config.quesLimit
      && chLen == CharLengths(ch) && qhLen == CharLengths(qh)
      && |chLen| == n * cMaxlen && |qhLen| == n * qMaxlen
    }

    /**
     * The preprocessing of the constructor. The lengths always count the
     * real tokens of the batch as delivered; the working width is the
     * longest such length when `opt` holds and the configured limit
     * otherwise, and every tensor is the batch cut to that width.
     */
    constructor(config: Config, batch: Batch, opt: bool)
      requires WellShaped(config, batch)
      requires opt ==> config.batchSize > 0
      ensures this.config == config && this.opt == opt
      ensures Valid()
      ensures cLen == Lengths(Mask(batch.c)) && qLen == Lengths(Mask(batch.q))
      ensures opt ==> cMaxlen == MaxLen(cLen) && qMaxlen == MaxLen(qLen)
      ensures !opt ==> cMaxlen == config.paraLimit && qMaxlen == config.quesLimit
      ensures c == SliceCols(batch.c, cMaxlen) && q == SliceCols(batch.q, qMaxlen)
      ensures ch == SliceCols(batch.ch, cMaxlen) && qh == SliceCols(batch.qh, qMaxlen)
      ensures y1 == SliceCols(batch.y1, cMaxlen) && y2 == SliceCols(batch.y2, cMaxlen)
      ensures !opt ==> c == batch.c && q == batch.q && ch == batch.ch && qh == batch.qh
      ensures PaddedBatch(batch) ==> cLen == Lengths(cMask) && qLen == Lengths(qMask)
      ensures yp1 == [] && yp2 == []
    {
      var c, q, ch, qh, y1, y2 := batch.c, batch.q, batch.ch, batch.qh, batch.y1, batch.y2;
      var cMask := Mask(c);
      var qMask := Mask(q);
      var cLen := Lengths(cMask);
      var qLen := Lengths(qMask);
      var cMaxlen: nat, qMaxlen: nat;
      if opt {
        cMaxlen, qMaxlen := MaxLen(cLen), MaxLen(qLen);
        CutBatch(config, batch, cMaxlen, qMaxlen);
        CutCharLengths(config, batch, cMaxlen, qMaxlen);
        c := SliceCols(c, cMaxlen);
        q := SliceCols(q, qMaxlen);
        cMask := SliceCols(cMask, cMaxlen);
        qMask := SliceCols(qMask, qMaxlen);
        ch := SliceCols(ch, cMaxlen);
        qh := SliceCols(qh, qMaxlen);
        y1 := SliceCols(y1, cMaxlen);
        y2 := SliceCols(y2, cMaxlen);
      } else {
        cMaxlen, qMaxlen := config.paraLimit, config.quesLimit;
        CutBatch(config, batch, cMaxlen, qMaxlen);
        CutCharLengths(config, batch, cMaxlen, qMaxlen);
        FullWidthCut(config, batch);
      }
      var chLen := CharLengths(ch);
      var qhLen := CharLengths(qh);
      this.config, this.opt := config, opt;
      this.c, this.q, this.ch, this.qh, this.y1, this.y2 := c, q, ch, qh, y1, y2;
      this.cMask, this.qMask, this.cLen, this.qLen := cMask, qMask, cLen, qLen;
      this.cMaxlen, this.qMaxlen, this.chLen, this.qhLen := cMaxlen, qMaxlen, chLen, qhLen;
      yp1, yp2 := [], [];
    }

    /**
     * The prediction step on the start and end probabilities of every
     * passage (softmax outputs, hence non-negative). It fails, leaving the
     * stored predictions alone, exactly when the working passage width is 0;
     * otherwise every stored (yp1, yp2) is the decoded span of its passage,
     * a valid span with the band width 15 that no other valid span beats.
     */
    method Predict(p1: seq<seq<real>>, p2: seq<seq<real>>) returns (ok: bool)
      requires Valid()
      requires IsMatrix(p1, config.batchSize, cMaxlen) && IsMatrix(p2, config.batchSize, cMaxlen)
      requires forall b :: 0 <= b < config.batchSize ==> NonNegative(p1[b]) && NonNegative(p2[b])
      modifies this`yp1, this`yp2
      ensures Valid()
      ensures ok <==> cMaxlen > 0
      ensures !ok ==> yp1 == old(yp1) && yp2 == old(yp2)
      ensures ok ==> |yp1| == config.batchSize && |yp2| == config.batchSize
      ensures ok ==> forall b :: 0 <= b < config.batchSize ==>
        Decode(p1[b], p2[b], PredictMaxSpan) == Some((yp1[b], yp2[b]))
      ensures ok ==> forall b :: 0 <= b < config.batchSize ==>
        yp1[b] <= yp2[b] <= yp1[b] + PredictMaxSpan && yp2[b] < cMaxlen
      ensures ok ==> forall b :: 0 <= b < config.batchSize ==>
        BestSpan(p1[b], p2[b], PredictMaxSpan, yp1[b], yp2[b])
    {
      var spans := DecodeBatch(p1, p2, cMaxlen, PredictMaxSpan);
      if spans.None? {
        return false;
      }
      forall b | 0 <= b < config.batchSize
        ensures ValidSpan(spans.value[b].0, spans.value[b].1, PredictMaxSpan)
        ensures spans.value[b].1 < cMaxlen
        ensures BestSpan(p1[b], p2[b], PredictMaxSpan, spans.value[b].0, spans.value[b].1)
      {
        DecodedSpanIsOptimal(p1[b], p2[b], PredictMaxSpan);
      }
      yp1 := seq(config.batchSize, b requires 0 <= b < config.batchSize => spans.value[b].0);
      yp2 := seq(config.batchSize, b requires 0 <= b < config.batchSize => spans.value[b].1);
      ok := true;
    }

    /**
     * The question summary gathers row b at position qLen[b] - 1 of the
     * (N, qMaxlen) question encoding; that position is in range exactly
     * when question b has at least one real token.
     */
    lemma QuestionSummaryInRange<T>(encoded: seq<seq<T>>)
      requires Valid()
      requires IsMatrix(encoded, config.batchSize, qMaxlen)
      ensures GatherNd(encoded, qMaxlen, GatherIndices(qLen)).Some? <==>
        forall b :: 0 <= b < config.batchSize ==> qLen[b] >= 1
    {
      QuestionStateDefined(encoded, qMaxlen, qLen);
    }
  }
}
