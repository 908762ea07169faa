# BiDAF discrete core in Dafny

This project models the discrete bookkeeping of the BiDAF reading-comprehension
model in `MRC/BiDAF/model.py` and proves properties of it. The neural parts are
not modelled. Three pieces are covered:

1. **Preprocessing in `BiDAF.__init__`** (`bidaf.dfy`, `masking.dfy`, `tensor.dfy`).
   - The masks of the passage ids `c` and question ids `q`: id 0 is padding.
   - The true lengths `c_len`, `q_len`: the number of non-padding positions in each row.
   - With `opt`, every passage-shaped tensor (`c`, `c_mask`, `ch`, `y1`, `y2`) is cut
     to the longest passage in the batch, and every question-shaped tensor
     (`q`, `q_mask`, `qh`) to the longest question. Without `opt`, the working
     widths are the configured `para_limit` and `ques_limit`.
   - The flattened character lengths `ch_len`, `qh_len`: one entry per token, in
     row-major order.
   - The class `BiDAFModel.BiDAF` holds these tensors as fields. Its constructor
     establishes the invariant `Valid()`.
2. **The question-summary gather** (`question_summary.dfy`). Row `b` of the encoded
   question is read at position `q_len[b] - 1`. That position is in range exactly
   when question `b` is not all padding. For a padded row, it is the last real token.
3. **Span decoding** (`span_decoding.dfy`).
   - The outer product of the start and end probabilities.
   - `tf.matrix_band_part(outer, 0, maxSpan)`, with TensorFlow's general
     semantics: a negative bound leaves that side unbounded.
   - The first arg-max of the row maxima gives the start. The first arg-max of
     the column maxima gives the end.
   - For non-negative probabilities the decoded pair is proved to be a valid span:
     `yp1 <= yp2 < P`, and `yp2 - yp1 <= maxSpan` when `maxSpan >= 0` (a negative
     bound leaves the band unbounded above).
   - It is also proved optimal: no valid span has a larger joint score
     `p1[i] * p2[j]`.
   - The prediction step uses the band width 15 (`SpanDecoding.PredictMaxSpan`).
     The source hard-codes this constant at line 194. Only the prediction step
     fixes the width to 15; every lemma takes it as a parameter.

The source's "reassign `self.c` and friends" is modelled like this:
- The constructor steps through the same computations on local values, in the
  same order: masks, then lengths, then the `opt` branch, then the character
  lengths.
- It assigns the fields once at the end.
- Its contract states the whole resulting state.

## Model

| member | source | states |
|---|---|---|
| Masking.MaskRow | MRC/BiDAF/model.py:22-23 | entry i of the mask is true exactly when id i is not the padding id 0 |
| Masking.Mask | MRC/BiDAF/model.py:22-23 | the batch mask has the shape of the ids; entry (b, i) is true exactly when id (b, i) is non-zero |
| Masking.Count | MRC/BiDAF/model.py:24-25 | a row's length lies between 0 and the row width |
| Masking.Lengths | MRC/BiDAF/model.py:24-25 | one length per batch row, each between 0 and that row's width |
| Masking.CountIsTokenCount | MRC/BiDAF/model.py:24-25 | the length of a row is the number of its non-padding positions |
| Masking.CountConcat | MRC/BiDAF/model.py:24-25 | the length is additive over concatenated rows |
| Masking.CountUniform | MRC/BiDAF/model.py:24-25 | an all-true mask counts its width, an all-false one counts 0 |
| Masking.PaddedRowTokens | MRC/BiDAF/model.py:24-25 | in a padded row, position i holds a real token exactly when i is below the row's length |
| Masking.PaddedLength | MRC/BiDAF/model.py:24-25 | real tokens followed by padding have exactly as many counted positions as real tokens |
| Masking.PassageExampleLength | MRC/BiDAF/model.py:22-25 | the passage [3, 7, 2, 9, 0] has mask [T, T, T, T, F] and length 4 |
| Masking.MaxLen | MRC/BiDAF/model.py:29-30 | the batch maximum bounds every length and is the length of some row |
| Tensor.SliceCols | MRC/BiDAF/model.py:31-38 | tf.slice on axis 1 keeps every row and the first k entries of each, unchanged |
| Tensor.SliceShape | MRC/BiDAF/model.py:35-36 | slicing an (N, L, CL) character tensor to k <= L positions gives an (N, k, CL) tensor |
| Masking.MaskSlice | MRC/BiDAF/model.py:31-34 | slicing the mask gives the mask of the sliced ids, so `c_mask` stays `cast(c, bool)` after truncation |
| Masking.TruncationIsLossless | MRC/BiDAF/model.py:27-38 | for padded rows cut at a width no smaller than any length, only padding is removed and every length is unchanged |
| Tensor.SliceFullWidth | MRC/BiDAF/model.py:39-41 | cutting at the full width is the identity, so the non-`opt` branch is the cut at the configured limits |
| Tensor.FlattenLength | MRC/BiDAF/model.py:43-46 | reshape to [-1] of an (N, w) tensor has N * w entries |
| Tensor.FlattenAt | MRC/BiDAF/model.py:43-46 | entry (b, p) lands at index b * w + p of the flattened tensor |
| Tensor.FlattenLayout | MRC/BiDAF/model.py:43-46 | the row-major layout of reshape [-1], for every (b, p) at once |
| Tensor.Flatten | MRC/BiDAF/model.py:43-46 | reshape to [-1]: every entry of the flattened tensor appears in some row of the original; its length and row-major layout are stated by FlattenLength and FlattenAt |
| Masking.CharLengths | MRC/BiDAF/model.py:43-46 | `ch_len`/`qh_len`: every entry of the flattened per-token character counts is non-negative; its size and entries are stated by CharLengthsLayout |
| Masking.CharLengthsLayout | MRC/BiDAF/model.py:43-46 | `ch_len` has N * L entries; entry n * L + p counts the real characters of token (n, p), at most CL |
| BiDAFModel.CutBatch | MRC/BiDAF/model.py:27-38 | cutting a well-shaped batch to widths within the limits gives tensors of those widths, masks that commute with the cut, and unchanged lengths for padded rows that fit |
| BiDAFModel.CutCharLengths | MRC/BiDAF/model.py:43-46 | the character lengths of the cut batch have N * width entries, one per kept token |
| BiDAFModel.FullWidthCut | MRC/BiDAF/model.py:39-41 | without truncation every tensor of the batch stays as delivered |
| BiDAFModel.BiDAF.constructor | MRC/BiDAF/model.py:22-46 | establishes `Valid()`; lengths count the delivered batch; width is the batch maximum with `opt` and the configured limit otherwise; every tensor is the batch cut to that width; padded batches keep their lengths after the cut |
| QuestionSummary.GatherIndices | MRC/BiDAF/model.py:138-141 | one index pair per batch row: row b, position q_len[b] - 1 |
| QuestionSummary.GatherNd | MRC/BiDAF/model.py:143 | the gather succeeds exactly when every index pair is in range, and then returns the addressed entries in order |
| QuestionSummary.GatherIndexInRange | MRC/BiDAF/model.py:138-143 | with lengths bounded by the width, the index of row b is in range exactly when q_len[b] >= 1; an empty question gives position -1 |
| QuestionSummary.QuestionStateDefined | MRC/BiDAF/model.py:138-143 | `q_state` is defined exactly when no question is all padding, and then row b is the encoding at q_len[b] - 1 |
| QuestionSummary.LastTokenPosition | MRC/BiDAF/model.py:138-143 | for a padded question, the gathered position holds a real token and only padding follows it |
| BiDAFModel.BiDAF.QuestionSummaryInRange | MRC/BiDAF/model.py:138-143 | on the constructed state, the summary gather over an (N, q_maxlen) encoding succeeds exactly when every question has a real token |
| SpanDecoding.Outer | MRC/BiDAF/model.py:192-193 | the outer product is a P x P matrix with entry (i, j) equal to p1[i] * p2[j] |
| SpanDecoding.BandPart | MRC/BiDAF/model.py:194 | matrix_band_part keeps the shape, keeps in-band entries and zeroes the others |
| SpanDecoding.Banded | MRC/BiDAF/model.py:192-194 | the banded joint matrix holds p1[i] * p2[j] for valid spans and 0 elsewhere |
| SpanDecoding.BandedShape | MRC/BiDAF/model.py:192-194 | with non-negative probabilities, the banded matrix is non-negative and zero off the band |
| SpanDecoding.Max | MRC/BiDAF/model.py:195-196 | reduce_max bounds every entry and is attained |
| SpanDecoding.ArgMax | MRC/BiDAF/model.py:195-196 | argmax is in range, holds a largest entry, and every earlier entry is strictly smaller (first index wins ties) |
| SpanDecoding.RowMax | MRC/BiDAF/model.py:195 | reduce_max over axis 2: one maximum per row |
| SpanDecoding.Column | MRC/BiDAF/model.py:196 | column j of a matrix, entry by entry |
| SpanDecoding.ColMax | MRC/BiDAF/model.py:196 | reduce_max over axis 1: one maximum per column |
| SpanDecoding.StartIsFirstTopRow | MRC/BiDAF/model.py:195 | the decoded start is the first row holding the largest entry of the matrix |
| SpanDecoding.TopColumnMax | MRC/BiDAF/model.py:196 | the largest column maximum equals the largest entry of the matrix |
| SpanDecoding.EndIsFirstTopColumn | MRC/BiDAF/model.py:196 | the decoded end is the first column holding the largest entry of the matrix |
| SpanDecoding.FirstTopWitnesses | MRC/BiDAF/model.py:194-196 | for a non-negative matrix zero off the band, the decoded pair is a valid span; when the top is positive it is attained at (start, j1) and (i2, end) with start <= i2 <= end <= j1 |
| SpanDecoding.ValidSpansBelowTop | MRC/BiDAF/model.py:192-195 | no valid span scores more than the largest banded entry |
| SpanDecoding.DecodedSpanReachesTop | MRC/BiDAF/model.py:192-196 | the decoded pair is a valid span and its banded entry is the largest one |
| SpanDecoding.Decode | MRC/BiDAF/model.py:191-196 | the prediction for one passage is undefined exactly when the passage has no positions, and otherwise a pair of in-range positions |
| SpanDecoding.DecodedSpanIsOptimal | MRC/BiDAF/model.py:191-196 | with non-negative probabilities the prediction is defined, yp1 <= yp2 < P, yp2 - yp1 <= maxSpan when maxSpan >= 0, and no valid span has a larger joint score |
| SpanDecoding.DecodeBatch | MRC/BiDAF/model.py:191-196 | the batched prediction is undefined exactly when the passage width is 0, and otherwise decodes every passage independently |
| BiDAFModel.BiDAF.Predict | MRC/BiDAF/model.py:191-196 | fails exactly when `c_maxlen` is 0, leaving yp1/yp2 alone; otherwise stores each passage's decoded span, with yp1 <= yp2 <= yp1 + 15, yp2 < c_maxlen, and the best joint score of any valid span |

## Left out

- The TensorFlow graph and runtime: variables, `global_step`, `is_train` and `qa_id` are left out. So are the embedding matrices and lookups, the GRU encoders, the attention flow, the bilinear attention layer, the pointer network, softmax, dropout, the loss, the optimizer and gradient clipping. Reason: they are floating-point neural computation whose numeric results the model does not reason about.
- BiDAFModel.BiDAF.Predict: takes the start and end probabilities as arguments, required non-negative because they are softmax outputs. The masking of padding positions inside the pointer layer is not modelled. So the model does not show that a padded position is never selected, only that the decoded span lies inside the working width.
- Floating point: probabilities are exact reals. Rounding, NaN and the exact ties that rounding could create are not modelled. The arg-max tie rule (first index) is modelled.
- Integer widths: lengths and indices are unbounded integers. The int32 counts of `reduce_sum` and the int64 output of `argmax` cannot overflow for realistic shapes, so no wrap-around is modelled.
- BiDAFModel.BiDAF.constructor: requires a batch of exactly `batch_size` rows padded to the configured limits, which is what the input pipeline delivers. Without `opt`, the reshapes at MRC/BiDAF/model.py:102-104 need exactly that shape. With `opt`, the source would also accept wider padding or extra rows, which its slices cut silently; the model does not cover those batches. With `opt` it also requires a non-empty batch: `reduce_max` over no lengths yields the smallest int32, and the slice then fails.
- BiDAFModel.BiDAF.constructor: the source updates `self.c` and the other fields in place, in sequence. The model computes the same sequence on local values and assigns the fields once. Nothing reads the fields between those steps, so no behaviour is lost.
- QuestionSummary.GatherNd: an out-of-range index gives None, as on the CPU kernel, which raises an error. The GPU kernel instead returns zeros for such rows; that is not modelled.
- I/O and the input pipeline (`batch.get_next()`) are not modelled. The batch is a constructor argument.
