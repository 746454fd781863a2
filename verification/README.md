# YOLOv3-DL4J detection post-processing, modelled in Dafny

This project models what the YOLOv3-DL4J demo does to a network output
once the forward pass is over:

- `Main.decode` rewrites every scale in place. Width and height channels
  become `exp(v) * anchor / stride`; every other channel becomes
  `sigmoid(v)`.
- `Main.getPredictedObjects` reshapes each scale to
  `[1, 3, BOX_LENGTH, G, G]`, where `G = 2^scale * 13`, and walks every
  column, row and anchor. It keeps every anchor whose confidence is not
  below the threshold, turning it into an integer pixel rectangle with the
  index of its first maximal class score. It then hands the candidates to
  `BoundingBox.nms`.
- `BoundingBox.nms` sorts the candidates by descending confidence with a
  stable sort. It keeps every box that reaches the confidence threshold and
  has not been removed by an earlier kept box. A kept box removes every
  later box whose intersection-over-union with it is strictly above the IoU
  threshold.
- `BoundingBox.getIOU` divides integer areas as doubles, and
  `BoundingBox.compareTo` compares confidences.
- The static initialiser of `Config` fills the 3 x 3 x 2 anchor table from
  the comma-separated `anchors` property, reversing the scale axis.

Modules, in dependency order:

- `Results`: the `Result` type and the error kinds.
- `JavaMath`: the `(int)` cast, which truncates toward zero; `(double) n / d`
  with its infinities and NaN; `Math.pow(2, n)`; the sigmoid.
- `Boxes`: the box datatype, `compareTo`, and intersection, union and IoU.
- `ConfidenceSort`: the stable descending sort and its characterisation.
- `Subsequences`: ordered deletion.
- `Suppression`: `nms` as a function over the sorted list, and the `nms`
  loop itself as a method proved equal to it.
- `Anchors`: the anchor table and its loading loop.
- `Layout`: slot positions, grid size, stride and tensor shapes.
- `ScaleDecoder`: `decode`.
- `Scans`: concatenation over an index range, the shape of the nested
  loops.
- `CandidateExtractor`: `getPredictedObjects`.
- `Pipeline`: `decode` followed by `getPredictedObjects`, as `main` chains
  them.

Java doubles are modelled as exact reals. The only place where their
special values matter is `getIOU`, which can divide by a zero union; that
place is modelled by the `Quotient` datatype. `Math.exp` is a parameter
that is only assumed never to return a negative value.

The corner computation casts with `(int)`, which truncates toward zero. A
floor would differ for negative coordinates. The model follows the code,
and `JavaMath.TruncDiffersFromFloor` shows where the two differ.

## Model

| member | source | states |
|---|---|---|
| JavaMath.Trunc | src/main/java/Main.java:155-156 | the `(int)` cast lands within one unit of its argument on the side of zero, below it for non-negative values and above it for negative ones |
| JavaMath.TruncDiffersFromFloor | src/main/java/Main.java:155-156 | the cast is not a floor: -0.5 becomes 0 where floor gives -1 |
| JavaMath.Divide | src/main/java/BoundingBox.java:42 | `(double) n / d` times `d` gives back `n` when `d` is non-zero; with `d` zero it is NaN exactly when `n` is zero, positive infinity exactly when `n` is positive and negative infinity exactly when `n` is negative |
| JavaMath.Exceeds | src/main/java/BoundingBox.java:55 | definition only, no contract: the double comparison `iou > IOU_THRESHOLD`, false for NaN and negative infinity, true for positive infinity; `Boxes.DegenerateIoUExceedsNothing` and `Suppression.NmsSeparated` state what follows from it |
| JavaMath.Pow2 | src/main/java/Main.java:135 | only a bound: `Math.pow(2, scale)` is at least 1 |
| JavaMath.Sigmoid | src/main/java/Main.java:45-47 | the sigmoid lies in (0, 1] and is the reciprocal of `1 + exp(-x)` |
| Boxes.CompareTo | src/main/java/BoundingBox.java:29-31 | the comparison returns -1, 0 or 1, and its sign agrees with the order of the two confidences in both directions |
| Boxes.ReverseOrder | src/main/java/BoundingBox.java:49 | the reversed comparator ranks `a` first exactly when `a` is more confident, and last exactly when it is less confident |
| Boxes.Overlap | src/main/java/BoundingBox.java:36-39 | the clamped overlap of two intervals is never negative and never longer than either interval of non-negative length |
| Boxes.Intersection | src/main/java/BoundingBox.java:36-40 | the intersection area is non-negative and at most the area of each well-formed box |
| Boxes.Union | src/main/java/BoundingBox.java:41 | for well-formed boxes the union is at least each area and at least the intersection |
| Boxes.IoU | src/main/java/BoundingBox.java:35-43 | with a non-zero union the IoU is finite and times the union gives the intersection; for well-formed boxes with an empty union it is NaN |
| Boxes.IoUSymmetric | src/main/java/BoundingBox.java:35-43 | intersection, union and IoU do not depend on the order of the two boxes |
| Boxes.IoUInUnitInterval | src/main/java/BoundingBox.java:35-43 | well-formed boxes with a non-empty union have a finite IoU in [0, 1] |
| Boxes.DegenerateIoUExceedsNothing | src/main/java/BoundingBox.java:42 | well-formed boxes with an empty union give `0 / 0`, NaN, which exceeds no threshold, so such a box never suppresses another |
| Boxes.SelfIoUIsOne | src/main/java/BoundingBox.java:35-43 | a well-formed box of positive area has IoU exactly 1 with itself |
| ConfidenceSort.Insert | src/main/java/BoundingBox.java:49 | inserting into a sorted list keeps it sorted, is a permutation, and puts the new box ahead of the boxes of equal confidence |
| ConfidenceSort.SortByConfidence | src/main/java/BoundingBox.java:49 | the sort's result has non-increasing confidence, is a permutation of the input, and keeps every equal-confidence group in input order |
| ConfidenceSort.StableOrderUnique | src/main/java/BoundingBox.java:49 | two sorted sequences with the same equal-confidence groups are equal, so a stable sort has only one possible result |
| ConfidenceSort.SortCharacterized | src/main/java/BoundingBox.java:49 | any sorted rearrangement that keeps every group in input order is exactly the sort's result, so merge sort and the modelled insertion sort agree |
| ConfidenceSort.SortOfSortedIsIdentity | src/main/java/BoundingBox.java:49 | sorting an already sorted list changes nothing |
| ConfidenceSort.SortPair | src/main/java/BoundingBox.java:49 | two boxes are swapped exactly when the second is strictly more confident; on a tie they keep their order |
| ConfidenceSort.HeadIsMostConfident | src/main/java/BoundingBox.java:49 | the first box of a sorted list is at least as confident as every box in it |
| Suppression.Survivors | src/main/java/BoundingBox.java:53-59 | only a length bound: the inner loop never lengthens the rest of the list; `Suppression.SurvivorsSelect` states which boxes stay |
| Suppression.SurvivorsSelect | src/main/java/BoundingBox.java:53-59 | after the inner loop, the rest of the list is an ordered subsequence, and a box stays exactly when the kept box does not suppress it |
| Suppression.Greedy | src/main/java/BoundingBox.java:50-60 | definition only, no contract: the outer loop over the sorted list; `Suppression.GreedySelects`, `GreedySeparated`, `GreedyCovers` and `GreedyFixpoint` characterise it |
| Suppression.GreedySelects | src/main/java/BoundingBox.java:50-60 | the outer loop only deletes boxes, and every box it keeps reaches the confidence threshold |
| Suppression.GreedySeparated | src/main/java/BoundingBox.java:50-60 | no two kept boxes have an IoU strictly above the threshold |
| Suppression.GreedyCovers | src/main/java/BoundingBox.java:50-60 | on a list sorted by descending confidence, every confident box that is not kept has an IoU above the threshold with some kept box at least as confident as itself |
| Suppression.GreedyFixpoint | src/main/java/BoundingBox.java:50-60 | on a list of confident, pairwise separated boxes the loop removes nothing |
| Suppression.Nms | src/main/java/BoundingBox.java:47-62 | definition only, no contract: the greedy scan over the stable sort; the `Suppression.Nms…` lemmas below state its properties and `Suppression.Suppress` ties it to the loop as written |
| Suppression.NmsSelects | src/main/java/BoundingBox.java:47-62 | `nms` returns an ordered selection of the sorted candidates that is no longer than the input and holds only input boxes that reach the confidence threshold |
| Suppression.NmsSorted | src/main/java/BoundingBox.java:47-62 | the result of `nms` is in non-increasing confidence order |
| Suppression.NmsSeparated | src/main/java/BoundingBox.java:47-62 | no two results of `nms` overlap by more than the IoU threshold |
| Suppression.NmsCovers | src/main/java/BoundingBox.java:47-62 | every confident candidate is either kept or suppressed by a kept box at least as confident as itself |
| Suppression.NmsKeepsMostConfident | src/main/java/BoundingBox.java:47-62 | if any candidate is confident enough, the result is non-empty and starts with the most confident candidate |
| Suppression.NmsIdempotent | src/main/java/BoundingBox.java:47-62 | running `nms` on its own result returns that result unchanged |
| Suppression.NmsSingleCandidate | src/main/java/BoundingBox.java:47-62 | a single candidate survives exactly when it reaches the confidence threshold |
| Suppression.IdenticalRectanglesKeepMoreConfident | src/main/java/BoundingBox.java:47-62 | of two identical rectangles with confidences 0.7 and 0.9, only the 0.9 box survives, whatever their input order |
| Suppression.ChainKeepsMiddleBox | src/main/java/BoundingBox.java:47-62 | boxes at 0.9, 0.8 and 0.7 where only the last two overlap (IoU 1/3 at threshold 0.3): the result is the 0.9 and 0.8 boxes, so the dropped 0.7 box is covered by the more confident 0.8 box and never kept in its place |
| Suppression.ApartNeverSuppresses | src/main/java/BoundingBox.java:35-55 | a box that ends horizontally before another starts has zero intersection with it and never suppresses it at a non-negative threshold |
| Suppression.IoUAtThresholdKeepsBoth | src/main/java/BoundingBox.java:55 | an IoU of exactly 0.5 at threshold 0.5 suppresses nothing, because the test is strict |
| Suppression.Suppress | src/main/java/BoundingBox.java:47-62 | the index-walking loop with `remove(j)` and `--j` returns exactly the greedy selection over the stably sorted list |
| Suppression.RemoveSuppressed | src/main/java/BoundingBox.java:53-59 | the inner loop leaves the prefix up to `i` alone and replaces the rest with the boxes the kept box does not suppress |
| Anchors.FlatIndexBijection | src/main/java/Config.java:68-69 | the read position `2*i*3 + 2*j + k` maps the 3 x 3 x 2 cells one-to-one onto 0..17, with an explicit inverse |
| Anchors.FlatIndex | src/main/java/Config.java:69 | only a bound: the read position of every table cell lies in 0..17; `Anchors.FlatIndexBijection` states that the positions are distinct and cover 0..17 |
| Anchors.FlatIndexInjective | src/main/java/Config.java:68-69 | distinct table cells read distinct property values |
| Anchors.AnchorTableOf | src/main/java/Config.java:63-73 | the filled table always has shape 3 x 3 x 2 |
| Anchors.ScaleAxisReversed | src/main/java/Config.java:65-69 | authored group `i` lands at scale `2 - i`: values 12..17 form scale 0 and values 0..5 form scale 2, with anchor and (width, height) order kept |
| Anchors.LaterValuesIgnored | src/main/java/Config.java:64-69 | values after the eighteenth never reach the table |
| Anchors.DefaultAnchors | src/main/java/Config.java:63-73 | the standard nine YOLOv3 anchors give the largest three to scale 0 and the smallest three to scale 2 |
| Anchors.LoadAnchors | src/main/java/Config.java:63-73 | the loop succeeds exactly when at least 18 values are present, then yields the reversed table; otherwise it fails with a missing value |
| Layout.GridTimesStride | src/main/java/Main.java:135 | for every scale the grid size of line 135 times the stride `32 / 2^scale` of Main.java line 92 is the 416-pixel input |
| Layout.FirstThreeGrids | src/main/java/Main.java:135 | the three scales have grids of 13, 26 and 52 cells (line 135) and strides of 32, 16 and 8 (Main.java line 92) |
| Layout.GridSize | src/main/java/Main.java:135 | only a shape: the grid has at least 13 cells per row, a whole number of 13-cell blocks |
| Layout.Stride | src/main/java/Main.java:92 | the stride is positive and `2^scale` strides make 32 pixels |
| ScaleDecoder.HeightFlag | src/main/java/Main.java:85 | definition only, no contract: `isHeight`, 0 in the width slot and 1 elsewhere; `ScaleDecoder.ExtentChannelRule` states its role |
| ScaleDecoder.IsExtentChannel | src/main/java/Main.java:90 | definition only, no contract: the test `i == WIDTH_POS + isHeight + box * BOX_LENGTH`; `ScaleDecoder.ExtentChannelRule` states exactly when it holds |
| ScaleDecoder.ExtentChannelRule | src/main/java/Main.java:84-90 | channel `i` is decoded as an extent exactly when `i % BOX_LENGTH` is the width or height slot, and then `isHeight` selects the right anchor dimension |
| ScaleDecoder.DecodeElement | src/main/java/Main.java:84-97 | decoding one value fails exactly when it is an extent channel whose anchor lookup `ANCHORS[scale][i / BOX_LENGTH]` is out of bounds, and the failure is that lookup |
| ScaleDecoder.DecodeElementValue | src/main/java/Main.java:90-96 | a width becomes `exp(v) * anchor width / stride`, a height becomes `exp(v) * anchor height / stride`, and every other channel becomes the sigmoid, in (0, 1] |
| ScaleDecoder.WellShapedDepthDecodable | src/main/java/Main.java:81-92 | a scale below 3 with `3 * BOX_LENGTH` channels never looks up an anchor out of bounds |
| ScaleDecoder.DecodeCell | src/main/java/Main.java:81-100 | the channel loop over one cell fails exactly when some channel's lookup is out of bounds; otherwise every channel holds its decoded value |
| ScaleDecoder.DecodeScale | src/main/java/Main.java:78-102 | the grid loops over one scale fail exactly when the scale has a cell and its depth reaches a bad lookup; otherwise the shape is kept and every element is decoded |
| ScaleDecoder.Decode | src/main/java/Main.java:74-106 | decoding fails exactly when some scale fails; otherwise every scale is replaced by its decoded version |
| ScaleDecoder.WellShapedOutputsDecode | src/main/java/Main.java:74-106 | at most three scales of depth `3 * BOX_LENGTH` always decode |
| ScaleDecoder.DecodedValueRange | src/main/java/Main.java:90-97 | with non-negative anchors a decoded value is non-negative, and a non-extent value is at most 1 |
| ScaleDecoder.DecodedNonNegative | src/main/java/Main.java:74-106 | with non-negative anchors every element of a decoded scale is non-negative |
| CandidateExtractor.ClassScores | src/main/java/Main.java:158-160 | the class slice has one score per class, read from slot `CLASSES_POS + c` of the anchor |
| CandidateExtractor.Read | src/main/java/Main.java:137-145 | definition only, no contract: `reshapedOutput.getDouble(0, box, slot, y, x)` after `permute(0, 3, 1, 2)` and the reshape, which is channel `box * BOX_LENGTH + slot` of cell `(y, x)` |
| CandidateExtractor.Selected | src/main/java/Main.java:147 | definition only, no contract: `!(confidence < CONFIDENCE_THRESHOLD)`; `CandidateExtractor.ScaleCandidatesExactly` states that exactly the selected anchors yield candidates |
| CandidateExtractor.Span | src/main/java/Main.java:155-156 | definition only, no contract: the two truncated corners on one axis; `CandidateExtractor.SpanOrdered` states that they are ordered |
| CandidateExtractor.ArgMax | src/main/java/Main.java:161 | `argMax` returns the first position of the largest score, and no other position qualifies |
| CandidateExtractor.SpanOrdered | src/main/java/Main.java:155-156 | with a non-negative extent and scale, the first corner is never past the second, even after truncation |
| CandidateExtractor.CellPixels | src/main/java/Main.java:154 | the pixels-per-cell factor is never negative |
| CandidateExtractor.Candidate | src/main/java/Main.java:145-163 | a candidate carries the anchor's confidence and the index of the first maximal class score, which lies inside the class range |
| CandidateExtractor.CellCandidatesMembers | src/main/java/Main.java:143-165 | the anchor loop at one cell yields exactly the candidates of its selected anchors, at most three |
| CandidateExtractor.ColumnCandidatesMembers | src/main/java/Main.java:141-166 | the row loop of one column yields exactly the candidates of its selected (row, anchor) pairs, at most `3 * G` |
| CandidateExtractor.ScaleCandidatesExactly | src/main/java/Main.java:140-167 | one scale yields exactly the candidates of its selected (column, row, anchor) triples, at most `3 * G * G` |
| CandidateExtractor.ScaleCandidates | src/main/java/Main.java:140-167 | definition only, no contract: the three nested loops of one scale in scan order; `CandidateExtractor.ScaleCandidatesExactly` states what they yield |
| CandidateExtractor.Collect | src/main/java/Main.java:133-168 | definition only, no contract: the candidates of all scales in scale order; `CandidateExtractor.CollectedFromScales` and `CandidateExtractor.CollectBound` state what it holds |
| CandidateExtractor.CollectBound | src/main/java/Main.java:133-143 | the candidate list of scales `s ..` is no longer than the sum over those scales of `3 * G * G`, one per anchor of every cell |
| CandidateExtractor.ScaleCandidatesConfident | src/main/java/Main.java:145-147 | every candidate is at least as confident as the threshold and names a class in range |
| CandidateExtractor.CandidateExtents | src/main/java/Main.java:149-156 | a non-negative decoded width or height gives a box with non-negative width or height |
| CandidateExtractor.CenterCellScenario | src/main/java/Main.java:145-163 | on a 416 x 416 picture, cell (6, 6) of the 13 x 13 grid with a unit-extent box centred in it becomes the 32-pixel box at (192, 192), confidence 0.9, class 0 |
| CandidateExtractor.Candidates | src/main/java/Main.java:133-168 | collecting fails exactly when some scale's shape differs from what the reshape expects, and the failure is a shape mismatch |
| CandidateExtractor.CollectedFromScales | src/main/java/Main.java:133-168 | every collected candidate comes from a selected anchor of some scale, reaches the confidence threshold and names a class in range |
| CandidateExtractor.GetPredictedObjects | src/main/java/Main.java:129-172 | the method fails exactly on a shape mismatch; otherwise it returns `nms` of the candidates of all scales in scan order, at most `3 * G * G` summed over the scales |
| Pipeline.DecodedKeepsShape | src/main/java/Main.java:99 | decoding writes values in place, so a decoded scale has the reshape's shape exactly when the raw one does |
| Pipeline.DecodedCandidatesWellFormed | src/main/java/Main.java:149-156 | with non-negative anchors every candidate collected from decoded scales has non-negative width and height |
| Pipeline.DetectObjects | src/main/java/Main.java:183-187 | `decode` then `getPredictedObjects`: an anchor lookup error exactly when a scale fails to decode; otherwise a shape error exactly when a scale has the wrong shape; the usual three-scale output always succeeds; a result is `nms` of the candidates of the decoded scales, so it is sorted, pairwise separated, confident, in class range and bounded by the grid capacity, and well formed when the anchors are non-negative |

## Left out

- The batch axis is dropped: `decode` rewrites batch 0 only (`position = {0, x, y, i}` at Main.java line 83), and the reshape to a leading axis of 1 (Main.java lines 137-138) throws for a larger batch. `Layout.Tensor` holds one image, so that failure is not represented.
- Image and model I/O are not modelled: `loadInput`, `loadModel`, `drawDetectedObjects`, `main`'s image path and the OpenCV/HighGui calls. The picture enters only through its width and height.
- Reading `config.properties` and the class-name file is not modelled. The class count, both thresholds and the split-and-parsed anchor values are parameters. A property that is not an integer (`NumberFormatException`) is not modelled.
- Floating point is modelled as exact real arithmetic. Rounding, overflow to infinity in `Math.exp`, and NaN inputs from the network are out of scope. Only the IoU division models infinities and NaN.
- `Math.exp` is a parameter, constrained only to be non-negative. Its actual values are left to the caller.
- Java `int` overflow is not modelled. This covers the area products in `getIOU` and the saturation of the `(int)` cast beyond the int range: integers are unbounded.
- ND4J's `reshape` only checks that the element count matches. The model demands the exact `G x G x 3*BOX_LENGTH` shape, so a tensor with the right count but a different layout is a shape error here.
- Java fails at the reshape of the first bad scale, after collecting earlier scales. The model checks all shapes first. The outcome is the same, because the exception discards the partial list.
- `decode` permutes the axes of each scale after decoding it. The model keeps one `t[row][column][channel]` tensor and folds the permute and the reshape into `CandidateExtractor.Read`.
- The reshape uses `ANCHORS.length`, the number of scales, as its anchor axis. It is the same constant 3 as the anchors per scale, so the model does not distinguish them.
- `Rect(Point, Point)` is an OpenCV constructor whose body is not part of this model. It is modelled as `(x1, y1, x2 - x1, y2 - y1)`, so corners in reverse order give a negative width rather than OpenCV's normalised rectangle.
- `Layout.ValidConfig` requires at least one class. With an empty class list `argMax` over an empty slice is ND4J behaviour that this model does not capture.
- When `decode` fails midway, Java has already overwritten earlier elements in place. The model returns only the error, not the partly decoded tensors.
- `Double.compare`'s treatment of NaN and of -0.0 against 0.0 is not modelled, because confidences are reals.
