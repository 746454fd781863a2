/** The shared layout facts of `Main`: the slot positions inside one
    anchor's block of channels, the per-scale grid and stride, the tensor
    shape and the configuration the core reads. */
module Layout {
  import opened JavaMath
  import opened Anchors

  const XPos: nat := 0
  const YPos: nat := 1
  const WidthPos: nat := 2
  const HeightPos: nat := 3
  const ConfidencePos: nat := 4
  const ClassesPos: nat := 5

  /** `BOX_LENGTH`: the class scores plus (x, y, w, h, confidence). */
  function BoxLength(classCount: nat): nat {
    classCount + ClassesPos
  }

  /** The configuration the post-processing reads: the number of class
      names, the two thresholds and the anchor table. */
  datatype DetectionConfig = DetectionConfig(
    classCount: nat,
    confidenceThreshold: real,
    iouThreshold: real,
    anchors: AnchorTable)

  /** The class-index lookup needs at least one class, and the anchor table
      has its fixed 3 x 3 x 2 shape. */
  predicate ValidConfig(cfg: DetectionConfig) {
    cfg.classCount >= 1 && IsAnchorTable(cfg.anchors)
  }

  /** One scale's output with the batch axis dropped: `t[row][column][channel]`. */
  type Tensor = seq<seq<seq<real>>>

  predicate IsBlock(t: Tensor, rows: nat, cols: nat, depth: nat) {
    && |t| == rows
    && (forall y :: 0 <= y < rows ==> |t[y]| == cols)
    && (forall y, x :: 0 <= y < rows && 0 <= x < cols ==> |t[y][x]| == depth)
  }

  function Cols(t: Tensor): nat {
    if |t| == 0 then 0 else |t[0]|
  }

  function Depth(t: Tensor): nat {
    if Cols(t) == 0 then 0 else |t[0][0]|
  }

  /** A dense array: every row has the same width and every cell the same
      depth. */
  predicate Rectangular(t: Tensor) {
    IsBlock(t, |t|, Cols(t), Depth(t))
  }

  /** The tensor has at least one cell, so its elements are visited. */
  predicate HasCell(t: Tensor) {
    |t| > 0 && Cols(t) > 0
  }

  /** Channel `anchor * BOX_LENGTH + slot` of a cell holds slot `slot` of
      anchor `anchor`: the channel of an existing (anchor, slot) pair lies
      inside the cell, and every channel of the cell belongs to one of its
      three anchors. */
  lemma ChannelBound(anchor: nat, slot: nat, boxLength: nat)
    requires anchor < AnchorsPerScale && slot < boxLength
    ensures anchor * boxLength + slot < AnchorsPerScale * boxLength
  {
    MultipleBounds(AnchorsPerScale - 1 - anchor, boxLength);
  }

  lemma ChannelAnchor(i: nat, boxLength: nat)
    requires i < AnchorsPerScale * boxLength
    ensures i / boxLength < AnchorsPerScale
  {
    var q, r := i / boxLength, i % boxLength;
    assert i == q * boxLength + r;
    MultipleBounds(q - (AnchorsPerScale - 1), boxLength);
  }

  lemma MultipleBounds(k: int, b: nat)
    ensures k >= 1 ==> k * b >= b
    ensures k <= -1 ==> k * b + b <= 0
    ensures k >= 0 ==> k * b >= 0
  {
  }

  /** `GRID_CELLS_PER_ROW = (int) Math.pow(2, scale) * 13`: a whole number
      of 13-cell blocks. */
  function GridSize(scale: nat): (g: nat)
    ensures g >= 13 && g % 13 == 0
  {
    Pow2(scale) * 13
  }

  /** `32 / Math.pow(2, scale)`, the pixel stride of one grid cell: the
      positive value that `2^scale` cells of it make 32 pixels. */
  function Stride(scale: nat): (st: real)
    ensures st > 0.0
    ensures st * Pow2(scale) as real == 32.0
  {
    RealDivMul(32.0, Pow2(scale) as real);
    32.0 / Pow2(scale) as real
  }

  lemma RealDivMul(a: real, p: real)
    requires p > 0.0
    ensures a / p * p == a
  {
  }

  lemma ThirteenCells(p: real, stride: real)
    requires stride * p == 32.0
    ensures (13.0 * p) * stride == 416.0
  {
  }

  /** Grid size and stride agree on the 416-pixel reference input: 13 cells
      of 32 pixels, 26 of 16, 52 of 8. */
  lemma GridTimesStride(scale: nat)
    ensures Stride(scale) > 0.0
    ensures GridSize(scale) as real * Stride(scale) == 416.0
  {
    var n := Pow2(scale);
    assert GridSize(scale) as real == 13.0 * (n as real);
    ThirteenCells(n as real, Stride(scale));
  }

  lemma FirstThreeGrids()
    ensures GridSize(0) == 13 && GridSize(1) == 26 && GridSize(2) == 52
    ensures Stride(0) == 32.0 && Stride(1) == 16.0 && Stride(2) == 8.0
  {
    assert Pow2(1) == 2 && Pow2(2) == 4;
  }
}
