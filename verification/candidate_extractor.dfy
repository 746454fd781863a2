/** `Main.getPredictedObjects`: walk every scale, grid column, grid row and
    anchor of the decoded output, keep the anchors whose confidence is not
    below the threshold, turn each into a pixel rectangle with a predicted
    class, and hand the candidates to non-maximum suppression. */
module CandidateExtractor {
  import opened Results
  import opened JavaMath
  import opened Boxes
  import opened Anchors
  import opened Layout
  import opened Suppression
  import opened Scans

  /** `img.width()` and `img.height()` of the original picture. */
  datatype ImageSize = ImageSize(width: nat, height: nat)

  /** The decoded tensor of one scale has exactly the shape the reshape to
      `[1, ANCHORS.length, BOX_LENGTH, G, G]` reads it as. */
  predicate ShapeMatches(t: Tensor, scale: nat, boxLength: nat) {
    IsBlock(t, GridSize(scale), GridSize(scale), ScaleCount * boxLength)
  }

  /** The inputs under which every accessor below is defined. */
  predicate ScanDomain(t: Tensor, cfg: DetectionConfig, scale: nat) {
    ValidConfig(cfg) && ShapeMatches(t, scale, BoxLength(cfg.classCount))
  }

  predicate InGrid(scale: nat, x: nat, y: nat, anchor: nat) {
    x < GridSize(scale) && y < GridSize(scale) && anchor < ScaleCount
  }

  /** `reshapedOutput.getDouble(0, anchor, slot, y, x)`: after the permute
      and the reshape, channel `anchor * BOX_LENGTH + slot` of cell `(y, x)`. */
  function Read(t: Tensor, cfg: DetectionConfig, scale: nat, anchor: nat, slot: nat, y: nat, x: nat): real
    requires ScanDomain(t, cfg, scale) && InGrid(scale, x, y, anchor)
    requires slot < BoxLength(cfg.classCount)
  {
    ChannelBound(anchor, slot, BoxLength(cfg.classCount));
    t[y][x][anchor * BoxLength(cfg.classCount) + slot]
  }

  /** The `interval(CLASSES_POS, BOX_LENGTH)` slice of one anchor. */
  function ClassScores(t: Tensor, cfg: DetectionConfig, scale: nat, anchor: nat, y: nat, x: nat): (s: seq<real>)
    requires ScanDomain(t, cfg, scale) && InGrid(scale, x, y, anchor)
    ensures |s| == cfg.classCount
    ensures forall c :: 0 <= c < |s| ==> s[c] == Read(t, cfg, scale, anchor, ClassesPos + c, y, x)
  {
    var bl := BoxLength(cfg.classCount);
    ChannelBound(anchor, bl - 1, bl);
    t[y][x][anchor * bl + ClassesPos .. anchor * bl + bl]
  }

  /** `k` is where the largest element first occurs. */
  predicate IsFirstMaximum(s: seq<real>, k: int) {
    && 0 <= k < |s|
    && (forall j :: 0 <= j < |s| ==> s[j] <= s[k])
    && (forall j :: 0 <= j < k ==> s[j] < s[k])
  }

  /** `argMax()`: the index of the first largest score. */
  function ArgMax(s: seq<real>): (k: nat)
    requires |s| > 0
    ensures IsFirstMaximum(s, k)
    ensures forall j :: IsFirstMaximum(s, j) ==> j == k
  {
    if |s| == 1 then 0
    else
      var k := ArgMax(s[..|s| - 1]);
      if s[|s| - 1] > s[k] then |s| - 1 else k
  }

  /** `!(confidence < CONFIDENCE_THRESHOLD)`: the anchor becomes a candidate. */
  predicate Selected(t: Tensor, cfg: DetectionConfig, scale: nat, x: nat, y: nat, anchor: nat)
    requires ScanDomain(t, cfg, scale) && InGrid(scale, x, y, anchor)
  {
    !(Read(t, cfg, scale, anchor, ConfidencePos, y, x) < cfg.confidenceThreshold)
  }

  /** The two corners `(int) ((p - extent / 2) * factor)` and
      `(int) ((p + extent / 2) * factor)` along one axis. */
  function Span(p: real, extent: real, factor: real): (int, int) {
    (Trunc((p - extent / 2.0) * factor), Trunc((p + extent / 2.0) * factor))
  }

  /** A non-negative extent on a non-negative scale never puts the first
      corner after the second. */
  lemma SpanOrdered(p: real, extent: real, factor: real)
    requires extent >= 0.0 && factor >= 0.0
    ensures Span(p, extent, factor).0 <= Span(p, extent, factor).1
  {
    MulRight(p - extent / 2.0, p + extent / 2.0, factor);
    TruncMonotone((p - extent / 2.0) * factor, (p + extent / 2.0) * factor);
  }

  /** `(double) img.width() / GRID_CELLS_PER_ROW`: pixels per grid cell. */
  function CellPixels(pixels: nat, scale: nat): (f: real)
    ensures f >= 0.0
  {
    pixels as real / GridSize(scale) as real
  }

  /** The candidate box built for one anchor: the centre `(tx + x, ty + y)`
      and extent `(pw, ph)` in grid units are scaled to pixels and each
      corner is cast to `int`, which truncates toward zero. */
  function Candidate(t: Tensor, cfg: DetectionConfig, image: ImageSize, scale: nat, x: nat, y: nat, anchor: nat): (b: Box)
    requires ScanDomain(t, cfg, scale) && InGrid(scale, x, y, anchor)
    ensures b.confidence == Read(t, cfg, scale, anchor, ConfidencePos, y, x)
    ensures 0 <= b.predictedClass < cfg.classCount
    ensures IsFirstMaximum(ClassScores(t, cfg, scale, anchor, y, x), b.predictedClass)
  {
    var xs := Span(Read(t, cfg, scale, anchor, XPos, y, x) + x as real,
                   Read(t, cfg, scale, anchor, WidthPos, y, x), CellPixels(image.width, scale));
    var ys := Span(Read(t, cfg, scale, anchor, YPos, y, x) + y as real,
                   Read(t, cfg, scale, anchor, HeightPos, y, x), CellPixels(image.height, scale));
    Box(xs.0, ys.0, xs.1 - xs.0, ys.1 - ys.0, Read(t, cfg, scale, anchor, ConfidencePos, y, x),
        ArgMax(ClassScores(t, cfg, scale, anchor, y, x)))
  }

  /** One pass of the innermost `box` loop: the candidate of `anchor` at
      cell `(x, y)` if it is selected. */
  function AnchorCandidates(t: Tensor, cfg: DetectionConfig, image: ImageSize, scale: nat, x: nat, y: nat, anchor: nat): seq<Box>
    requires ScanDomain(t, cfg, scale) && InGrid(scale, x, y, anchor)
  {
    if Selected(t, cfg, scale, x, y, anchor) then [Candidate(t, cfg, image, scale, x, y, anchor)] else []
  }

  /** The body of the `box` loop at cell `(x, y)`, as a function of `box`. */
  function AnchorPass(t: Tensor, cfg: DetectionConfig, image: ImageSize, scale: nat, x: nat, y: nat): nat -> seq<Box>
    requires ScanDomain(t, cfg, scale) && InGrid(scale, x, y, 0)
  {
    (a: nat) => if a < ScaleCount then AnchorCandidates(t, cfg, image, scale, x, y, a) else []
  }

  /** The `box` loop at cell `(x, y)`. */
  function CellCandidates(t: Tensor, cfg: DetectionConfig, image: ImageSize, scale: nat, x: nat, y: nat): seq<Box>
    requires ScanDomain(t, cfg, scale) && InGrid(scale, x, y, 0)
  {
    Concat(AnchorPass(t, cfg, image, scale, x, y), 0, ScaleCount)
  }

  /** The body of the `y` loop of column `x`, as a function of `y`. */
  function RowPass(t: Tensor, cfg: DetectionConfig, image: ImageSize, scale: nat, x: nat): nat -> seq<Box>
    requires ScanDomain(t, cfg, scale) && x < GridSize(scale)
  {
    (y: nat) => if y < GridSize(scale) then CellCandidates(t, cfg, image, scale, x, y) else []
  }

  /** The `y` loop of column `x`. */
  function ColumnCandidates(t: Tensor, cfg: DetectionConfig, image: ImageSize, scale: nat, x: nat): seq<Box>
    requires ScanDomain(t, cfg, scale) && x < GridSize(scale)
  {
    Concat(RowPass(t, cfg, image, scale, x), 0, GridSize(scale))
  }

  /** The body of the `x` loop, as a function of `x`. */
  function ColumnPass(t: Tensor, cfg: DetectionConfig, image: ImageSize, scale: nat): nat -> seq<Box>
    requires ScanDomain(t, cfg, scale)
  {
    (x: nat) => if x < GridSize(scale) then ColumnCandidates(t, cfg, image, scale, x) else []
  }

  /** Every candidate of one scale, in the order the `x`, `y` and `box`
      loops append them. */
  function ScaleCandidates(t: Tensor, cfg: DetectionConfig, image: ImageSize, scale: nat): seq<Box>
    requires ScanDomain(t, cfg, scale)
  {
    Concat(ColumnPass(t, cfg, image, scale), 0, GridSize(scale))
  }

  /** Box `b` is the candidate of the selected anchor `anchor` at cell
      `(x, y)`. */
  predicate Produces(t: Tensor, cfg: DetectionConfig, image: ImageSize, scale: nat, b: Box, x: nat, y: nat, anchor: nat)
    requires ScanDomain(t, cfg, scale)
  {
    InGrid(scale, x, y, anchor) && Selected(t, cfg, scale, x, y, anchor) && b == Candidate(t, cfg, image, scale, x, y, anchor)
  }

  /** One anchor yields its own candidate exactly when it is selected. */
  lemma AnchorCandidatesMembers(t: Tensor, cfg: DetectionConfig, image: ImageSize, scale: nat, x: nat, y: nat, anchor: nat)
    requires ScanDomain(t, cfg, scale) && InGrid(scale, x, y, anchor)
    ensures forall b :: b in AnchorCandidates(t, cfg, image, scale, x, y, anchor) <==> Produces(t, cfg, image, scale, b, x, y, anchor)
  {
  }

  /** The anchors produced at one cell are exactly the selected ones. */
  lemma CellCandidatesMembers(t: Tensor, cfg: DetectionConfig, image: ImageSize, scale: nat, x: nat, y: nat)
    requires ScanDomain(t, cfg, scale) && InGrid(scale, x, y, 0)
    ensures forall b :: b in CellCandidates(t, cfg, image, scale, x, y) <==>
      exists a: nat :: Produces(t, cfg, image, scale, b, x, y, a)
    ensures |CellCandidates(t, cfg, image, scale, x, y)| <= ScaleCount
  {
    var f := AnchorPass(t, cfg, image, scale, x, y);
    ConcatMembers(f, 0, ScaleCount);
    ConcatLength(f, 0, ScaleCount, 1);
    forall a: nat | a < ScaleCount
      ensures forall b :: b in f(a) <==> Produces(t, cfg, image, scale, b, x, y, a)
    {
      AnchorCandidatesMembers(t, cfg, image, scale, x, y, a);
    }
    forall b | b in CellCandidates(t, cfg, image, scale, x, y)
      ensures exists a: nat :: Produces(t, cfg, image, scale, b, x, y, a)
    {
      var a: nat :| a < ScaleCount && b in f(a);
    }
    forall b, a: nat | Produces(t, cfg, image, scale, b, x, y, a)
      ensures b in CellCandidates(t, cfg, image, scale, x, y)
    {
      assert b in f(a);
    }
  }

  /** Column `x` yields one candidate per selected (row, anchor) of it. */
  lemma ColumnCandidatesMembers(t: Tensor, cfg: DetectionConfig, image: ImageSize, scale: nat, x: nat)
    requires ScanDomain(t, cfg, scale) && x < GridSize(scale)
    ensures forall b :: b in ColumnCandidates(t, cfg, image, scale, x) <==>
      exists y: nat, a: nat :: Produces(t, cfg, image, scale, b, x, y, a)
    ensures |ColumnCandidates(t, cfg, image, scale, x)| <= ScaleCount * GridSize(scale)
  {
    var g := GridSize(scale);
    var rows := RowPass(t, cfg, image, scale, x);
    ConcatMembers(rows, 0, g);
    forall y: nat | y < g
      ensures |rows(y)| <= ScaleCount
    {
      CellCandidatesMembers(t, cfg, image, scale, x, y);
    }
    ConcatLength(rows, 0, g, ScaleCount);
    forall b | b in ColumnCandidates(t, cfg, image, scale, x)
      ensures exists y: nat, a: nat :: Produces(t, cfg, image, scale, b, x, y, a)
    {
      var y: nat :| y < g && b in rows(y);
      CellCandidatesMembers(t, cfg, image, scale, x, y);
      var a: nat :| Produces(t, cfg, image, scale, b, x, y, a);
    }
    forall b, y: nat, a: nat | Produces(t, cfg, image, scale, b, x, y, a)
      ensures b in ColumnCandidates(t, cfg, image, scale, x)
    {
      CellCandidatesMembers(t, cfg, image, scale, x, y);
      assert b in rows(y);
    }
  }

  /** One scale yields exactly one candidate per selected (column, row,
      anchor), so at most `3 * G * G` of them. */
  lemma ScaleCandidatesExactly(t: Tensor, cfg: DetectionConfig, image: ImageSize, scale: nat)
    requires ScanDomain(t, cfg, scale)
    ensures forall b :: b in ScaleCandidates(t, cfg, image, scale) <==>
      exists x: nat, y: nat, a: nat :: Produces(t, cfg, image, scale, b, x, y, a)
    ensures |ScaleCandidates(t, cfg, image, scale)| <= ScaleCount * GridSize(scale) * GridSize(scale)
  {
    var g := GridSize(scale);
    var columns := ColumnPass(t, cfg, image, scale);
    ConcatMembers(columns, 0, g);
    forall x: nat | x < g
      ensures |columns(x)| <= ScaleCount * g
    {
      ColumnCandidatesMembers(t, cfg, image, scale, x);
    }
    ConcatLength(columns, 0, g, ScaleCount * g);
    forall b | b in ScaleCandidates(t, cfg, image, scale)
      ensures exists x: nat, y: nat, a: nat :: Produces(t, cfg, image, scale, b, x, y, a)
    {
      var x: nat :| x < g && b in columns(x);
      ColumnCandidatesMembers(t, cfg, image, scale, x);
      var y: nat, a: nat :| Produces(t, cfg, image, scale, b, x, y, a);
    }
    forall b, x: nat, y: nat, a: nat | Produces(t, cfg, image, scale, b, x, y, a)
      ensures b in ScaleCandidates(t, cfg, image, scale)
    {
      ColumnCandidatesMembers(t, cfg, image, scale, x);
      assert b in columns(x);
    }
  }

  /** Every candidate clears the confidence threshold and names a class. */
  lemma ScaleCandidatesConfident(t: Tensor, cfg: DetectionConfig, image: ImageSize, scale: nat)
    requires ScanDomain(t, cfg, scale)
    ensures forall b :: b in ScaleCandidates(t, cfg, image, scale) ==>
      b.confidence >= cfg.confidenceThreshold && 0 <= b.predictedClass < cfg.classCount
  {
    ScaleCandidatesExactly(t, cfg, image, scale);
  }

  lemma MulRight(a: real, b: real, f: real)
    requires a <= b && f >= 0.0
    ensures a * f <= b * f
  {
  }

  /** A non-negative decoded width (height) gives a non-negative box width
      (height): the left corner never lies right of the right corner. */
  lemma CandidateExtents(t: Tensor, cfg: DetectionConfig, image: ImageSize, scale: nat, x: nat, y: nat, anchor: nat)
    requires ScanDomain(t, cfg, scale) && InGrid(scale, x, y, anchor)
    ensures Read(t, cfg, scale, anchor, WidthPos, y, x) >= 0.0 ==> Candidate(t, cfg, image, scale, x, y, anchor).width >= 0
    ensures Read(t, cfg, scale, anchor, HeightPos, y, x) >= 0.0 ==> Candidate(t, cfg, image, scale, x, y, anchor).height >= 0
  {
    var pw := Read(t, cfg, scale, anchor, WidthPos, y, x);
    var ph := Read(t, cfg, scale, anchor, HeightPos, y, x);
    if pw >= 0.0 {
      SpanOrdered(Read(t, cfg, scale, anchor, XPos, y, x) + x as real, pw, CellPixels(image.width, scale));
    }
    if ph >= 0.0 {
      SpanOrdered(Read(t, cfg, scale, anchor, YPos, y, x) + y as real, ph, CellPixels(image.height, scale));
    }
  }

  /** A worked cell: two classes, the 13 x 13 grid on a 416 x 416 picture,
      cell (6, 6), anchor 0 decoded to `tx = ty = 0.5`, `pw = ph = 1.0`,
      confidence 0.9 and class scores `[0.8, 0.2]` gives the 32-pixel square
      at (192, 192) of class 0. */
  lemma CenterCellScenario(t: Tensor, cfg: DetectionConfig)
    requires cfg.classCount == 2 && IsAnchorTable(cfg.anchors)
    requires ShapeMatches(t, 0, 7)
    requires t[6][6][..7] == [0.5, 0.5, 1.0, 1.0, 0.9, 0.8, 0.2]
    ensures ScanDomain(t, cfg, 0) && InGrid(0, 6, 6, 0)
    ensures Candidate(t, cfg, ImageSize(416, 416), 0, 6, 6, 0) == Box(192, 192, 32, 32, 0.9, 0)
  {
    FirstThreeGrids();
    var cell := t[6][6];
    assert cell[0] == 0.5 && cell[1] == 0.5 && cell[2] == 1.0 && cell[3] == 1.0 by {
      assert cell[..7][0] == 0.5 && cell[..7][1] == 0.5 && cell[..7][2] == 1.0 && cell[..7][3] == 1.0;
    }
    assert cell[4] == 0.9 && cell[5] == 0.8 && cell[6] == 0.2 by {
      assert cell[..7][4] == 0.9 && cell[..7][5] == 0.8 && cell[..7][6] == 0.2;
    }
    var scores := ClassScores(t, cfg, 0, 0, 6, 6);
    assert scores == [0.8, 0.2];
    assert IsFirstMaximum(scores, 0);
    assert 416.0 / 13.0 == 32.0;
    assert Trunc(6.0 * 32.0) == 192;
    assert Trunc(7.0 * 32.0) == 224;
  }

  /** Every scale has the shape its reshape expects. */
  predicate ShapesMatch(decoded: seq<Tensor>, cfg: DetectionConfig) {
    forall s :: 0 <= s < |decoded| ==> ShapeMatches(decoded[s], s, BoxLength(cfg.classCount))
  }

  /** The candidates of scales `scale ..` in scale order. */
  function Collect(decoded: seq<Tensor>, cfg: DetectionConfig, image: ImageSize, scale: nat): seq<Box>
    requires ValidConfig(cfg) && ShapesMatch(decoded, cfg) && scale <= |decoded|
    decreases |decoded| - scale
  {
    if scale == |decoded| then []
    else ScaleCandidates(decoded[scale], cfg, image, scale) + Collect(decoded, cfg, image, scale + 1)
  }

  /** The candidate list of `getPredictedObjects`, or the failure of the
      first reshape that does not fit. Only the exception escapes a failing
      call, so checking every shape before collecting is equivalent to
      checking each scale as its turn comes. */
  function Candidates(decoded: seq<Tensor>, cfg: DetectionConfig, image: ImageSize): (r: Result<seq<Box>>)
    requires ValidConfig(cfg)
    ensures r.Err? <==> exists s :: 0 <= s < |decoded| && !ShapeMatches(decoded[s], s, BoxLength(cfg.classCount))
    ensures r.Err? ==> r.error == ShapeMismatch
  {
    if ShapesMatch(decoded, cfg) then Ok(Collect(decoded, cfg, image, 0)) else Err(ShapeMismatch)
  }

  /** Each collected candidate comes from a selected anchor of some scale;
      all of them clear the threshold and carry a class index. */
  lemma {:induction false} CollectedFromScales(decoded: seq<Tensor>, cfg: DetectionConfig, image: ImageSize, scale: nat)
    requires ValidConfig(cfg) && ShapesMatch(decoded, cfg) && scale <= |decoded|
    ensures forall b :: b in Collect(decoded, cfg, image, scale) ==>
      exists s :: scale <= s < |decoded| && ScanDomain(decoded[s], cfg, s) && b in ScaleCandidates(decoded[s], cfg, image, s)
    ensures forall b :: b in Collect(decoded, cfg, image, scale) ==>
      b.confidence >= cfg.confidenceThreshold && 0 <= b.predictedClass < cfg.classCount
    decreases |decoded| - scale
  {
    if scale < |decoded| {
      CollectedFromScales(decoded, cfg, image, scale + 1);
      ScaleCandidatesConfident(decoded[scale], cfg, image, scale);
    }
  }

  /** The most candidates scales `scale .. count - 1` can yield: one per
      anchor of every cell, `3 * G * G` per scale. */
  function Capacity(scale: nat, count: nat): nat
    decreases count - scale
  {
    if scale >= count then 0
    else ScaleCount * GridSize(scale) * GridSize(scale) + Capacity(scale + 1, count)
  }

  /** The scan never yields more candidates than the grids have anchors. */
  lemma {:induction false} CollectBound(decoded: seq<Tensor>, cfg: DetectionConfig, image: ImageSize, scale: nat)
    requires ValidConfig(cfg) && ShapesMatch(decoded, cfg) && scale <= |decoded|
    ensures |Collect(decoded, cfg, image, scale)| <= Capacity(scale, |decoded|)
    decreases |decoded| - scale
  {
    if scale < |decoded| {
      var head := ScaleCandidates(decoded[scale], cfg, image, scale);
      assert Collect(decoded, cfg, image, scale) == head + Collect(decoded, cfg, image, scale + 1);
      CollectBound(decoded, cfg, image, scale + 1);
      ScaleCandidatesBound(decoded[scale], cfg, image, scale);
    }
  }

  lemma ScaleCandidatesBound(t: Tensor, cfg: DetectionConfig, image: ImageSize, scale: nat)
    requires ScanDomain(t, cfg, scale)
    ensures |ScaleCandidates(t, cfg, image, scale)| <= ScaleCount * GridSize(scale) * GridSize(scale)
  {
    ScaleCandidatesExactly(t, cfg, image, scale);
  }

  /** `getPredictedObjects`: collect the candidates, then suppress. */
  method GetPredictedObjects(image: ImageSize, decoded: seq<Tensor>, cfg: DetectionConfig) returns (r: Result<seq<Box>>)
    requires ValidConfig(cfg)
    ensures r.Err? <==> exists s :: 0 <= s < |decoded| && !ShapeMatches(decoded[s], s, BoxLength(cfg.classCount))
    ensures r.Err? ==> r.error == ShapeMismatch
    ensures r.Ok? ==> ShapesMatch(decoded, cfg)
    ensures r.Ok? ==> r.value == Nms(Collect(decoded, cfg, image, 0), cfg.confidenceThreshold, cfg.iouThreshold)
    ensures r.Ok? ==> |r.value| <= Capacity(0, |decoded|)
  {
    var candidates :- Candidates(decoded, cfg, image);
    var kept := Suppress(candidates, cfg.confidenceThreshold, cfg.iouThreshold);
    NmsSelects(candidates, cfg.confidenceThreshold, cfg.iouThreshold);
    CollectBound(decoded, cfg, image, 0);
    return Ok(kept);
  }
}
