/** The post-processing of one forward pass, as `main` chains it: decode
    every scale in place, then collect the candidates and suppress
    duplicates. */
module Pipeline {
  import opened Results
  import opened JavaMath
  import opened Boxes
  import opened Anchors
  import opened Layout
  import opened ScaleDecoder
  import opened CandidateExtractor
  import opened Suppression
  import opened ConfidenceSort

  /** The decoder the configuration and `Math.exp` determine. */
  function DecoderOf(cfg: DetectionConfig, exp: real -> real): Decoder {
    Decoder(cfg.anchors, BoxLength(cfg.classCount), exp)
  }

  /** The network's usual output: at most three scales, scale `s` a
      `G x G` grid with `3 * BOX_LENGTH` channels per cell. */
  predicate WellShaped(raw: seq<Tensor>, cfg: DetectionConfig) {
    |raw| <= ScaleCount && forall s :: 0 <= s < |raw| ==> ShapeMatches(raw[s], s, BoxLength(cfg.classCount))
  }

  /** Decoding replaces values, never the shape. */
  lemma DecodedKeepsShape(d: Decoder, scale: nat, raw: Tensor, dec: Tensor, boxLength: nat)
    requires ValidDecoder(d) && IsDecodedScale(d, scale, raw, dec)
    ensures ShapeMatches(dec, scale, boxLength) <==> ShapeMatches(raw, scale, boxLength)
  {
    assert forall y :: 0 <= y < |raw| ==> |dec[y]| == |raw[y]|;
    assert forall y, x :: 0 <= y < |raw| && 0 <= x < |raw[y]| ==> |dec[y][x]| == |raw[y][x]|;
  }

  /** With non-negative anchors, the candidate read from a decoded cell has
      a non-negative width and height. */
  lemma DecodedCandidateWellFormed(cfg: DetectionConfig, exp: real -> real, image: ImageSize, scale: nat,
                                   raw: Tensor, dec: Tensor, x: nat, y: nat, anchor: nat)
    requires ValidConfig(cfg) && NonNegative(exp) && NonNegativeAnchors(cfg.anchors)
    requires IsDecodedScale(DecoderOf(cfg, exp), scale, raw, dec)
    requires ScanDomain(dec, cfg, scale) && InGrid(scale, x, y, anchor)
    ensures WellFormed(Candidate(dec, cfg, image, scale, x, y, anchor))
  {
    DecodedNonNegative(DecoderOf(cfg, exp), scale, raw, dec);
    CandidateExtents(dec, cfg, image, scale, x, y, anchor);
  }

  /** Every candidate collected from decoded scales is well formed. */
  lemma DecodedCandidatesWellFormed(cfg: DetectionConfig, exp: real -> real, image: ImageSize,
                                    raw: seq<Tensor>, dec: seq<Tensor>)
    requires ValidConfig(cfg) && NonNegative(exp) && NonNegativeAnchors(cfg.anchors)
    requires |dec| == |raw| && forall s :: 0 <= s < |raw| ==> IsDecodedScale(DecoderOf(cfg, exp), s, raw[s], dec[s])
    requires ShapesMatch(dec, cfg)
    ensures forall b :: b in Collect(dec, cfg, image, 0) ==> WellFormed(b)
  {
    CollectedFromScales(dec, cfg, image, 0);
    forall b | b in Collect(dec, cfg, image, 0)
      ensures WellFormed(b)
    {
      var s :| 0 <= s < |dec| && ScanDomain(dec[s], cfg, s) && b in ScaleCandidates(dec[s], cfg, image, s);
      ScaleCandidatesExactly(dec[s], cfg, image, s);
      var x: nat, y: nat, a: nat :| Produces(dec[s], cfg, image, s, b, x, y, a);
      DecodedCandidateWellFormed(cfg, exp, image, s, raw[s], dec[s], x, y, a);
    }
  }

  /** `dec` is what `decode` leaves in place of `raw`. */
  ghost predicate DecodesTo(raw: seq<Tensor>, cfg: DetectionConfig, exp: real -> real, dec: seq<Tensor>)
    requires ValidConfig(cfg) && NonNegative(exp)
  {
    |dec| == |raw| && forall s :: 0 <= s < |raw| ==> IsDecodedScale(DecoderOf(cfg, exp), s, raw[s], dec[s])
  }

  /** `decode(output)` followed by `getPredictedObjects(img, output)`.
      The first failure wins: an anchor lookup out of bounds while decoding,
      otherwise a scale whose shape the reshape rejects. A successful run
      yields boxes in non-increasing confidence order, pairwise below the
      IoU threshold, each confident enough and naming a class; with
      non-negative anchors each also has a non-negative extent. */
  method DetectObjects(raw: seq<Tensor>, cfg: DetectionConfig, image: ImageSize, exp: real -> real)
    returns (r: Result<seq<Box>>)
    requires ValidConfig(cfg) && NonNegative(exp)
    requires forall s :: 0 <= s < |raw| ==> Rectangular(raw[s])
    ensures r.Err? && r.error == AnchorIndexOutOfBounds <==>
      exists s :: 0 <= s < |raw| && ScaleFails(DecoderOf(cfg, exp), s, raw[s])
    ensures r.Err? && r.error == ShapeMismatch <==>
      (forall s :: 0 <= s < |raw| ==> !ScaleFails(DecoderOf(cfg, exp), s, raw[s])) &&
      exists s :: 0 <= s < |raw| && !ShapeMatches(raw[s], s, BoxLength(cfg.classCount))
    ensures WellShaped(raw, cfg) ==> r.Ok?
    ensures r.Ok? ==> SortedByConfidence(r.value) && Separated(r.value, cfg.iouThreshold)
    ensures r.Ok? ==> forall b :: b in r.value ==>
      b.confidence >= cfg.confidenceThreshold && 0 <= b.predictedClass < cfg.classCount
    ensures r.Ok? && NonNegativeAnchors(cfg.anchors) ==> forall b :: b in r.value ==> WellFormed(b)
    ensures r.Ok? ==> |r.value| <= Capacity(0, |raw|)
    ensures r.Ok? ==> exists dec ::
      && DecodesTo(raw, cfg, exp, dec)
      && ShapesMatch(dec, cfg)
      && r.value == Nms(Collect(dec, cfg, image, 0), cfg.confidenceThreshold, cfg.iouThreshold)
  {
    var d := DecoderOf(cfg, exp);
    if WellShaped(raw, cfg) {
      forall s | 0 <= s < |raw|
        ensures Depth(raw[s]) == AnchorsPerScale * d.boxLength
      {
        FirstThreeGrids();
        assert GridSize(s) > 0;
      }
      WellShapedOutputsDecode(d, raw);
    }
    var dec :- Decode(d, raw);
    forall s | 0 <= s < |raw|
      ensures ShapeMatches(dec[s], s, BoxLength(cfg.classCount)) <==> ShapeMatches(raw[s], s, BoxLength(cfg.classCount))
    {
      DecodedKeepsShape(d, s, raw[s], dec[s], BoxLength(cfg.classCount));
    }
    r := GetPredictedObjects(image, dec, cfg);
    if r.Ok? {
      var candidates := Collect(dec, cfg, image, 0);
      NmsSorted(candidates, cfg.confidenceThreshold, cfg.iouThreshold);
      NmsSeparated(candidates, cfg.confidenceThreshold, cfg.iouThreshold);
      NmsSelects(candidates, cfg.confidenceThreshold, cfg.iouThreshold);
      CollectedFromScales(dec, cfg, image, 0);
      if NonNegativeAnchors(cfg.anchors) {
        DecodedCandidatesWellFormed(cfg, exp, image, raw, dec);
      }
      assert DecodesTo(raw, cfg, exp, dec) && ShapesMatch(dec, cfg) &&
        r.value == Nms(Collect(dec, cfg, image, 0), cfg.confidenceThreshold, cfg.iouThreshold);
    }
  }
}
