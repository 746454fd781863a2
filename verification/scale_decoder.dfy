/** `Main.decode`: every element of every scale's output is replaced, in
    place, by `exp(v) * anchor / stride` in the width and height slots and by
    `sigmoid(v)` everywhere else. The `permute(0, 3, 1, 2)` at the end of
    each scale in `decode` only changes how the channel axis is addressed
    and is folded into the extractor's accessor. */
module ScaleDecoder {
  import opened Results
  import opened JavaMath
  import opened Anchors
  import opened Layout

  /** What decoding depends on: the anchor table, `BOX_LENGTH` and the
      exponential function. */
  datatype Decoder = Decoder(anchors: AnchorTable, boxLength: nat, exp: real -> real)

  ghost predicate ValidDecoder(d: Decoder) {
    IsAnchorTable(d.anchors) && d.boxLength > 0 && NonNegative(d.exp)
  }

  /** `isHeight`: 0 in the width slot, 1 in every other slot. */
  function HeightFlag(i: nat, boxLength: nat): nat
    requires boxLength > 0
  {
    if i % boxLength == WidthPos then 0 else 1
  }

  /** The combined test `i == WIDTH_POS + isHeight + box * BOX_LENGTH`. */
  predicate IsExtentChannel(i: nat, boxLength: nat)
    requires boxLength > 0
  {
    i == WidthPos + HeightFlag(i, boxLength) + (i / boxLength) * boxLength
  }

  /** The combined test holds exactly in slots 2 and 3 of a block, and then
      `isHeight` picks anchor dimension 0 in slot 2 and 1 in slot 3. */
  lemma ExtentChannelRule(i: nat, boxLength: nat)
    requires boxLength > 0
    ensures IsExtentChannel(i, boxLength) <==> i % boxLength == WidthPos || i % boxLength == HeightPos
    ensures IsExtentChannel(i, boxLength) ==> HeightFlag(i, boxLength) == i % boxLength - WidthPos
  {
    var q, m := i / boxLength, i % boxLength;
    assert i == q * boxLength + m;
    assert IsExtentChannel(i, boxLength) <==> m == WidthPos + HeightFlag(i, boxLength);
  }

  /** `ANCHORS[scale][box]` exists. */
  predicate LookupInBounds(scale: nat, i: nat, boxLength: nat)
    requires boxLength > 0
  {
    scale < ScaleCount && i / boxLength < AnchorsPerScale
  }

  /** The new value of channel `i` at scale `scale`, or the out-of-bounds
      failure of the anchor lookup. */
  function DecodeElement(d: Decoder, scale: nat, i: nat, v: real): (r: Result<real>)
    requires ValidDecoder(d)
    ensures r.Err? <==> IsExtentChannel(i, d.boxLength) && !LookupInBounds(scale, i, d.boxLength)
    ensures r.Err? ==> r.error == AnchorIndexOutOfBounds
  {
    if IsExtentChannel(i, d.boxLength) then
      var box := i / d.boxLength;
      if scale < |d.anchors| && box < |d.anchors[scale]| then
        Ok(d.exp(v) * d.anchors[scale][box][HeightFlag(i, d.boxLength)] as real / Stride(scale))
      else
        Err(AnchorIndexOutOfBounds)
    else
      Ok(Sigmoid(d.exp, v))
  }

  /** What a successful decode yields in each slot: `exp(v)` times anchor
      dimension 0 over the stride in slot 2, dimension 1 in slot 3, and the
      sigmoid, which lies in (0, 1], everywhere else. */
  lemma DecodeElementValue(d: Decoder, scale: nat, i: nat, v: real)
    requires ValidDecoder(d)
    ensures i % d.boxLength == WidthPos || i % d.boxLength == HeightPos ==> IsExtentChannel(i, d.boxLength)
    ensures DecodeElement(d, scale, i, v).Ok? && i % d.boxLength == WidthPos ==>
      DecodeElement(d, scale, i, v).value == d.exp(v) * d.anchors[scale][i / d.boxLength][0] as real / Stride(scale)
    ensures DecodeElement(d, scale, i, v).Ok? && i % d.boxLength == HeightPos ==>
      DecodeElement(d, scale, i, v).value == d.exp(v) * d.anchors[scale][i / d.boxLength][1] as real / Stride(scale)
    ensures i % d.boxLength != WidthPos && i % d.boxLength != HeightPos ==>
      DecodeElement(d, scale, i, v).Ok? && 0.0 < DecodeElement(d, scale, i, v).value <= 1.0 &&
      DecodeElement(d, scale, i, v).value == Sigmoid(d.exp, v)
  {
    ExtentChannelRule(i, d.boxLength);
  }

  /** No channel of a `depth`-deep cell needs a missing anchor. */
  predicate DepthDecodable(scale: nat, depth: nat, boxLength: nat)
    requires boxLength > 0
  {
    forall i: nat :: i < depth && IsExtentChannel(i, boxLength) ==> LookupInBounds(scale, i, boxLength)
  }

  /** With at most three scales and `3 * BOX_LENGTH` channels per cell,
      `box = i / BOX_LENGTH` stays below 3 and the lookup never fails. */
  lemma WellShapedDepthDecodable(scale: nat, boxLength: nat)
    requires boxLength > 0 && scale < ScaleCount
    ensures DepthDecodable(scale, AnchorsPerScale * boxLength, boxLength)
  {
    forall i: nat | i < AnchorsPerScale * boxLength
      ensures i / boxLength < AnchorsPerScale
    {
      ChannelAnchor(i, boxLength);
    }
  }

  /** Channels `[0, n)` of `dec` hold the decoded values of the same channels
      of `raw`, and channels from `n` on still hold their raw values. */
  ghost predicate CellDecodedUpTo(d: Decoder, scale: nat, raw: seq<real>, dec: seq<real>, n: nat)
    requires ValidDecoder(d)
  {
    && |dec| == |raw|
    && (forall c :: 0 <= c < n && c < |raw| ==> DecodeElement(d, scale, c, raw[c]) == Ok(dec[c]))
    && (forall c :: n <= c < |raw| ==> dec[c] == raw[c])
  }

  /** `dec` is `raw` with every element decoded. */
  ghost predicate IsDecodedScale(d: Decoder, scale: nat, raw: Tensor, dec: Tensor)
    requires ValidDecoder(d)
  {
    && |dec| == |raw|
    && forall y :: 0 <= y < |raw| ==>
         |dec[y]| == |raw[y]| && forall x :: 0 <= x < |raw[y]| ==> CellDecodedUpTo(d, scale, raw[y][x], dec[y][x], |raw[y][x]|)
  }

  /** The innermost loop of `decode` at one grid cell: read each channel
      and overwrite it with its decoded value. A channel is read before it
      is written and never again; the first failing lookup aborts. */
  method DecodeCell(d: Decoder, scale: nat, cell: seq<real>) returns (r: Result<seq<real>>)
    requires ValidDecoder(d)
    ensures r.Err? <==> !DepthDecodable(scale, |cell|, d.boxLength)
    ensures r.Err? ==> r.error == AnchorIndexOutOfBounds
    ensures r.Ok? ==> CellDecodedUpTo(d, scale, cell, r.value, |cell|)
  {
    var work := cell;
    for i := 0 to |cell|
      invariant CellDecodedUpTo(d, scale, cell, work, i)
      invariant forall c: nat :: c < i && IsExtentChannel(c, d.boxLength) ==> LookupInBounds(scale, c, d.boxLength)
    {
      var oldValue := work[i];
      var newValue := DecodeElement(d, scale, i, oldValue);
      if newValue.Err? {
        return Err(newValue.error);
      }
      work := work[i := newValue.value];
    }
    return Ok(work);
  }

  /** One scale of `decode`: the two grid loops around `DecodeCell`. */
  method DecodeScale(d: Decoder, scale: nat, t: Tensor) returns (r: Result<Tensor>)
    requires ValidDecoder(d)
    requires Rectangular(t)
    ensures r.Err? <==> HasCell(t) && !DepthDecodable(scale, Depth(t), d.boxLength)
    ensures r.Err? ==> r.error == AnchorIndexOutOfBounds
    ensures r.Ok? ==> IsDecodedScale(d, scale, t, r.value)
  {
    var work := t;
    var rows, cols, depth := |t|, Cols(t), Depth(t);
    for y := 0 to rows
      invariant |work| == rows
      invariant forall y' :: 0 <= y' < rows ==> |work[y']| == cols
      invariant forall y' :: y <= y' < rows ==> work[y'] == t[y']
      invariant forall y', x :: 0 <= y' < y && 0 <= x < cols ==> CellDecodedUpTo(d, scale, t[y'][x], work[y'][x], depth)
      invariant y > 0 && cols > 0 ==> DepthDecodable(scale, depth, d.boxLength)
    {
      for x := 0 to cols
        invariant |work| == rows
        invariant forall y' :: 0 <= y' < rows ==> |work[y']| == cols
        invariant forall y' :: y < y' < rows ==> work[y'] == t[y']
        invariant forall x' :: x <= x' < cols ==> work[y][x'] == t[y][x']
        invariant forall y', x' :: 0 <= y' < y && 0 <= x' < cols ==> CellDecodedUpTo(d, scale, t[y'][x'], work[y'][x'], depth)
        invariant forall x' :: 0 <= x' < x ==> CellDecodedUpTo(d, scale, t[y][x'], work[y][x'], depth)
        invariant (y > 0 || x > 0) && cols > 0 ==> DepthDecodable(scale, depth, d.boxLength)
      {
        var cell := DecodeCell(d, scale, work[y][x]);
        if cell.Err? {
          return Err(cell.error);
        }
        work := work[y := work[y][x := cell.value]];
      }
    }
    return Ok(work);
  }

  /** The anchor lookup of `decode` fails somewhere in this scale. */
  predicate ScaleFails(d: Decoder, scale: nat, t: Tensor)
    requires d.boxLength > 0
  {
    HasCell(t) && !DepthDecodable(scale, Depth(t), d.boxLength)
  }

  /** `decode` over all scales: each scale in turn, in place; the first
      failing lookup aborts the whole call. */
  method Decode(d: Decoder, raw: seq<Tensor>) returns (r: Result<seq<Tensor>>)
    requires ValidDecoder(d)
    requires forall s :: 0 <= s < |raw| ==> Rectangular(raw[s])
    ensures r.Err? <==> exists s :: 0 <= s < |raw| && ScaleFails(d, s, raw[s])
    ensures r.Err? ==> r.error == AnchorIndexOutOfBounds
    ensures r.Ok? ==> |r.value| == |raw| && forall s :: 0 <= s < |raw| ==> IsDecodedScale(d, s, raw[s], r.value[s])
  {
    var decoded: seq<Tensor> := [];
    for scale := 0 to |raw|
      invariant |decoded| == scale
      invariant forall s :: 0 <= s < scale ==> !ScaleFails(d, s, raw[s]) && IsDecodedScale(d, s, raw[s], decoded[s])
    {
      var one := DecodeScale(d, scale, raw[scale]);
      if one.Err? {
        return Err(one.error);
      }
      decoded := decoded + [one.value];
    }
    return Ok(decoded);
  }

  /** Outputs with at most three scales, each `3 * BOX_LENGTH` channels
      deep, always decode. */
  lemma WellShapedOutputsDecode(d: Decoder, raw: seq<Tensor>)
    requires ValidDecoder(d)
    requires |raw| <= ScaleCount
    requires forall s :: 0 <= s < |raw| ==> Depth(raw[s]) == AnchorsPerScale * d.boxLength
    ensures forall s :: 0 <= s < |raw| ==> !ScaleFails(d, s, raw[s])
  {
    forall s | 0 <= s < |raw|
      ensures !ScaleFails(d, s, raw[s])
    {
      WellShapedDepthDecodable(s, d.boxLength);
    }
  }

  ghost predicate NonNegativeAnchors(t: AnchorTable)
    requires IsAnchorTable(t)
  {
    forall s: nat, j: nat, k: nat :: InTable(s, j, k) ==> t[s][j][k] >= 0
  }

  /** With non-negative anchors the decoded width and height are never
      negative, and every other slot lies in (0, 1]. */
  lemma DecodedValueRange(d: Decoder, scale: nat, i: nat, v: real)
    requires ValidDecoder(d) && NonNegativeAnchors(d.anchors)
    requires DecodeElement(d, scale, i, v).Ok?
    ensures DecodeElement(d, scale, i, v).value >= 0.0
    ensures i % d.boxLength != WidthPos && i % d.boxLength != HeightPos ==> DecodeElement(d, scale, i, v).value <= 1.0
  {
    ExtentChannelRule(i, d.boxLength);
    DecodeElementValue(d, scale, i, v);
    if IsExtentChannel(i, d.boxLength) {
      var box, dim := i / d.boxLength, HeightFlag(i, d.boxLength);
      assert InTable(scale, box, dim);
      var e, a, st := d.exp(v), d.anchors[scale][box][dim] as real, Stride(scale);
      GridTimesStride(scale);
      assert e >= 0.0 && a >= 0.0 && st > 0.0;
      assert e * a >= 0.0;
    }
  }

  /** With non-negative anchors every value of a decoded scale is
      non-negative. */
  lemma DecodedNonNegative(d: Decoder, scale: nat, raw: Tensor, dec: Tensor)
    requires ValidDecoder(d) && NonNegativeAnchors(d.anchors)
    requires IsDecodedScale(d, scale, raw, dec)
    ensures forall y, x, c :: 0 <= y < |dec| && 0 <= x < |dec[y]| && 0 <= c < |dec[y][x]| ==> dec[y][x][c] >= 0.0
  {
    forall y, x, c | 0 <= y < |dec| && 0 <= x < |dec[y]| && 0 <= c < |dec[y][x]|
      ensures dec[y][x][c] >= 0.0
    {
      assert CellDecodedUpTo(d, scale, raw[y][x], dec[y][x], |raw[y][x]|);
      assert DecodeElement(d, scale, c, raw[y][x][c]) == Ok(dec[y][x][c]);
      DecodedValueRange(d, scale, c, raw[y][x][c]);
    }
  }
}
