/** The anchor table of `Config`: the comma-separated `anchors` property,
    already split and parsed, scattered into a 3 x 3 x 2 table whose scale
    axis is reversed, so that the last authored group of three anchors
    becomes scale 0 (the coarsest grid). */
module Anchors {
  import opened Results

  const ScaleCount: nat := 3       // ANCHORS.length
  const AnchorsPerScale: nat := 3  // ANCHORS[i].length
  const Dimensions: nat := 2       // ANCHORS[i][j].length: width, height
  const AnchorValueCount: nat := 18

  /** `ANCHORS[scale][anchor][dimension]`. */
  type AnchorTable = seq<seq<seq<int>>>

  predicate IsAnchorTable(t: AnchorTable) {
    && |t| == ScaleCount
    && forall s :: 0 <= s < ScaleCount ==>
         |t[s]| == AnchorsPerScale && forall j :: 0 <= j < AnchorsPerScale ==> |t[s][j]| == Dimensions
  }

  predicate InTable(i: int, j: int, k: int) {
    0 <= i < ScaleCount && 0 <= j < AnchorsPerScale && 0 <= k < Dimensions
  }

  /** The position read for authored group `i`, anchor `j`, dimension `k`:
      `2 * i * ANCHORS.length + 2 * j + k`. */
  function FlatIndex(i: int, j: int, k: int): (n: int)
    ensures InTable(i, j, k) ==> 0 <= n < AnchorValueCount
  {
    2 * i * ScaleCount + 2 * j + k
  }

  /** Inverse of `FlatIndex` on 0..17: a group spans `2 * ANCHORS.length`
      positions and an anchor two. */
  function Unflatten(n: int): (int, int, int) {
    (n / (2 * ScaleCount), (n % (2 * ScaleCount)) / 2, n % 2)
  }

  /** The read positions are exactly 0..17, each read once: `FlatIndex` is
      a bijection from the table's cells onto 0..17 with inverse
      `Unflatten`. */
  lemma FlatIndexBijection()
    ensures forall i, j, k :: InTable(i, j, k) ==> 0 <= FlatIndex(i, j, k) < AnchorValueCount
    ensures forall i, j, k :: InTable(i, j, k) ==> Unflatten(FlatIndex(i, j, k)) == (i, j, k)
    ensures forall n :: 0 <= n < AnchorValueCount ==>
      var (i, j, k) := Unflatten(n); InTable(i, j, k) && FlatIndex(i, j, k) == n
  {
    forall i, j, k | InTable(i, j, k)
      ensures Unflatten(FlatIndex(i, j, k)) == (i, j, k)
    {
      UnflattenOfFlat(i, j, k);
    }
  }

  lemma UnflattenOfFlat(i: int, j: int, k: int)
    requires InTable(i, j, k)
    ensures Unflatten(FlatIndex(i, j, k)) == (i, j, k)
  {
    var r := 2 * j + k;
    assert 0 <= r < 2 * ScaleCount;
    DivideExactly(FlatIndex(i, j, k), 2 * ScaleCount, i, r);
    DivideExactly(r, 2, j, k);
    DivideExactly(FlatIndex(i, j, k), 2, ScaleCount * i + j, k);
  }

  /** `n == q * d + r` with `0 <= r < d` fixes `n / d` and `n % d`. */
  lemma DivideExactly(n: int, d: int, q: int, r: int)
    requires 0 < d && 0 <= r < d && n == q * d + r
    ensures n / d == q && n % d == r
  {
    var q', r' := n / d, n % d;
    assert (q - q') * d == r' - r;
    MultipleAtLeastDivisor(q - q', d);
  }

  lemma MultipleAtLeastDivisor(k: int, d: int)
    requires d > 0
    ensures k != 0 ==> k * d >= d || k * d <= -d
  {
  }

  /** Distinct cells read distinct values. */
  lemma FlatIndexInjective(i: int, j: int, k: int, i': int, j': int, k': int)
    requires InTable(i, j, k) && InTable(i', j', k')
    requires FlatIndex(i, j, k) == FlatIndex(i', j', k')
    ensures i == i' && j == j' && k == k'
  {
    FlatIndexBijection();
    assert Unflatten(FlatIndex(i, j, k)) == (i, j, k);
    assert Unflatten(FlatIndex(i', j', k')) == (i', j', k');
  }

  /** The table the static initialiser fills in, given at least 18 values. */
  function AnchorTableOf(values: seq<int>): (t: AnchorTable)
    requires |values| >= AnchorValueCount
    ensures IsAnchorTable(t)
  {
    seq(ScaleCount, s requires 0 <= s < ScaleCount =>
      seq(AnchorsPerScale, j requires 0 <= j < AnchorsPerScale =>
        seq(Dimensions, k requires 0 <= k < Dimensions =>
          values[FlatIndex(ScaleCount - 1 - s, j, k)])))
  }

  lemma AnchorCell(values: seq<int>, s: int, j: int, k: int)
    requires |values| >= AnchorValueCount && InTable(s, j, k)
    ensures AnchorTableOf(values)[s][j][k] == values[FlatIndex(ScaleCount - 1 - s, j, k)]
  {
    var t := AnchorTableOf(values);
    assert t[s] == seq(AnchorsPerScale, j requires 0 <= j < AnchorsPerScale =>
        seq(Dimensions, k requires 0 <= k < Dimensions => values[FlatIndex(ScaleCount - 1 - s, j, k)]));
    assert t[s][j] == seq(Dimensions, k requires 0 <= k < Dimensions => values[FlatIndex(ScaleCount - 1 - s, j, k)]);
  }

  lemma AllAnchorCells(values: seq<int>)
    requires |values| >= AnchorValueCount
    ensures forall s, j, k :: InTable(s, j, k) ==>
      AnchorTableOf(values)[s][j][k] == values[FlatIndex(ScaleCount - 1 - s, j, k)]
  {
    forall s, j, k | InTable(s, j, k)
      ensures AnchorTableOf(values)[s][j][k] == values[FlatIndex(ScaleCount - 1 - s, j, k)]
    {
      AnchorCell(values, s, j, k);
    }
  }

  /** Authored group `i` lands at scale `2 - i`; inside a group the anchor
      order and the (width, height) order are kept. */
  lemma ScaleAxisReversed(values: seq<int>)
    requires |values| >= AnchorValueCount
    ensures forall i, j, k :: InTable(i, j, k) ==>
      AnchorTableOf(values)[ScaleCount - 1 - i][j][k] == values[FlatIndex(i, j, k)]
    ensures AnchorTableOf(values)[0] == [values[12..14], values[14..16], values[16..18]]
    ensures AnchorTableOf(values)[2] == [values[0..2], values[2..4], values[4..6]]
  {
    AllAnchorCells(values);
    forall i, j, k | InTable(i, j, k)
      ensures AnchorTableOf(values)[ScaleCount - 1 - i][j][k] == values[FlatIndex(i, j, k)]
    {
      assert InTable(ScaleCount - 1 - i, j, k);
    }
    var t := AnchorTableOf(values);
    forall s | s == 0 || s == 2
      ensures t[s] == [values[6 * (2 - s)..6 * (2 - s) + 2], values[6 * (2 - s) + 2..6 * (2 - s) + 4], values[6 * (2 - s) + 4..6 * (2 - s) + 6]]
    {
      forall j | 0 <= j < 3
        ensures t[s][j] == values[6 * (2 - s) + 2 * j..6 * (2 - s) + 2 * j + 2]
      {
        assert InTable(s, j, 0) && InTable(s, j, 1);
      }
    }
  }

  /** Values after the eighteenth are never read. */
  lemma LaterValuesIgnored(values: seq<int>, extra: seq<int>)
    requires |values| >= AnchorValueCount
    ensures AnchorTableOf(values + extra) == AnchorTableOf(values)
    ensures AnchorTableOf(values) == AnchorTableOf(values[..AnchorValueCount])
  {
    var a, b, c := AnchorTableOf(values + extra), AnchorTableOf(values), AnchorTableOf(values[..AnchorValueCount]);
    AllAnchorCells(values + extra);
    AllAnchorCells(values);
    AllAnchorCells(values[..AnchorValueCount]);
    TablesEqual(a, b);
    TablesEqual(b, c);
  }

  /** Two tables with the same cells are equal. */
  lemma TablesEqual(a: AnchorTable, b: AnchorTable)
    requires IsAnchorTable(a) && IsAnchorTable(b)
    requires forall s, j, k :: InTable(s, j, k) ==> a[s][j][k] == b[s][j][k]
    ensures a == b
  {
    forall s | 0 <= s < ScaleCount
      ensures a[s] == b[s]
    {
      forall j | 0 <= j < AnchorsPerScale
        ensures a[s][j] == b[s][j]
      {
        assert InTable(s, j, 0) && InTable(s, j, 1);
      }
    }
  }

  /** The nine YOLOv3 anchors, authored from smallest to largest, end up
      with the largest three at scale 0. */
  lemma DefaultAnchors()
    ensures AnchorTableOf([10, 13, 16, 30, 33, 23, 30, 61, 62, 45, 59, 119, 116, 90, 156, 198, 373, 326])
         == [[[116, 90], [156, 198], [373, 326]], [[30, 61], [62, 45], [59, 119]], [[10, 13], [16, 30], [33, 23]]]
  {
    var v := [10, 13, 16, 30, 33, 23, 30, 61, 62, 45, 59, 119, 116, 90, 156, 198, 373, 326];
    AllAnchorCells(v);
    TablesEqual(AnchorTableOf(v),
      [[[116, 90], [156, 198], [373, 326]], [[30, 61], [62, 45], [59, 119]], [[10, 13], [16, 30], [33, 23]]]);
  }

  /** The static initialiser as written: three nested loops over a zeroed
      `int[3][3][2]`, each step reading position `2 * i * 3 + 2 * j + k` of
      the value list; a read past the end aborts the whole load. */
  method LoadAnchors(values: seq<int>) returns (r: Result<AnchorTable>)
    ensures r.Ok? <==> |values| >= AnchorValueCount
    ensures r.Ok? ==> r.value == AnchorTableOf(values)
    ensures r.Err? ==> r.error == MissingAnchorValue
  {
    var zero := [[0, 0], [0, 0], [0, 0]];
    var table: AnchorTable := [zero, zero, zero];
    for i := 0 to ScaleCount
      invariant IsAnchorTable(table)
      invariant 6 * i <= |values|
      invariant forall i', j, k :: InTable(i', j, k) && i' < i ==>
        table[ScaleCount - 1 - i'][j][k] == values[FlatIndex(i', j, k)]
    {
      for j := 0 to AnchorsPerScale
        invariant IsAnchorTable(table)
        invariant 6 * i + 2 * j <= |values|
        invariant forall i', j', k :: InTable(i', j', k) && (i' < i || (i' == i && j' < j)) ==>
          table[ScaleCount - 1 - i'][j'][k] == values[FlatIndex(i', j', k)]
      {
        for k := 0 to Dimensions
          invariant IsAnchorTable(table)
          invariant 6 * i + 2 * j + k <= |values|
          invariant forall i', j', k' :: InTable(i', j', k') && (i' < i || (i' == i && (j' < j || (j' == j && k' < k)))) ==>
            table[ScaleCount - 1 - i'][j'][k'] == values[FlatIndex(i', j', k')]
        {
          var index := 2 * i * ScaleCount + 2 * j + k;
          if index >= |values| {
            return Err(MissingAnchorValue);
          }
          var s := ScaleCount - 1 - i;
          table := table[s := table[s][j := table[s][j][k := values[index]]]];
        }
      }
    }
    AllAnchorCells(values);
    forall s, j, k | InTable(s, j, k)
      ensures table[s][j][k] == AnchorTableOf(values)[s][j][k]
    {
      assert InTable(ScaleCount - 1 - s, j, k);
    }
    TablesEqual(table, AnchorTableOf(values));
    return Ok(table);
  }
}
