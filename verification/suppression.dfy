/** `BoundingBox.nms`: greedy non-maximum suppression over the candidates
    sorted by descending confidence. */
module Suppression {
  import opened JavaMath
  import opened Boxes
  import opened ConfidenceSort
  import opened Subsequences

  /** An accepted box removes a later one when their IoU is strictly above
      the threshold (NaN never is). */
  predicate Suppresses(kept: Box, other: Box, iouThreshold: real) {
    Exceeds(IoU(kept, other), iouThreshold)
  }

  /** No two boxes of `s` overlap by more than the threshold. */
  predicate Separated(s: seq<Box>, iouThreshold: real) {
    forall p, q :: 0 <= p < q < |s| ==> !Suppresses(s[p], s[q], iouThreshold)
  }

  /** The boxes of `t` that `kept` does not suppress, in order. */
  function Survivors(kept: Box, t: seq<Box>, iouThreshold: real): (r: seq<Box>)
    ensures |r| <= |t|
  {
    if t == [] then []
    else if Suppresses(kept, t[0], iouThreshold) then Survivors(kept, t[1..], iouThreshold)
    else [t[0]] + Survivors(kept, t[1..], iouThreshold)
  }

  /** The survivors are exactly the boxes of `t` that `kept` does not
      suppress, in their order in `t`. */
  lemma {:induction false} SurvivorsSelect(kept: Box, t: seq<Box>, iouThreshold: real)
    ensures forall x :: x in Survivors(kept, t, iouThreshold) <==> x in t && !Suppresses(kept, x, iouThreshold)
    ensures IsSubsequence(Survivors(kept, t, iouThreshold), t)
    decreases |t|
  {
    if t != [] {
      SurvivorsSelect(kept, t[1..], iouThreshold);
      assert forall x :: x in t <==> x == t[0] || x in t[1..];
    }
  }

  lemma {:induction false} SurvivorsAppend(kept: Box, t: seq<Box>, x: Box, iouThreshold: real)
    ensures Survivors(kept, t + [x], iouThreshold)
         == Survivors(kept, t, iouThreshold) + (if Suppresses(kept, x, iouThreshold) then [] else [x])
    decreases |t|
  {
    if t == [] {
      assert t + [x] == [x];
    } else {
      assert (t + [x])[1..] == t[1..] + [x];
      SurvivorsAppend(kept, t[1..], x, iouThreshold);
    }
  }

  /** The outcome of the scan over an already sorted list: a box below the
      confidence threshold is skipped (and suppresses nothing); any other box
      is kept and removes every later box it suppresses. */
  function Greedy(s: seq<Box>, confidenceThreshold: real, iouThreshold: real): seq<Box>
    decreases |s|
  {
    if s == [] then []
    else if s[0].confidence < confidenceThreshold then
      Greedy(s[1..], confidenceThreshold, iouThreshold)
    else
      [s[0]] + Greedy(Survivors(s[0], s[1..], iouThreshold), confidenceThreshold, iouThreshold)
  }

  /** The scan only deletes boxes, and every box it keeps reaches the
      confidence threshold. */
  lemma {:induction false} GreedySelects(s: seq<Box>, confidenceThreshold: real, iouThreshold: real)
    ensures IsSubsequence(Greedy(s, confidenceThreshold, iouThreshold), s)
    ensures forall x :: x in Greedy(s, confidenceThreshold, iouThreshold) ==> x.confidence >= confidenceThreshold
    decreases |s|
  {
    if s != [] {
      if s[0].confidence < confidenceThreshold {
        GreedySelects(s[1..], confidenceThreshold, iouThreshold);
      } else {
        var rest := Survivors(s[0], s[1..], iouThreshold);
        var kept := Greedy(rest, confidenceThreshold, iouThreshold);
        GreedySelects(rest, confidenceThreshold, iouThreshold);
        SurvivorsSelect(s[0], s[1..], iouThreshold);
        SubsequenceTransitive(kept, rest, s[1..]);
        assert Greedy(s, confidenceThreshold, iouThreshold) == [s[0]] + kept;
      }
    }
  }

  /** Kept boxes are pairwise separated. */
  lemma {:induction false} GreedySeparated(s: seq<Box>, confidenceThreshold: real, iouThreshold: real)
    ensures Separated(Greedy(s, confidenceThreshold, iouThreshold), iouThreshold)
    decreases |s|
  {
    if s != [] {
      if s[0].confidence < confidenceThreshold {
        GreedySeparated(s[1..], confidenceThreshold, iouThreshold);
      } else {
        var rest := Survivors(s[0], s[1..], iouThreshold);
        var kept := Greedy(rest, confidenceThreshold, iouThreshold);
        GreedySeparated(rest, confidenceThreshold, iouThreshold);
        GreedySelects(rest, confidenceThreshold, iouThreshold);
        SurvivorsSelect(s[0], s[1..], iouThreshold);
        SubsequenceMembers(kept, rest);
        var r := [s[0]] + kept;
        forall p, q | 0 <= p < q < |r|
          ensures !Suppresses(r[p], r[q], iouThreshold)
        {
          assert r[q] == kept[q - 1];
          if p > 0 {
            assert r[p] == kept[p - 1];
          } else {
            assert r[q] in kept;
          }
        }
      }
    }
  }

  /** Every sufficiently confident box that was not kept was suppressed by a
      kept box at least as confident as itself: on a sorted list a box is
      only ever removed by a box that came before it. */
  lemma {:induction false} GreedyCovers(s: seq<Box>, confidenceThreshold: real, iouThreshold: real)
    requires SortedByConfidence(s)
    ensures forall x :: x in s && x.confidence >= confidenceThreshold ==>
      x in Greedy(s, confidenceThreshold, iouThreshold) ||
      exists y :: y in Greedy(s, confidenceThreshold, iouThreshold) && Suppresses(y, x, iouThreshold) && y.confidence >= x.confidence
    decreases |s|
  {
    if s != [] {
      var r := Greedy(s, confidenceThreshold, iouThreshold);
      assert forall x :: x in s ==> x == s[0] || x in s[1..];
      SortedTail(s);
      if s[0].confidence < confidenceThreshold {
        GreedyCovers(s[1..], confidenceThreshold, iouThreshold);
      } else {
        var rest := Survivors(s[0], s[1..], iouThreshold);
        var kept := Greedy(rest, confidenceThreshold, iouThreshold);
        SurvivorsSelect(s[0], s[1..], iouThreshold);
        SubsequenceOfSorted(rest, s[1..]);
        GreedyCovers(rest, confidenceThreshold, iouThreshold);
        HeadIsMostConfident(s);
        assert r == [s[0]] + kept;
        forall x | x in s && x.confidence >= confidenceThreshold
          ensures x in r || exists y :: y in r && Suppresses(y, x, iouThreshold) && y.confidence >= x.confidence
        {
          if x != s[0] {
            if Suppresses(s[0], x, iouThreshold) {
              assert s[0] in r;
            } else {
              assert x in rest;
              if x !in kept {
                var y :| y in kept && Suppresses(y, x, iouThreshold) && y.confidence >= x.confidence;
                assert y in r;
              }
            }
          }
        }
      }
    }
  }

  /** A subsequence of a sorted sequence is sorted. */
  lemma {:induction false} SubsequenceOfSorted(a: seq<Box>, b: seq<Box>)
    requires IsSubsequence(a, b) && SortedByConfidence(b)
    ensures SortedByConfidence(a)
    decreases |b|
  {
    if a != [] {
      if a[0] == b[0] && IsSubsequence(a[1..], b[1..]) {
        SubsequenceOfSorted(a[1..], b[1..]);
        SubsequenceMembers(a[1..], b[1..]);
        HeadIsMostConfident(b);
        forall x | x in a[1..]
          ensures x.confidence <= a[0].confidence
        {
          assert x in b;
        }
        assert a == [a[0]] + a[1..];
        PrependKeepsSorted(a[0], a[1..]);
      } else {
        SubsequenceOfSorted(a, b[1..]);
      }
    }
  }

  /** On a sorted, separated list of confident boxes the scan removes
      nothing. */
  lemma {:induction false} GreedyFixpoint(s: seq<Box>, confidenceThreshold: real, iouThreshold: real)
    requires forall x :: x in s ==> x.confidence >= confidenceThreshold
    requires Separated(s, iouThreshold)
    ensures Greedy(s, confidenceThreshold, iouThreshold) == s
    decreases |s|
  {
    if s != [] {
      SurvivorsKeepAll(s[0], s[1..], iouThreshold);
      assert Separated(s[1..], iouThreshold) by {
        forall p, q | 0 <= p < q < |s[1..]|
          ensures !Suppresses(s[1..][p], s[1..][q], iouThreshold)
        {
          assert s[1..][p] == s[p + 1] && s[1..][q] == s[q + 1];
        }
      }
      GreedyFixpoint(s[1..], confidenceThreshold, iouThreshold);
      assert s == [s[0]] + s[1..];
    }
  }

  lemma {:induction false} SurvivorsKeepAll(kept: Box, s: seq<Box>, iouThreshold: real)
    requires Separated([kept] + s, iouThreshold)
    ensures Survivors(kept, s, iouThreshold) == s
    decreases |s|
  {
    if s != [] {
      var w := [kept] + s;
      assert w[0] == kept && w[1] == s[0];
      assert !Suppresses(kept, s[0], iouThreshold);
      assert Separated([kept] + s[1..], iouThreshold) by {
        var v := [kept] + s[1..];
        forall p, q | 0 <= p < q < |v|
          ensures !Suppresses(v[p], v[q], iouThreshold)
        {
          assert v[q] == w[q + 1];
          if p == 0 {
            assert v[p] == w[0];
          } else {
            assert v[p] == w[p + 1];
          }
        }
      }
      SurvivorsKeepAll(kept, s[1..], iouThreshold);
      assert s == [s[0]] + s[1..];
    }
  }

  /** `nms`: the greedy scan over the stably sorted candidates. */
  function Nms(boxes: seq<Box>, confidenceThreshold: real, iouThreshold: real): seq<Box> {
    Greedy(SortByConfidence(boxes), confidenceThreshold, iouThreshold)
  }

  /** `nms` only deletes: its result is an ordered selection of the sorted
      candidates, no longer than the input, made of unmodified input boxes
      that all reach the confidence threshold. */
  lemma NmsSelects(boxes: seq<Box>, confidenceThreshold: real, iouThreshold: real)
    ensures IsSubsequence(Nms(boxes, confidenceThreshold, iouThreshold), SortByConfidence(boxes))
    ensures |Nms(boxes, confidenceThreshold, iouThreshold)| <= |boxes|
    ensures forall x :: x in Nms(boxes, confidenceThreshold, iouThreshold) ==>
      x in boxes && x.confidence >= confidenceThreshold
  {
    var sorted := SortByConfidence(boxes);
    var r := Greedy(sorted, confidenceThreshold, iouThreshold);
    GreedySelects(sorted, confidenceThreshold, iouThreshold);
    SubsequenceLength(r, sorted);
    SubsequenceMembers(r, sorted);
    assert |sorted| == |multiset(sorted)| == |multiset(boxes)| == |boxes|;
    assert forall x :: x in sorted ==> x in multiset(boxes);
  }

  /** The result of `nms` is in non-increasing confidence order. */
  lemma NmsSorted(boxes: seq<Box>, confidenceThreshold: real, iouThreshold: real)
    ensures SortedByConfidence(Nms(boxes, confidenceThreshold, iouThreshold))
  {
    var sorted := SortByConfidence(boxes);
    GreedySelects(sorted, confidenceThreshold, iouThreshold);
    SubsequenceOfSorted(Greedy(sorted, confidenceThreshold, iouThreshold), sorted);
  }

  /** No two boxes of the result overlap by more than the IoU threshold. */
  lemma NmsSeparated(boxes: seq<Box>, confidenceThreshold: real, iouThreshold: real)
    ensures Separated(Nms(boxes, confidenceThreshold, iouThreshold), iouThreshold)
  {
    GreedySeparated(SortByConfidence(boxes), confidenceThreshold, iouThreshold);
  }

  /** Every candidate that reaches the confidence threshold is either kept or
      suppressed by a kept box at least as confident as itself. */
  lemma NmsCovers(boxes: seq<Box>, confidenceThreshold: real, iouThreshold: real)
    ensures forall x :: x in boxes && x.confidence >= confidenceThreshold ==>
      x in Nms(boxes, confidenceThreshold, iouThreshold) ||
      exists y :: y in Nms(boxes, confidenceThreshold, iouThreshold) && Suppresses(y, x, iouThreshold) && y.confidence >= x.confidence
  {
    var sorted := SortByConfidence(boxes);
    GreedyCovers(sorted, confidenceThreshold, iouThreshold);
    assert forall x :: x in boxes ==> x in multiset(sorted);
  }

  /** If any candidate reaches the confidence threshold, the result starts
      with the most confident candidate (the first one in input order among
      equally confident ones). */
  lemma NmsKeepsMostConfident(boxes: seq<Box>, confidenceThreshold: real, iouThreshold: real)
    requires exists b :: b in boxes && b.confidence >= confidenceThreshold
    ensures Nms(boxes, confidenceThreshold, iouThreshold) != []
    ensures Nms(boxes, confidenceThreshold, iouThreshold)[0] == SortByConfidence(boxes)[0]
    ensures forall x :: x in boxes ==> x.confidence <= Nms(boxes, confidenceThreshold, iouThreshold)[0].confidence
  {
    var sorted := SortByConfidence(boxes);
    var b :| b in boxes && b.confidence >= confidenceThreshold;
    assert b in multiset(sorted);
    HeadIsMostConfident(sorted);
    assert forall x :: x in boxes ==> x in multiset(sorted);
  }

  /** Suppression is idempotent. */
  lemma NmsIdempotent(boxes: seq<Box>, confidenceThreshold: real, iouThreshold: real)
    ensures Nms(Nms(boxes, confidenceThreshold, iouThreshold), confidenceThreshold, iouThreshold)
         == Nms(boxes, confidenceThreshold, iouThreshold)
  {
    var r := Nms(boxes, confidenceThreshold, iouThreshold);
    NmsSelects(boxes, confidenceThreshold, iouThreshold);
    NmsSorted(boxes, confidenceThreshold, iouThreshold);
    NmsSeparated(boxes, confidenceThreshold, iouThreshold);
    SortOfSortedIsIdentity(r);
    GreedyFixpoint(r, confidenceThreshold, iouThreshold);
  }

  /** A single candidate comes back unchanged exactly when it reaches the
      confidence threshold. */
  lemma NmsSingleCandidate(b: Box, confidenceThreshold: real, iouThreshold: real)
    ensures Nms([b], confidenceThreshold, iouThreshold) == if b.confidence >= confidenceThreshold then [b] else []
  {
    assert [b][1..] == [];
    assert SortByConfidence([b]) == [b];
    assert Survivors(b, [], iouThreshold) == [];
    assert Greedy([], confidenceThreshold, iouThreshold) == [];
  }

  /** Two candidates with the same rectangle and confidences 0.9 and 0.7:
      with an IoU threshold of 0.5 only the 0.9 box is returned, in either
      input order. */
  lemma IdenticalRectanglesKeepMoreConfident()
    ensures Nms([Box(0, 0, 10, 10, 0.7, 0), Box(0, 0, 10, 10, 0.9, 0)], 0.5, 0.5) == [Box(0, 0, 10, 10, 0.9, 0)]
    ensures Nms([Box(0, 0, 10, 10, 0.9, 0), Box(0, 0, 10, 10, 0.7, 0)], 0.5, 0.5) == [Box(0, 0, 10, 10, 0.9, 0)]
  {
    var low, high := Box(0, 0, 10, 10, 0.7, 0), Box(0, 0, 10, 10, 0.9, 0);
    SortPair(low, high);
    SortPair(high, low);
    IdenticalRectanglesGreedy();
  }

  lemma IdenticalRectanglesGreedy()
    ensures Greedy([Box(0, 0, 10, 10, 0.9, 0), Box(0, 0, 10, 10, 0.7, 0)], 0.5, 0.5) == [Box(0, 0, 10, 10, 0.9, 0)]
  {
    var low, high := Box(0, 0, 10, 10, 0.7, 0), Box(0, 0, 10, 10, 0.9, 0);
    assert Intersection(high, low) == 100 && Union(high, low) == 100;
    assert IoU(high, low) == Finite(1.0);
    assert Survivors(high, [low], 0.5) == [];
  }

  /** A chain of overlaps: `b` overlaps `c` but not `a`. The kept `a` leaves
      `b` in place, and `b`, kept in turn, removes `c`; `c` is not kept in
      place of `b`. */
  lemma ChainKeepsMiddleBox()
    ensures Nms([Box(0, 0, 10, 10, 0.9, 0), Box(20, 0, 10, 10, 0.8, 0), Box(25, 0, 10, 10, 0.7, 0)], 0.5, 0.3)
         == [Box(0, 0, 10, 10, 0.9, 0), Box(20, 0, 10, 10, 0.8, 0)]
  {
    var a, b, c := Box(0, 0, 10, 10, 0.9, 0), Box(20, 0, 10, 10, 0.8, 0), Box(25, 0, 10, 10, 0.7, 0);
    assert SortedByConfidence([a, b, c]);
    SortOfSortedIsIdentity([a, b, c]);
    ChainGreedy();
  }

  lemma ChainGreedy()
    ensures Greedy([Box(0, 0, 10, 10, 0.9, 0), Box(20, 0, 10, 10, 0.8, 0), Box(25, 0, 10, 10, 0.7, 0)], 0.5, 0.3)
         == [Box(0, 0, 10, 10, 0.9, 0), Box(20, 0, 10, 10, 0.8, 0)]
  {
    var a, b, c := Box(0, 0, 10, 10, 0.9, 0), Box(20, 0, 10, 10, 0.8, 0), Box(25, 0, 10, 10, 0.7, 0);
    ChainFirstStep();
    ChainSecondStep();
    assert [a, b, c][1..] == [b, c];
  }

  lemma ChainFirstStep()
    ensures Survivors(Box(0, 0, 10, 10, 0.9, 0), [Box(20, 0, 10, 10, 0.8, 0), Box(25, 0, 10, 10, 0.7, 0)], 0.3)
         == [Box(20, 0, 10, 10, 0.8, 0), Box(25, 0, 10, 10, 0.7, 0)]
  {
    var a, b, c := Box(0, 0, 10, 10, 0.9, 0), Box(20, 0, 10, 10, 0.8, 0), Box(25, 0, 10, 10, 0.7, 0);
    ApartNeverSuppresses(a, b, 0.3);
    ChainLastSurvives();
    assert [b, c][1..] == [c];
  }

  lemma ChainLastSurvives()
    ensures Survivors(Box(0, 0, 10, 10, 0.9, 0), [Box(25, 0, 10, 10, 0.7, 0)], 0.3) == [Box(25, 0, 10, 10, 0.7, 0)]
  {
    var a, c := Box(0, 0, 10, 10, 0.9, 0), Box(25, 0, 10, 10, 0.7, 0);
    ApartNeverSuppresses(a, c, 0.3);
    assert [c][1..] == [];
  }

  /** A well-formed box that ends, horizontally, before another one starts
      does not intersect it, so it never suppresses it at a non-negative
      threshold. */
  lemma ApartNeverSuppresses(a: Box, b: Box, iouThreshold: real)
    requires WellFormed(a) && WellFormed(b) && a.x + a.width <= b.x
    requires iouThreshold >= 0.0
    ensures Intersection(a, b) == 0
    ensures !Suppresses(a, b, iouThreshold)
  {
    var w := Overlap(a.x, a.width, b.x, b.width);
    assert w == 0;
    assert Intersection(a, b) == w * Overlap(a.y, a.height, b.y, b.height);
    var u := Union(a, b);
    if u != 0 {
      assert IoU(a, b) == Finite(0 as real / u as real);
    }
  }

  lemma ChainSecondStep()
    ensures Greedy([Box(20, 0, 10, 10, 0.8, 0), Box(25, 0, 10, 10, 0.7, 0)], 0.5, 0.3) == [Box(20, 0, 10, 10, 0.8, 0)]
  {
    var b, c := Box(20, 0, 10, 10, 0.8, 0), Box(25, 0, 10, 10, 0.7, 0);
    assert Overlap(20, 10, 25, 10) == 5 && Overlap(0, 10, 0, 10) == 10;
    assert Intersection(b, c) == 50 && Union(b, c) == 150;
    assert IoU(b, c) == Finite(50.0 / 150.0);
    assert Suppresses(b, c, 0.3);
    assert Survivors(b, [c], 0.3) == [];
    assert [b, c][1..] == [c];
  }

  /** Two candidates whose IoU is exactly 0.5: with a threshold of 0.5 the
      comparison is strict, so both survive. */
  lemma IoUAtThresholdKeepsBoth()
    ensures Nms([Box(0, 0, 10, 10, 0.9, 0), Box(0, 0, 10, 5, 0.7, 1)], 0.5, 0.5)
         == [Box(0, 0, 10, 10, 0.9, 0), Box(0, 0, 10, 5, 0.7, 1)]
  {
    var high, low := Box(0, 0, 10, 10, 0.9, 0), Box(0, 0, 10, 5, 0.7, 1);
    SortPair(high, low);
    assert Intersection(high, low) == 50 && Union(high, low) == 100;
    assert IoU(high, low) == Finite(0.5);
    assert Survivors(high, [low], 0.5) == [low];
    assert Greedy([low], 0.5, 0.5) == [low];
  }

  /** `nms` as written: sort in place, then walk the list with index `i`;
      a box below the confidence threshold is passed over, any other box is
      added to the result and removes the later boxes it suppresses. */
  method Suppress(boxes: seq<Box>, confidenceThreshold: real, iouThreshold: real) returns (result: seq<Box>)
    ensures result == Nms(boxes, confidenceThreshold, iouThreshold)
  {
    var work := SortByConfidence(boxes);
    ghost var target := Greedy(work, confidenceThreshold, iouThreshold);
    result := [];
    var i := 0;
    while i < |work|
      invariant 0 <= i <= |work|
      invariant result + Greedy(work[i..], confidenceThreshold, iouThreshold) == target
      decreases |work| - i
    {
      GreedyStep(work, i, confidenceThreshold, iouThreshold);
      if work[i].confidence < confidenceThreshold {
        i := i + 1;
        continue;
      }
      result := result + [work[i]];
      work := RemoveSuppressed(work, i, iouThreshold);
      i := i + 1;
    }
  }

  lemma GreedyStep(work: seq<Box>, i: nat, confidenceThreshold: real, iouThreshold: real)
    requires i < |work|
    ensures Greedy(work[i..], confidenceThreshold, iouThreshold)
         == if work[i].confidence < confidenceThreshold then Greedy(work[i + 1..], confidenceThreshold, iouThreshold)
            else [work[i]] + Greedy(Survivors(work[i], work[i + 1..], iouThreshold), confidenceThreshold, iouThreshold)
  {
    assert work[i..][1..] == work[i + 1..];
  }

  /** The inner loop of `nms`: `remove(j)` followed by `--j`, so that the box
      shifted into position `j` is compared next. Every box after `i` that
      the box at `i` suppresses is removed; the rest keep their order. */
  method RemoveSuppressed(boxes: seq<Box>, i: nat, iouThreshold: real) returns (work: seq<Box>)
    requires i < |boxes|
    ensures work == boxes[..i + 1] + Survivors(boxes[i], boxes[i + 1..], iouThreshold)
  {
    work := boxes;
    ghost var kept := boxes[i];
    ghost var tail := boxes[i + 1..];
    ghost var seen := 0;
    var j := i + 1;
    while j < |work|
      invariant i + 1 <= j <= |work|
      invariant 0 <= seen <= |tail|
      invariant work[..i + 1] == boxes[..i + 1]
      invariant work[i + 1..j] == Survivors(kept, tail[..seen], iouThreshold)
      invariant work[j..] == tail[seen..]
      decreases |work| - j
    {
      assert tail[..seen + 1] == tail[..seen] + [tail[seen]];
      SurvivorsAppend(kept, tail[..seen], tail[seen], iouThreshold);
      assert work[i] == kept;
      assert work[j] == tail[seen];
      var iou := IoU(work[i], work[j]);
      if Exceeds(iou, iouThreshold) {
        work := work[..j] + work[j + 1..];
        j := j - 1;
      }
      j := j + 1;
      seen := seen + 1;
    }
    assert tail[..seen] == tail;
    assert work == work[..i + 1] + work[i + 1..j];
  }
}
