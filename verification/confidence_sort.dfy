/** `boxes.sort(Collections.reverseOrder())`: a stable sort by descending
    confidence. `List.sort` is a stable merge sort; the model is a stable
    insertion sort, which yields the same (unique) stable order. */
module ConfidenceSort {
  import opened Boxes

  /** Confidences never increase along the sequence. */
  predicate SortedByConfidence(s: seq<Box>) {
    forall p, q :: 0 <= p < q < |s| ==> s[p].confidence >= s[q].confidence
  }

  /** The boxes of `s` whose confidence is exactly `c`, in their order in `s`. */
  function WithConfidence(s: seq<Box>, c: real): (r: seq<Box>)
    ensures forall x :: x in r <==> x in s && x.confidence == c
  {
    if s == [] then []
    else (if s[0].confidence == c then [s[0]] else []) + WithConfidence(s[1..], c)
  }

  /** Two sequences agree on the relative order of every group of equally
      confident boxes. */
  ghost predicate SameConfidenceGroups(u: seq<Box>, v: seq<Box>) {
    forall c :: WithConfidence(u, c) == WithConfidence(v, c)
  }

  lemma {:induction false} WithConfidenceConcat(a: seq<Box>, b: seq<Box>, c: real)
    ensures WithConfidence(a + b, c) == WithConfidence(a, c) + WithConfidence(b, c)
    decreases |a|
  {
    if a == [] {
      assert a + b == b;
    } else {
      assert (a + b)[1..] == a[1..] + b;
      WithConfidenceConcat(a[1..], b, c);
    }
  }

  /** Places `b` in front of the first box that the reverse comparator does
      not rank strictly before it, i.e. before every box of equal confidence. */
  function Insert(b: Box, t: seq<Box>): (r: seq<Box>)
    requires SortedByConfidence(t)
    ensures SortedByConfidence(r)
    ensures multiset(r) == multiset([b] + t)
    ensures SameConfidenceGroups(r, [b] + t)
    decreases |t|
  {
    if t == [] || ReverseOrder(b, t[0]) <= 0 then
      [b] + t
    else
      var rest := Insert(b, t[1..]);
      InsertBehindHead(b, t, rest);
      [t[0]] + rest
  }

  /** The step of `Insert` that keeps the head of `t` in front of `b`. */
  lemma InsertBehindHead(b: Box, t: seq<Box>, rest: seq<Box>)
    requires SortedByConfidence(t) && t != [] && t[0].confidence > b.confidence
    requires SortedByConfidence(rest)
    requires multiset(rest) == multiset([b] + t[1..])
    requires SameConfidenceGroups(rest, [b] + t[1..])
    ensures SortedByConfidence([t[0]] + rest)
    ensures multiset([t[0]] + rest) == multiset([b] + t)
    ensures SameConfidenceGroups([t[0]] + rest, [b] + t)
  {
    assert t == [t[0]] + t[1..];
    HeadDominatesRest(b, t, rest);
    PrependKeepsSorted(t[0], rest);
    forall c
      ensures WithConfidence([t[0]] + rest, c) == WithConfidence([b] + t, c)
    {
      SwapGroups(b, t, rest, c);
    }
  }

  lemma HeadDominatesRest(b: Box, t: seq<Box>, rest: seq<Box>)
    requires SortedByConfidence(t) && t != [] && t[0].confidence > b.confidence
    requires multiset(rest) == multiset([b] + t[1..])
    ensures forall x :: x in rest ==> x.confidence <= t[0].confidence
  {
    forall x | x in rest
      ensures x.confidence <= t[0].confidence
    {
      assert x in multiset([b] + t[1..]);
      if x != b {
        assert x in t[1..];
        var k :| 0 <= k < |t[1..]| && t[1..][k] == x;
        assert t[k + 1] == x;
      }
    }
  }

  lemma PrependKeepsSorted(h: Box, rest: seq<Box>)
    requires SortedByConfidence(rest)
    requires forall x :: x in rest ==> x.confidence <= h.confidence
    ensures SortedByConfidence([h] + rest)
  {
    var r := [h] + rest;
    forall p, q | 0 <= p < q < |r|
      ensures r[p].confidence >= r[q].confidence
    {
      assert r[q] == rest[q - 1];
      if p > 0 {
        assert r[p] == rest[p - 1];
      }
    }
  }

  lemma SwapGroups(b: Box, t: seq<Box>, rest: seq<Box>, c: real)
    requires t != [] && t[0].confidence != b.confidence
    requires WithConfidence(rest, c) == WithConfidence([b] + t[1..], c)
    ensures WithConfidence([t[0]] + rest, c) == WithConfidence([b] + t, c)
  {
    var h, tail := t[0], WithConfidence(t[1..], c);
    WithConfidenceCons(h, rest, c);
    WithConfidenceCons(b, t[1..], c);
    WithConfidenceCons(b, t, c);
    assert t == [h] + t[1..];
    WithConfidenceCons(h, t[1..], c);
    SwapFronts(Group(h, c), Group(b, c), tail);
  }

  /** The singleton group of `h` for confidence `c`, or nothing. */
  function Group(h: Box, c: real): seq<Box> {
    if h.confidence == c then [h] else []
  }

  lemma SwapFronts(x: seq<Box>, y: seq<Box>, tail: seq<Box>)
    requires x == [] || y == []
    ensures x + (y + tail) == y + (x + tail)
  {
    if x == [] {
      assert x + (y + tail) == y + tail;
    } else {
      assert x + (y + tail) == x + tail;
    }
  }

  lemma WithConfidenceCons(h: Box, s: seq<Box>, c: real)
    ensures WithConfidence([h] + s, c) == Group(h, c) + WithConfidence(s, c)
  {
    assert ([h] + s)[1..] == s;
  }

  /** Two boxes: the more confident goes first, and a tie keeps the input
      order. */
  lemma SortPair(a: Box, b: Box)
    ensures SortByConfidence([a, b]) == if a.confidence < b.confidence then [b, a] else [a, b]
  {
    assert [a, b][1..] == [b];
    assert [b][1..] == [];
    assert SortByConfidence([b]) == [b];
    if a.confidence < b.confidence {
      assert [b][1..] == [];
      assert Insert(a, [b]) == [b] + Insert(a, []);
    } else {
      assert Insert(a, [b]) == [a, b];
    }
  }

  /** The stable descending sort: sorted, a permutation of the input, and
      equal-confidence boxes keep their input order. */
  function SortByConfidence(s: seq<Box>): (r: seq<Box>)
    ensures SortedByConfidence(r)
    ensures multiset(r) == multiset(s)
    ensures SameConfidenceGroups(r, s)
  {
    if s == [] then []
    else
      var tail := SortByConfidence(s[1..]);
      var r := Insert(s[0], tail);
      SortStep(s, tail, r);
      r
  }

  lemma SortStep(s: seq<Box>, tail: seq<Box>, r: seq<Box>)
    requires s != []
    requires multiset(tail) == multiset(s[1..]) && SameConfidenceGroups(tail, s[1..])
    requires multiset(r) == multiset([s[0]] + tail) && SameConfidenceGroups(r, [s[0]] + tail)
    ensures multiset(r) == multiset(s)
    ensures SameConfidenceGroups(r, s)
  {
    assert s == [s[0]] + s[1..];
    forall c
      ensures WithConfidence(r, c) == WithConfidence(s, c)
    {
      WithConfidenceConcat([s[0]], tail, c);
      WithConfidenceConcat([s[0]], s[1..], c);
      assert WithConfidence(tail, c) == WithConfidence(s[1..], c);
    }
  }

  /** Two sorted sequences with the same confidence groups start with the
      same box. */
  lemma HeadsAgree(u: seq<Box>, v: seq<Box>)
    requires SortedByConfidence(u) && SortedByConfidence(v)
    requires SameConfidenceGroups(u, v)
    requires u != [] && v != []
    ensures u[0] == v[0]
  {
    var c, d := u[0].confidence, v[0].confidence;
    GroupHead(u);
    GroupHead(v);
    assert v[0] in u by {
      assert v[0] in WithConfidence(v, d);
      assert WithConfidence(u, d) == WithConfidence(v, d);
    }
    assert u[0] in v by {
      assert u[0] in WithConfidence(u, c);
      assert WithConfidence(u, c) == WithConfidence(v, c);
    }
    HeadIsMostConfident(u);
    HeadIsMostConfident(v);
    assert c == d;
    assert WithConfidence(u, c) == WithConfidence(v, c);
  }

  /** The group of the first box starts with that box. */
  lemma GroupHead(s: seq<Box>)
    requires s != []
    ensures WithConfidence(s, s[0].confidence) != []
    ensures WithConfidence(s, s[0].confidence)[0] == s[0]
  {
    assert WithConfidence(s, s[0].confidence) == [s[0]] + WithConfidence(s[1..], s[0].confidence);
  }

  /** Removing an equal head from both sides keeps the groups equal. */
  lemma GroupsOfTails(u: seq<Box>, v: seq<Box>)
    requires u != [] && v != [] && u[0] == v[0]
    requires SameConfidenceGroups(u, v)
    ensures SameConfidenceGroups(u[1..], v[1..])
  {
    forall e
      ensures WithConfidence(u[1..], e) == WithConfidence(v[1..], e)
    {
      var h := WithConfidence([u[0]], e);
      assert u == [u[0]] + u[1..] && v == [v[0]] + v[1..];
      WithConfidenceConcat([u[0]], u[1..], e);
      WithConfidenceConcat([v[0]], v[1..], e);
      assert h + WithConfidence(u[1..], e) == h + WithConfidence(v[1..], e);
      assert (h + WithConfidence(u[1..], e))[|h|..] == WithConfidence(u[1..], e);
      assert (h + WithConfidence(v[1..], e))[|h|..] == WithConfidence(v[1..], e);
    }
  }

  lemma NonEmptyHasGroup(s: seq<Box>)
    ensures s != [] ==> WithConfidence(s, s[0].confidence) != []
  {
  }

  /** Sortedness together with the order inside every confidence group fixes
      the sequence completely: a stable sort has exactly one possible result. */
  lemma {:induction false} StableOrderUnique(u: seq<Box>, v: seq<Box>)
    requires SortedByConfidence(u) && SortedByConfidence(v)
    requires SameConfidenceGroups(u, v)
    ensures u == v
    decreases |u|
  {
    EmptyTogether(u, v);
    if u != [] {
      HeadsAgree(u, v);
      GroupsOfTails(u, v);
      SortedTail(u);
      SortedTail(v);
      StableOrderUnique(u[1..], v[1..]);
      assert u == [u[0]] + u[1..];
      assert v == [v[0]] + v[1..];
    }
  }

  /** Sequences with the same confidence groups are empty together. */
  lemma EmptyTogether(u: seq<Box>, v: seq<Box>)
    requires SameConfidenceGroups(u, v)
    ensures u == [] <==> v == []
  {
    NonEmptyHasGroup(u);
    NonEmptyHasGroup(v);
    assert u != [] ==> WithConfidence(v, u[0].confidence) != [];
    assert v != [] ==> WithConfidence(u, v[0].confidence) != [];
  }

  lemma SortedTail(s: seq<Box>)
    requires SortedByConfidence(s) && s != []
    ensures SortedByConfidence(s[1..])
  {
    forall p, q | 0 <= p < q < |s| - 1
      ensures s[1..][p].confidence >= s[1..][q].confidence
    {
      assert s[1..][p] == s[p + 1] && s[1..][q] == s[q + 1];
    }
  }

  /** Any sorted rearrangement that keeps every confidence group in input
      order is the result of `SortByConfidence`. */
  lemma SortCharacterized(s: seq<Box>, r: seq<Box>)
    requires SortedByConfidence(r) && SameConfidenceGroups(r, s)
    ensures r == SortByConfidence(s)
  {
    StableOrderUnique(r, SortByConfidence(s));
  }

  /** Sorting an already sorted sequence leaves it unchanged. */
  lemma SortOfSortedIsIdentity(s: seq<Box>)
    requires SortedByConfidence(s)
    ensures SortByConfidence(s) == s
  {
    SortCharacterized(s, s);
  }

  /** The first box of a sorted sequence is at least as confident as every
      box in it. */
  lemma HeadIsMostConfident(s: seq<Box>)
    requires SortedByConfidence(s) && s != []
    ensures forall x :: x in s ==> x.confidence <= s[0].confidence
  {
    forall x | x in s
      ensures x.confidence <= s[0].confidence
    {
      var k :| 0 <= k < |s| && s[k] == x;
    }
  }
}
