/** What a counting loop collects when each pass appends a sequence. */
module Scans {
  /** `f(lo) + f(lo + 1) + ... + f(hi - 1)`: the list built by
      `for (int i = lo; i < hi; ++i) out.addAll(f(i))`. */
  function Concat<T>(f: nat -> seq<T>, lo: nat, hi: nat): seq<T>
    decreases hi - lo
  {
    if lo >= hi then [] else f(lo) + Concat(f, lo + 1, hi)
  }

  /** An element is collected exactly when some pass appended it. */
  lemma {:induction false} ConcatMembers<T>(f: nat -> seq<T>, lo: nat, hi: nat)
    ensures forall b :: b in Concat(f, lo, hi) <==> exists i: nat :: lo <= i < hi && b in f(i)
    decreases hi - lo
  {
    if lo < hi {
      ConcatMembers(f, lo + 1, hi);
      assert Concat(f, lo, hi) == f(lo) + Concat(f, lo + 1, hi);
      forall b | exists i: nat :: lo <= i < hi && b in f(i)
        ensures b in Concat(f, lo, hi)
      {
        var i: nat :| lo <= i < hi && b in f(i);
        if i > lo {
          assert b in Concat(f, lo + 1, hi);
        }
      }
    }
  }

  /** At most `k` elements per pass give at most `k * (hi - lo)` in all. */
  lemma {:induction false} ConcatLength<T>(f: nat -> seq<T>, lo: nat, hi: nat, k: nat)
    requires lo <= hi
    requires forall i: nat :: lo <= i < hi ==> |f(i)| <= k
    ensures |Concat(f, lo, hi)| <= k * (hi - lo)
    decreases hi - lo
  {
    if lo < hi {
      ConcatLength(f, lo + 1, hi, k);
      assert Concat(f, lo, hi) == f(lo) + Concat(f, lo + 1, hi);
      MulSucc(k, hi - (lo + 1));
    }
  }

  lemma MulSucc(k: nat, n: nat)
    ensures k * (n + 1) == k * n + k
  {
  }
}
