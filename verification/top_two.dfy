/**
 * `get_top_two`: one pass over a range that keeps the position of the best
 * element (`j`) and of the runner-up (`k`), both starting at the first
 * position and moved only by strict `>` comparisons.
 */
module TopTwoSelection {

  /** `j` holds a largest value among the first `n` elements. */
  ghost predicate IsMaxAt(s: seq<int>, n: nat, j: nat)
    requires n <= |s|
  {
    j < n && forall p :: 0 <= p < n ==> s[p] <= s[j]
  }

  /** `j` is the first of the first `n` positions that holds their largest value. */
  ghost predicate IsEarliestMax(s: seq<int>, n: nat, j: nat)
    requires n <= |s|
  {
    IsMaxAt(s, n, j) && forall p :: 0 <= p < j ==> s[p] < s[j]
  }

  /**
   * Leaving position `j` aside, `k` is the first of the first `n` positions
   * that holds the largest remaining value.
   */
  ghost predicate IsEarliestMaxExcept(s: seq<int>, n: nat, j: nat, k: nat)
    requires n <= |s|
  {
    && k < n && k != j
    && (forall p :: 0 <= p < n && p != j ==> s[p] <= s[k])
    && (forall p :: 0 <= p < k && p != j ==> s[p] < s[k])
  }

  /** The pair `(j, k)` after the loop has visited positions `0 .. n-1`. */
  function Scan(s: seq<int>, n: nat): (r: (nat, nat))
    requires n <= |s|
    ensures n == 0 ==> r == (0, 0)
    ensures n > 0 ==> r.0 < n && r.1 < n
  {
    if n == 0 then (0, 0)
    else
      var (j, k) := Scan(s, n - 1);
      var i := n - 1;
      if s[i] > s[j] then (i, j)
      else if s[i] > s[k] then (j, i)
      else (j, k)
  }

  /**
   * The loop invariant of `get_top_two`: either the best is still the first
   * position, and then so is the runner-up, or the runner-up is the earliest
   * best of all other positions visited.
   */
  lemma {:induction false} ScanInvariant(s: seq<int>, n: nat)
    requires 0 < n <= |s|
    ensures IsEarliestMax(s, n, Scan(s, n).0)
    ensures Scan(s, n).0 == 0 ==> Scan(s, n).1 == 0
    ensures Scan(s, n).0 != 0 ==> IsEarliestMaxExcept(s, n, Scan(s, n).0, Scan(s, n).1)
  {
    if n > 1 {
      ScanInvariant(s, n - 1);
    }
  }

  /** `get_top_two(begin, end)` as positions relative to `begin`. */
  function TopTwo(s: seq<int>): (r: (nat, nat))
    ensures |s| > 0 ==> r.0 < |s| && r.1 < |s|
  {
    Scan(s, |s|)
  }

  /**
   * What `get_top_two` promises. On an empty range both results are the
   * start. Otherwise the first result is the earliest position of a largest
   * element. If that is the start, the second result is the start too;
   * if not, the second result is a different position, the earliest one
   * holding the largest value among all positions but the first result.
   */
  lemma TopTwoSpec(s: seq<int>)
    ensures |s| == 0 ==> TopTwo(s) == (0, 0)
    ensures |s| > 0 ==> forall p :: 0 <= p < |s| ==> s[p] <= s[TopTwo(s).0]
    ensures forall p :: 0 <= p < TopTwo(s).0 ==> s[p] < s[TopTwo(s).0]
    ensures TopTwo(s).0 == 0 ==> TopTwo(s).1 == 0
    ensures TopTwo(s).0 != 0 ==> TopTwo(s).1 != TopTwo(s).0
    ensures TopTwo(s).0 != 0 ==> forall p :: 0 <= p < |s| && p != TopTwo(s).0 ==> s[p] <= s[TopTwo(s).1]
    ensures TopTwo(s).0 != 0 ==> forall p :: 0 <= p < TopTwo(s).1 && p != TopTwo(s).0 ==> s[p] < s[TopTwo(s).1]
  {
    if |s| > 0 {
      ScanInvariant(s, |s|);
    }
  }

  /**
   * The first result is the only earliest maximum: any position with the
   * property that `TopTwo` promises is that result.
   */
  lemma BestIsUnique(s: seq<int>, j: nat)
    requires IsEarliestMax(s, |s|, j)
    ensures TopTwo(s).0 == j
  {
    TopTwoSpec(s);
  }

  /**
   * The quirk: both results are the first position exactly when the first
   * element is a largest one, however many other positions share or trail it.
   */
  lemma BothAtStartIffStartIsMax(s: seq<int>)
    requires |s| > 0
    ensures TopTwo(s) == (0, 0) <==> forall p :: 0 <= p < |s| ==> s[p] <= s[0]
  {
    TopTwoSpec(s);
    if forall p :: 0 <= p < |s| ==> s[p] <= s[0] {
      BestIsUnique(s, 0);
    }
  }

  /** The runner-up is never larger than the best. */
  lemma SecondAtMostBest(s: seq<int>)
    requires |s| > 0
    ensures s[TopTwo(s).1] <= s[TopTwo(s).0]
  {
    TopTwoSpec(s);
  }
}
