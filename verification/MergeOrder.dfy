/**
 * Orders, runs and stable rearrangements of sequences: what the natural
 * merge sort of lib/kernel/list.c keeps and what it counts down. A
 * range is given by the positions lo up to hi, exclusive.
 */
module MergeOrder {
  /** less is a strict weak order on the elements of dom. */
  ghost predicate StrictWeak<X>(less: (X, X) -> bool, dom: set<X>) {
    && (forall x, y :: x in dom && y in dom && less(x, y) ==> !less(y, x))
    && (forall x, y, z :: x in dom && y in dom && z in dom && less(x, z) ==> less(x, y) || less(y, z))
  }

  ghost predicate Within<X>(s: seq<X>, lo: int, hi: int, dom: set<X>) {
    0 <= lo <= hi <= |s| && forall i :: lo <= i < hi ==> s[i] in dom
  }

  /** No element is less than the one before it: what is_sorted checks. */
  ghost predicate Sorted<X>(less: (X, X) -> bool, s: seq<X>, lo: int, hi: int) {
    0 <= lo <= hi <= |s| && forall i :: lo < i < hi ==> !less(s[i], s[i - 1])
  }

  /** ... and so no element is less than any before it. */
  lemma {:induction false} SortedPairs<X>(less: (X, X) -> bool, s: seq<X>, lo: int, hi: int, dom: set<X>, i: int, j: int)
    requires Sorted(less, s, lo, hi) && StrictWeak(less, dom) && Within(s, lo, hi, dom) && lo <= i <= j < hi
    ensures !less(s[j], s[i])
    decreases j - i
  {
    if i < j {
      SortedPairs(less, s, lo, hi, dom, i, j - 1);
      assert !less(s[j], s[j - 1]);
      assert s[i] in dom && s[j] in dom && s[j - 1] in dom;
    } else {
      assert s[i] in dom;
    }
  }

  // ------------------------------------------------------------------ runs

  /** The number of maximal sorted runs in a range. */
  ghost function Runs<X>(less: (X, X) -> bool, s: seq<X>, lo: int, hi: int): nat
    requires 0 <= lo <= hi <= |s|
    decreases hi - lo
  {
    if hi == lo then 0
    else Runs(less, s, lo, hi - 1) + (if hi - 1 == lo || less(s[hi - 1], s[hi - 2]) then 1 else 0)
  }

  lemma {:induction false} RunsPositive<X>(less: (X, X) -> bool, s: seq<X>, lo: int, hi: int)
    requires 0 <= lo < hi <= |s|
    ensures Runs(less, s, lo, hi) >= 1
    decreases hi - lo
  {
    if lo < hi - 1 { RunsPositive(less, s, lo, hi - 1); }
  }

  /** At most one run: the range is sorted. */
  lemma {:induction false} OneRun<X>(less: (X, X) -> bool, s: seq<X>, lo: int, hi: int)
    requires 0 <= lo <= hi <= |s| && Runs(less, s, lo, hi) <= 1
    ensures Sorted(less, s, lo, hi)
    decreases hi - lo
  {
    if lo < hi - 1 {
      RunsPositive(less, s, lo, hi - 1);
      OneRun(less, s, lo, hi - 1);
    }
  }

  /** A sorted stretch from mid on adds a run only where it begins. */
  lemma {:induction false} RunsExtended<X>(less: (X, X) -> bool, s: seq<X>, lo: int, mid: int, hi: int)
    requires 0 <= lo <= mid < hi <= |s| && Sorted(less, s, mid, hi)
    ensures Runs(less, s, lo, hi) == Runs(less, s, lo, mid) + (if mid == lo || less(s[mid], s[mid - 1]) then 1 else 0)
    decreases hi - mid
  {
    if mid < hi - 1 { RunsExtended(less, s, lo, mid, hi - 1); }
  }

  lemma {:induction false} RunsSame<X>(less: (X, X) -> bool, s: seq<X>, s': seq<X>, lo: int, hi: int)
    requires 0 <= lo <= hi <= |s| && |s'| == |s| && forall i :: lo <= i < hi ==> s'[i] == s[i]
    ensures Runs(less, s', lo, hi) == Runs(less, s, lo, hi)
    decreases hi - lo
  {
    if lo < hi { RunsSame(less, s, s', lo, hi - 1); }
  }

  // -------------------------------------------------------- stable rearranging

  ghost predicate Before<X>(s: seq<X>, x: X, y: X) {
    exists i, j :: 0 <= i < j < |s| && s[i] == x && s[j] == y
  }

  /** s' holds the elements of s, and only elements that are less were brought forward. */
  ghost predicate Rearranged<X>(less: (X, X) -> bool, s: seq<X>, s': seq<X>) {
    && |s'| == |s| && multiset(s') == multiset(s)
    && forall i, j :: 0 <= i < j < |s'| ==> Before(s, s'[i], s'[j]) || less(s'[i], s'[j])
  }

  lemma RearrangedSelf<X>(less: (X, X) -> bool, s: seq<X>)
    ensures Rearranged(less, s, s)
  {}

  lemma RearrangedTwice<X>(less: (X, X) -> bool, s: seq<X>, s': seq<X>, s'': seq<X>)
    requires Rearranged(less, s, s') && Rearranged(less, s', s'')
    ensures Rearranged(less, s, s'')
  {
    forall i, j | 0 <= i < j < |s''| ensures Before(s, s''[i], s''[j]) || less(s''[i], s''[j]) {
      if !less(s''[i], s''[j]) {
        assert Before(s', s''[i], s''[j]);
        var p, q :| 0 <= p < q < |s'| && s'[p] == s''[i] && s'[q] == s''[j];
      }
    }
  }

  /** Elements that neither is less than the other keep their order. */
  ghost predicate Stable<X>(less: (X, X) -> bool, s: seq<X>, s': seq<X>) {
    forall i, j :: 0 <= i < j < |s'| && !less(s'[i], s'[j]) && !less(s'[j], s'[i]) ==> Before(s, s'[i], s'[j])
  }

  lemma RearrangedStable<X>(less: (X, X) -> bool, s: seq<X>, s': seq<X>)
    requires Rearranged(less, s, s')
    ensures Stable(less, s, s') && multiset(s') == multiset(s)
  {
    hide Before;
  }

  /** The elements y up to z moved to just before the elements x up to y. */
  function Rotated<X>(s: seq<X>, x: int, y: int, z: int): (r: seq<X>)
    requires 0 <= x <= y <= z <= |s|
    ensures |r| == |s|
    ensures forall i :: 0 <= i < x ==> r[i] == s[i]
    ensures forall i :: x <= i < x + z - y ==> r[i] == s[i - x + y]
    ensures forall i :: x + z - y <= i < z ==> r[i] == s[i - z + y]
    ensures forall i :: z <= i < |s| ==> r[i] == s[i]
  {
    s[..x] + s[y..z] + s[x..y] + s[z..]
  }

  lemma RotatedElements<X>(s: seq<X>, x: int, y: int, z: int)
    requires 0 <= x <= y <= z <= |s|
    ensures multiset(Rotated(s, x, y, z)) == multiset(s)
  {
    assert s == s[..x] + s[x..y] + s[y..z] + s[z..];
  }

  /** Moving one element forward over elements that it is less than. */
  lemma BroughtForward<X>(less: (X, X) -> bool, s: seq<X>, p: int, m: int)
    requires 0 <= p < m < |s| && forall i :: p <= i < m ==> less(s[m], s[i])
    ensures Rearranged(less, s, Rotated(s, p, m, m + 1))
  {
    var r := Rotated(s, p, m, m + 1);
    RotatedElements(s, p, m, m + 1);
    forall i, j | 0 <= i < j < |r| ensures Before(s, r[i], r[j]) || less(r[i], r[j]) {
      var i' := if i == p then m else if p < i <= m then i - 1 else i;
      var j' := if j == p then m else if p < j <= m then j - 1 else j;
      assert r[i] == s[i'] && r[j] == s[j'];
    }
  }

  // ------------------------------------------------------------ merging in place

  /** No element of the range from mid on is less than one before mid. */
  ghost predicate Split<X>(less: (X, X) -> bool, s: seq<X>, lo: int, mid: int, hi: int) {
    0 <= lo <= mid <= hi <= |s| && forall i, j :: lo <= i < mid <= j < hi ==> !less(s[j], s[i])
  }

  /** Half way through a merge: s[lo..p] is final, s[p..m] and s[m..hi] are left to merge. */
  ghost predicate Merging<X>(less: (X, X) -> bool, s0: seq<X>, s: seq<X>, lo: int, p: int, m: int, hi: int, dom: set<X>) {
    && 0 <= lo <= p <= m <= hi <= |s| && |s| == |s0| && StrictWeak(less, dom) && Within(s, lo, hi, dom)
    && Sorted(less, s, lo, p) && Split(less, s, lo, p, hi) && Sorted(less, s, p, m) && Sorted(less, s, m, hi)
    && Rearranged(less, s0, s)
    && (forall i :: 0 <= i < lo || hi <= i < |s| ==> s[i] == s0[i])
  }

  /** The head of the first run is not greater: it stays where it is. */
  lemma MergeKeeps<X>(less: (X, X) -> bool, s0: seq<X>, s: seq<X>, lo: int, p: int, m: int, hi: int, dom: set<X>)
    requires Merging(less, s0, s, lo, p, m, hi, dom) && p < m < hi && !less(s[m], s[p])
    ensures Merging(less, s0, s, lo, p + 1, m, hi, dom)
  {
    forall j | p < j < hi ensures !less(s[j], s[p]) {
      if j < m {
        SortedPairs(less, s, p, m, dom, p, j);
      } else {
        SortedPairs(less, s, m, hi, dom, m, j);
        assert s[j] in dom && s[m] in dom && s[p] in dom;
      }
    }
    hide Rearranged;
  }

  /** The head of the second run is less: it comes forward. */
  lemma MergeMoves<X>(less: (X, X) -> bool, s0: seq<X>, s: seq<X>, lo: int, p: int, m: int, hi: int, dom: set<X>)
    requires Merging(less, s0, s, lo, p, m, hi, dom) && p < m < hi && less(s[m], s[p])
    ensures Merging(less, s0, Rotated(s, p, m, m + 1), lo, p + 1, m + 1, hi, dom)
  {
    var r := Rotated(s, p, m, m + 1);
    forall i | p <= i < m ensures less(s[m], s[i]) && !less(s[i], s[m]) {
      SortedPairs(less, s, p, m, dom, p, i);
      assert s[i] in dom && s[m] in dom && s[p] in dom;
    }
    BroughtForward(less, s, p, m);
    RearrangedTwice(less, s0, s, r);
    hide Rearranged;
    assert Split(less, r, lo, p + 1, hi) by { MovedSplit(less, s, lo, p, m, hi, dom); }
    assert Within(r, lo, hi, dom);
    assert Sorted(less, r, lo, p + 1);
    assert Sorted(less, r, p + 1, m + 1) && Sorted(less, r, m + 1, hi);
  }

  lemma MovedSplit<X>(less: (X, X) -> bool, s: seq<X>, lo: int, p: int, m: int, hi: int, dom: set<X>)
    requires StrictWeak(less, dom) && Within(s, lo, hi, dom) && lo <= p < m < hi
    requires Split(less, s, lo, p, hi) && Sorted(less, s, m, hi) && forall i :: p <= i < m ==> !less(s[i], s[m])
    ensures Split(less, Rotated(s, p, m, m + 1), lo, p + 1, hi)
  {
    var r := Rotated(s, p, m, m + 1);
    forall i, j | lo <= i < p + 1 <= j < hi ensures !less(r[j], r[i]) {
      var j' := if j <= m then j - 1 else j;
      assert r[j] == s[j'];
      if i == p && j > m { SortedPairs(less, s, m, hi, dom, m, j); }
    }
  }

  /** One of the runs is used up: the whole range is sorted. */
  lemma MergeDone<X>(less: (X, X) -> bool, s0: seq<X>, s: seq<X>, lo: int, p: int, m: int, hi: int, dom: set<X>)
    requires Merging(less, s0, s, lo, p, m, hi, dom) && (p == m || m == hi)
    ensures Sorted(less, s, lo, hi)
  {
    hide Rearranged;
    forall i | lo < i < hi ensures !less(s[i], s[i - 1]) {}
  }

  // ------------------------------------------------------------- one pass

  /**
   * Half way through a pass over s0[lo..hi]: the first cnt pairs of its
   * runs, up to a, have become at most cnt runs of s; the rest is as it was.
   */
  ghost predicate Passing<X>(less: (X, X) -> bool, s0: seq<X>, s: seq<X>, lo: int, a: int, hi: int, cnt: nat, dom: set<X>) {
    && 0 <= lo <= a <= hi <= |s| && |s| == |s0| && StrictWeak(less, dom) && Within(s, lo, hi, dom)
    && Rearranged(less, s0, s)
    && (forall i :: 0 <= i < lo || a <= i < |s| ==> s[i] == s0[i])
    && Runs(less, s0, lo, a) == 2 * cnt && Runs(less, s, lo, a) <= cnt
    && (a == lo || a == hi || less(s0[a], s0[a - 1]))
  }

  lemma PassStarts<X>(less: (X, X) -> bool, s: seq<X>, lo: int, hi: int, dom: set<X>)
    requires 0 <= lo <= hi <= |s| && StrictWeak(less, dom) && Within(s, lo, hi, dom)
    ensures Passing(less, s, s, lo, lo, hi, 0, dom)
  {
    RearrangedSelf(less, s);
    hide Rearranged, StrictWeak;
  }

  /** Two runs, from a to m and from m to b, were merged into one. */
  lemma PassMerges<X>(less: (X, X) -> bool, s0: seq<X>, s: seq<X>, s': seq<X>, lo: int, a: int, m: int, b: int, hi: int,
                      cnt: nat, dom: set<X>)
    requires Passing(less, s0, s, lo, a, hi, cnt, dom) && a < m < b <= hi
    requires Sorted(less, s, a, m) && less(s[m], s[m - 1]) && Sorted(less, s, m, b) && (b < hi ==> less(s[b], s[b - 1]))
    requires |s'| == |s| && Rearranged(less, s, s') && Sorted(less, s', a, b) && Within(s', a, b, dom)
    requires forall i :: 0 <= i < a || b <= i < |s| ==> s'[i] == s[i]
    ensures Passing(less, s0, s', lo, b, hi, cnt + 1, dom)
  {
    hide Rearranged, StrictWeak, Runs;
    MergedRuns(less, s0, s, s', lo, a, m, b);
    RearrangedTwice(less, s0, s, s');
    hide Sorted;
  }

  lemma MergedRuns<X>(less: (X, X) -> bool, s0: seq<X>, s: seq<X>, s': seq<X>, lo: int, a: int, m: int, b: int)
    requires 0 <= lo <= a < m < b <= |s| && |s'| == |s| == |s0|
    requires forall i :: a <= i < b ==> s[i] == s0[i]
    requires a == lo || less(s0[a], s0[a - 1])
    requires Sorted(less, s, a, m) && less(s[m], s[m - 1]) && Sorted(less, s, m, b) && Sorted(less, s', a, b)
    requires forall i :: lo <= i < a ==> s'[i] == s[i]
    ensures Runs(less, s0, lo, b) == Runs(less, s0, lo, a) + 2
    ensures Runs(less, s', lo, b) <= Runs(less, s, lo, a) + 1
  {
    RunsExtended(less, s0, lo, a, m);
    RunsExtended(less, s0, lo, m, b);
    RunsExtended(less, s', lo, a, b);
    RunsSame(less, s, s', lo, a);
    hide Runs;
  }

  /** What a pass that output cnt runs has achieved. */
  ghost predicate Passed<X>(less: (X, X) -> bool, s0: seq<X>, s: seq<X>, lo: int, hi: int, cnt: nat) {
    && 0 <= lo <= hi <= |s| && |s| == |s0| && Rearranged(less, s0, s)
    && Runs(less, s, lo, hi) <= cnt && (cnt > 1 ==> Runs(less, s, lo, hi) < Runs(less, s0, lo, hi))
  }

  lemma PassEnds<X>(less: (X, X) -> bool, s0: seq<X>, s: seq<X>, lo: int, a: int, hi: int, cnt: nat, dom: set<X>)
    requires Passing(less, s0, s, lo, a, hi, cnt, dom) && Sorted(less, s, a, hi)
    ensures Passed(less, s0, s, lo, hi, if a < hi then cnt + 1 else cnt)
  {
    if a < hi {
      assert Sorted(less, s0, a, hi);
      RunsExtended(less, s0, lo, a, hi);
      RunsExtended(less, s, lo, a, hi);
    }
    hide Rearranged, Runs;
  }
}
