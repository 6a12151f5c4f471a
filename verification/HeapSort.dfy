/**
 * Heapsort and binary search (lib/stdlib.c). An element stands for its
 * size bytes; compare answers as strcmp does. Heap positions count from 1.
 */
module HeapSort {
  import opened Options

  /** compare orders all elements, some of them perhaps equally. */
  ghost predicate TotalPreorder<T(!new)>(compare: (T, T) -> int) {
    && (forall x, y :: compare(x, y) > 0 <==> compare(y, x) < 0)
    && (forall x, y, z :: compare(x, y) <= 0 && compare(y, z) <= 0 ==> compare(x, z) <= 0)
  }

  predicate AtMost<T>(compare: (T, T) -> int, x: T, y: T) { compare(x, y) <= 0 }

  ghost predicate Ascending<T>(compare: (T, T) -> int, s: seq<T>) {
    forall i, j :: 0 <= i < j < |s| ==> AtMost(compare, s[i], s[j])
  }

  /** The element at position j is at most its parent. */
  ghost predicate Below<T>(compare: (T, T) -> int, s: seq<T>, j: int)
    requires 2 <= j <= |s|
  {
    AtMost(compare, s[j - 1], s[j / 2 - 1])
  }

  /** Positions lo to cnt are a heap, except that the element at hole may be less than its children. */
  ghost predicate HeapBut<T>(compare: (T, T) -> int, s: seq<T>, lo: int, cnt: int, hole: int) {
    1 <= lo && cnt <= |s| && forall j :: 2 <= j <= cnt && lo <= j / 2 && j / 2 != hole ==> Below(compare, s, j)
  }

  ghost predicate Heap<T>(compare: (T, T) -> int, s: seq<T>, lo: int, cnt: int) { HeapBut(compare, s, lo, cnt, 0) }

  /** What is below the hole is at most what is above it. */
  ghost predicate Spans<T>(compare: (T, T) -> int, s: seq<T>, lo: int, cnt: int, hole: int)
    requires cnt <= |s|
  {
    lo <= hole / 2 && 1 <= hole / 2 ==> forall j :: 2 <= j <= cnt && j / 2 == hole ==> AtMost(compare, s[j - 1], s[hole / 2 - 1])
  }

  function Swapped<T>(s: seq<T>, i: int, j: int): seq<T>
    requires 0 <= i < |s| && 0 <= j < |s|
  {
    s[i := s[j]][j := s[i]]
  }

  lemma SwappedKeeps<T>(s: seq<T>, i: int, j: int)
    requires 0 <= i < |s| && 0 <= j < |s|
    ensures multiset(Swapped(s, i, j)) == multiset(s)
  {}

  /** Swapping with the larger child moves the hole there. */
  lemma HoleMoves<T(!new)>(compare: (T, T) -> int, s: seq<T>, lo: int, cnt: int, hole: int, max: int)
    requires TotalPreorder(compare) && HeapBut(compare, s, lo, cnt, hole) && lo <= hole < max <= cnt && max / 2 == hole
    requires Spans(compare, s, lo, cnt, hole)
    requires forall j :: 2 <= j <= cnt && j / 2 == hole ==> AtMost(compare, s[j - 1], s[max - 1])
    requires AtMost(compare, s[hole - 1], s[max - 1])
    ensures var s' := Swapped(s, hole - 1, max - 1); HeapBut(compare, s', lo, cnt, max) && Spans(compare, s', lo, cnt, max)
  {
    var s' := Swapped(s, hole - 1, max - 1);
    forall j | 2 <= j <= cnt && lo <= j / 2 && j / 2 != max ensures Below(compare, s', j) {
      if j / 2 != hole { assert Below(compare, s, j); }
    }
    forall j | 2 <= j <= cnt && j / 2 == max ensures AtMost(compare, s'[j - 1], s'[max / 2 - 1]) {
      assert Below(compare, s, j);
    }
  }

  /** Without a larger child there is no hole. */
  lemma HoleFilled<T>(compare: (T, T) -> int, s: seq<T>, lo: int, cnt: int, hole: int)
    requires HeapBut(compare, s, lo, cnt, hole) && lo <= hole
    requires forall j :: 2 <= j <= cnt && j / 2 == hole ==> AtMost(compare, s[j - 1], s[hole - 1])
    ensures Heap(compare, s, lo, cnt)
  {
    forall j | 2 <= j <= cnt && lo <= j / 2 ensures Below(compare, s, j) {}
  }

  /** The top of a heap is its largest element. */
  lemma {:induction false} TopLargest<T(!new)>(compare: (T, T) -> int, s: seq<T>, cnt: int, j: int)
    requires TotalPreorder(compare) && Heap(compare, s, 1, cnt) && 1 <= j <= cnt
    ensures AtMost(compare, s[j - 1], s[0])
  {
    if j > 1 {
      TopLargest(compare, s, cnt, j / 2);
      assert Below(compare, s, j);
    } else {
      assert compare(s[0], s[0]) <= 0;
    }
  }

  method DoSwap<T>(a: array<T>, i: int, j: int)
    requires 1 <= i <= a.Length && 1 <= j <= a.Length
    modifies a
    ensures a[..] == Swapped(old(a[..]), i - 1, j - 1) && multiset(a[..]) == multiset(old(a[..]))
  {
    SwappedKeeps(a[..], i - 1, j - 1);
    a[i - 1], a[j - 1] := a[j - 1], a[i - 1];
    assert a[..] == Swapped(old(a[..]), i - 1, j - 1);
  }

  /** The first cnt elements are rearranged and the others stay. */
  ghost predicate Permutes<T>(s: seq<T>, s': seq<T>, cnt: int) {
    0 <= cnt <= |s| && |s'| == |s| && s'[cnt..] == s[cnt..] && multiset(s'[..cnt]) == multiset(s[..cnt])
  }

  lemma PermutesSwapped<T>(s0: seq<T>, s: seq<T>, i: int, j: int, cnt: int)
    requires Permutes(s0, s, cnt) && 0 <= i < cnt && 0 <= j < cnt
    ensures Permutes(s0, Swapped(s, i, j), cnt)
  {
    assert Swapped(s, i, j)[..cnt] == Swapped(s[..cnt], i, j);
    SwappedKeeps(s[..cnt], i, j);
  }

  /** The largest of an element and its children. */
  method Largest<T(!new)>(a: array<T>, i: int, cnt: int, compare: (T, T) -> int) returns (max: int)
    requires TotalPreorder(compare) && 1 <= i <= cnt <= a.Length
    ensures max == i || (max / 2 == i && i < max <= cnt && AtMost(compare, a[i - 1], a[max - 1]))
    ensures forall j :: 2 <= j <= cnt && j / 2 == i ==> AtMost(compare, a[j - 1], a[max - 1])
  {
    var left, right := 2 * i, 2 * i + 1;
    max := i;
    if left <= cnt && compare(a[left - 1], a[max - 1]) > 0 { max := left; }
    if right <= cnt && compare(a[right - 1], a[max - 1]) > 0 { max := right; }
    assert left <= cnt ==> compare(a[left - 1], a[left - 1]) <= 0;
  }

  /** heapify: the element at i0 floats down to its place. */
  method Heapify<T(!new)>(a: array<T>, i0: int, cnt: int, compare: (T, T) -> int)
    requires TotalPreorder(compare) && 1 <= i0 <= cnt <= a.Length && HeapBut(compare, a[..], i0, cnt, i0)
    modifies a
    ensures Heap(compare, a[..], i0, cnt) && Permutes(old(a[..]), a[..], cnt)
  {
    hide TotalPreorder, HeapBut, Heap, Spans, Permutes;
    ghost var s0 := a[..];
    var i := i0;
    Begin(compare, s0, i0, cnt);
    while true
      invariant i0 <= i <= cnt && HeapBut(compare, a[..], i0, cnt, i) && Spans(compare, a[..], i0, cnt, i) && Permutes(s0, a[..], cnt)
      decreases cnt - i
    {
      var max := Largest(a, i, cnt, compare);
      ghost var s := a[..];
      if max == i {
        HoleFilled(compare, s, i0, cnt, i);
        break;
      }
      HoleMoves(compare, s, i0, cnt, i, max);
      PermutesSwapped(s0, s, i - 1, max - 1, cnt);
      DoSwap(a, i, max);
      i := max;
    }
  }

  lemma Begin<T>(compare: (T, T) -> int, s: seq<T>, lo: int, cnt: int)
    requires 1 <= lo <= cnt <= |s|
    ensures Spans(compare, s, lo, cnt, lo) && Permutes(s, s, cnt)
  {}

  /** Nothing in front is greater than what comes later, and that is in order. */
  ghost predicate Settled<T>(compare: (T, T) -> int, s: seq<T>, cnt: int) {
    0 <= cnt <= |s| && forall i, j :: 0 <= i < j < |s| && cnt <= j ==> AtMost(compare, s[i], s[j])
  }

  /** The largest of the front goes to its end. */
  lemma Settles<T(!new)>(compare: (T, T) -> int, s: seq<T>, cnt: int)
    requires TotalPreorder(compare) && Heap(compare, s, 1, cnt) && Settled(compare, s, cnt) && 1 < cnt
    ensures var s' := Swapped(s, 0, cnt - 1);
      Settled(compare, s', cnt - 1) && HeapBut(compare, s', 1, cnt - 1, 1) && multiset(s') == multiset(s)
  {
    var s' := Swapped(s, 0, cnt - 1);
    SwappedKeeps(s, 0, cnt - 1);
    forall i, j | 0 <= i < j < |s| && cnt - 1 <= j ensures AtMost(compare, s'[i], s'[j]) {
      if j == cnt - 1 { TopLargest(compare, s, cnt, if i == 0 then cnt else i + 1); }
    }
    forall j | 2 <= j <= cnt - 1 && 1 <= j / 2 && j / 2 != 1 ensures Below(compare, s', j) { assert Below(compare, s, j); }
  }

  /** Rearranging the front leaves the rest settled. */
  lemma StaysSettled<T(!new)>(compare: (T, T) -> int, s: seq<T>, s': seq<T>, cnt: int)
    requires Settled(compare, s, cnt) && Permutes(s, s', cnt)
    ensures Settled(compare, s', cnt) && multiset(s') == multiset(s)
  {
    assert s == s[..cnt] + s[cnt..] && s' == s'[..cnt] + s'[cnt..];
    forall i, j | 0 <= i < j < |s'| && cnt <= j ensures AtMost(compare, s'[i], s'[j]) {
      assert s'[j] == s'[cnt..][j - cnt] == s[cnt..][j - cnt] == s[j];
      if i < cnt {
        assert s'[i] in multiset(s'[..cnt]) by { assert s'[i] in s'[..cnt]; }
        assert s'[i] in s[..cnt];
        var k :| 0 <= k < cnt && s[k] == s'[i];
      } else {
        assert s'[i] == s'[cnt..][i - cnt] == s[cnt..][i - cnt] == s[i];
      }
    }
  }

  lemma Started<T>(compare: (T, T) -> int, s: seq<T>)
    ensures Heap(compare, s, |s| / 2 + 1, |s|) && Settled(compare, s, |s|)
  {}

  lemma OneMore<T>(compare: (T, T) -> int, s: seq<T>, lo: int)
    requires 1 < lo && Heap(compare, s, lo, |s|)
    ensures HeapBut(compare, s, lo - 1, |s|, lo - 1)
  {}

  lemma Finished<T>(compare: (T, T) -> int, s: seq<T>, cnt: int)
    requires Settled(compare, s, cnt) && cnt <= 1
    ensures Ascending(compare, s)
  {}

  /** sort. */
  method Sort<T(!new)>(a: array<T>, compare: (T, T) -> int)
    requires TotalPreorder(compare)
    modifies a
    ensures Ascending(compare, a[..]) && multiset(a[..]) == multiset(old(a[..]))
  {
    hide TotalPreorder, HeapBut, Heap, Permutes, Settled, Ascending;
    var cnt := a.Length;
    var i := cnt / 2;
    Started(compare, a[..]);
    while i > 0
      invariant 0 <= i <= cnt / 2 && Heap(compare, a[..], i + 1, cnt) && Settled(compare, a[..], cnt) && multiset(a[..]) == multiset(old(a[..]))
    {
      ghost var s := a[..];
      OneMore(compare, s, i + 1);
      Heapify(a, i, cnt, compare);
      StaysSettled(compare, s, a[..], cnt);
      i := i - 1;
    }
    i := cnt;
    while i > 1
      invariant i <= cnt && (i > 0 ==> Heap(compare, a[..], 1, i)) && Settled(compare, a[..], i) && multiset(a[..]) == multiset(old(a[..]))
    {
      Settles(compare, a[..], i);
      DoSwap(a, 1, i);
      ghost var s := a[..];
      Heapify(a, 1, i - 1, compare);
      StaysSettled(compare, s, a[..], i - 1);
      i := i - 1;
    }
    Finished(compare, a[..], i);
  }

  /** binary_search: the place of a match, or none. */
  method BinarySearch<T(!new)>(key: T, a: array<T>, compare: (T, T) -> int) returns (r: Option<nat>)
    requires TotalPreorder(compare) && Ascending(compare, a[..])
    ensures r.Some? ==> r.value < a.Length && compare(key, a[r.value]) == 0
    ensures r.None? ==> forall j :: 0 <= j < a.Length ==> compare(key, a[j]) != 0
  {
    var first, last := 0, a.Length;
    while first < last
      invariant 0 <= first <= last <= a.Length
      invariant forall j :: 0 <= j < first ==> compare(key, a[j]) > 0
      invariant forall j :: last <= j < a.Length ==> compare(key, a[j]) < 0
    {
      var range := last - first;
      var middle := first + range / 2;
      var cmp := compare(key, a[middle]);
      if cmp < 0 {
        Later(compare, a[..], key, middle);
        last := middle;
      } else if cmp > 0 {
        Earlier(compare, a[..], key, middle);
        first := middle + 1;
      } else {
        return Some(middle);
      }
    }
    return None;
  }

  lemma Later<T(!new)>(compare: (T, T) -> int, s: seq<T>, key: T, m: nat)
    requires TotalPreorder(compare) && Ascending(compare, s) && m < |s| && compare(key, s[m]) < 0
    ensures forall j :: m <= j < |s| ==> compare(key, s[j]) < 0
  {
    forall j | m <= j < |s| ensures compare(key, s[j]) < 0 {
      if j > m { assert AtMost(compare, s[m], s[j]); }
    }
  }

  lemma Earlier<T(!new)>(compare: (T, T) -> int, s: seq<T>, key: T, m: nat)
    requires TotalPreorder(compare) && Ascending(compare, s) && m < |s| && compare(key, s[m]) > 0
    ensures forall j :: 0 <= j <= m ==> compare(key, s[j]) > 0
  {
    forall j | 0 <= j <= m ensures compare(key, s[j]) > 0 {
      if j < m { assert AtMost(compare, s[j], s[m]); }
    }
  }

  /** Searching what was sorted finds a match just when there was one. */
  method SortAndSearch<T(!new)>(key: T, a: array<T>, compare: (T, T) -> int) returns (r: Option<nat>)
    requires TotalPreorder(compare)
    modifies a
    ensures multiset(a[..]) == multiset(old(a[..]))
    ensures r.Some? <==> exists x :: x in old(a[..]) && compare(key, x) == 0
    ensures r.Some? ==> r.value < a.Length && compare(key, a[r.value]) == 0
  {
    ghost var s0 := a[..];
    Sort(a, compare);
    r := BinarySearch(key, a, compare);
    assert forall x :: x in s0 <==> x in multiset(s0);
    assert forall x :: x in a[..] <==> x in multiset(a[..]);
    assert r.Some? ==> a[r.value] in a[..];
  }
}
