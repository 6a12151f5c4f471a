/**
 * The intrusive doubly linked list of lib/kernel/list.c and its
 * in-place natural merge sort.
 */
module ListSort {
  import opened MergeOrder

  class Elem {
    var prev: Elem?
    var next: Elem?

    constructor ()
      ensures prev == null && next == null
    {
      prev, next := null, null;
    }
  }

  /** nodes are linked to their neighbours in both directions, and nothing else is. */
  ghost predicate Chained(nodes: seq<Elem>)
    reads nodes
  {
    && |nodes| >= 2 && nodes[0].prev == null && nodes[|nodes| - 1].next == null
    && (forall i {:trigger nodes[i].next} :: 0 <= i < |nodes| - 1 ==> nodes[i].next == nodes[i + 1])
    && (forall i {:trigger nodes[i].prev} :: 0 < i < |nodes| ==> nodes[i].prev == nodes[i - 1])
  }

  ghost predicate Distinct(nodes: seq<Elem>) { forall i, j :: 0 <= i < j < |nodes| ==> nodes[i] != nodes[j] }

  /** The links once the elements at y up to z come before those at x up to y. */
  ghost predicate Relinked(s: seq<Elem>, x: int, y: int, z: int)
    reads s
  {
    && 0 < x < y < z < |s| && s[0].prev == null && s[|s| - 1].next == null
    && (forall i {:trigger s[i].next} :: 0 <= i < |s| - 1 ==>
          s[i].next == if i == x - 1 then s[y] else if i == z - 1 then s[x] else if i == y - 1 then s[z] else s[i + 1])
    && (forall i {:trigger s[i].prev} :: 0 < i < |s| ==>
          s[i].prev == if i == y then s[x - 1] else if i == x then s[z - 1] else if i == z then s[y - 1] else s[i - 1])
  }

  lemma RelinkedChained(s: seq<Elem>, x: int, y: int, z: int)
    requires Relinked(s, x, y, z)
    ensures Chained(Rotated(s, x, y, z))
  {
    var r := Rotated(s, x, y, z);
    forall i | 0 <= i < |r| ensures r[i] == s[Source(i, x, y, z)] {}
    hide Rotated;
    forall i | 0 <= i < |r| - 1 ensures r[i].next == r[i + 1] && r[i + 1].prev == r[i] {
      RelinkedAt(s, x, y, z, i);
    }
    hide Relinked;
  }

  lemma RelinkedAt(s: seq<Elem>, x: int, y: int, z: int, i: int)
    requires Relinked(s, x, y, z) && 0 <= i < |s| - 1
    ensures var k, k' := Source(i, x, y, z), Source(i + 1, x, y, z);
      0 <= k < |s| && 0 <= k' < |s| && s[k].next == s[k'] && s[k'].prev == s[k]
  {
    var k, k' := Source(i, x, y, z), Source(i + 1, x, y, z);
    assert 0 <= k < |s| - 1 && 0 < k' < |s|;
    assert s[k].next == s[k'];
    assert s[k'].prev == s[k];
  }

  /** Where the element at i of a rotated sequence came from. */
  function Source(i: int, x: int, y: int, z: int): int {
    if i < x then i else if i < x + z - y then i - x + y else if i < z then i - z + y else i
  }

  /** The list after the elements at f up to l were moved to just before the one at b. */
  ghost function Spliced(s: seq<Elem>, b: int, f: int, l: int): seq<Elem>
    requires 0 <= f <= l <= |s| && 0 <= b <= |s|
  {
    if b < f then Rotated(s, b, f, l) else if l <= b then Rotated(s, f, l, b) else s
  }

  lemma SplicedShape(s: seq<Elem>, b: int, f: int, l: int)
    requires Distinct(s) && 0 < f <= l < |s| && 0 < b < |s|
    ensures var r := Spliced(s, b, f, l);
      |r| == |s| && r[0] == s[0] && r[|r| - 1] == s[|s| - 1] && Distinct(r) && (b == l || f == l ==> r == s)
  {
    var r := Spliced(s, b, f, l);
    var x, y, z := if b < f then b else f, if b < f then f else l, if b < f then l else b;
    if b < f || l <= b {
      forall i, j | 0 <= i < j < |r| ensures r[i] != r[j] {
        assert r[i] == s[Source(i, x, y, z)] && r[j] == s[Source(j, x, y, z)];
      }
    }
  }

  /** The six assignments of list_splice, for the elements first through lst. */
  method Relink(before: Elem, first: Elem, lst: Elem)
    requires first.prev != null && lst.next != null && before.prev != null
    requires before == lst.next ==> before.prev == lst && first.prev.next == first && first.prev != lst
    requires before != lst.next ==>
      && first.prev != lst && first.prev != before.prev && lst != before.prev
      && lst.next != first && first != before
    modifies first.prev`next, lst.next`prev, first`prev, lst`next, before.prev`next, before`prev
    ensures var p, q, r := old(first.prev), old(lst.next), old(before.prev);
      if before == q then
        p.next == first && q.prev == lst && first.prev == p && lst.next == q
      else
        && p.next == q && q.prev == p && first.prev == r && lst.next == before && r.next == first && before.prev == lst
  {
    first.prev.next := lst.next;
    lst.next.prev := first.prev;
    first.prev := before.prev;
    lst.next := before;
    before.prev.next := first;
    before.prev := lst;
  }

  lemma AllApart(s: seq<Elem>, f: int, l: int, b: int)
    requires Distinct(s) && 0 < f < l < |s| && 0 < b < |s|
    ensures forall i {:trigger s[i]} :: 0 <= i < |s| ==>
      && (s[i] == s[f - 1] ==> i == f - 1) && (s[i] == s[f] ==> i == f)
      && (s[i] == s[l - 1] ==> i == l - 1) && (s[i] == s[l] ==> i == l)
      && (s[i] == s[b - 1] ==> i == b - 1) && (s[i] == s[b] ==> i == b)
  {}

  /** list_splice's work on the links of a chain. */
  method Move(ghost s: seq<Elem>, before: Elem, first: Elem, last: Elem, ghost b: int, ghost f: int, ghost l: int)
    requires Distinct(s) && Chained(s) && 0 < f < l < |s| && 0 < b < |s| && (b < f || l <= b)
    requires s[b] == before && s[f] == first && s[l] == last
    modifies s
    ensures Chained(Spliced(s, b, f, l))
  {
    var lst := last.prev;
    assert first.prev == s[f - 1] && lst == s[l - 1] && lst.next == s[l] && before.prev == s[b - 1];
    AllApart(s, f, l, b);
    if b == l { SplicedShape(s, b, f, l); }
    hide Distinct, Rotated;
    Relink(before, first, lst);
    if b < f {
      assert Relinked(s, b, f, l);
      hide Relinked;
      RelinkedChained(s, b, f, l);
    } else if l < b {
      assert Relinked(s, f, l, b);
      hide Relinked;
      RelinkedChained(s, f, l, b);
    }
  }

  class List {
    const head: Elem
    const tail: Elem

    /** The head, the elements in order, and the tail. */
    ghost var nodes: seq<Elem>

    ghost predicate Valid()
      reads this, nodes
    {
      Distinct(nodes) && Chained(nodes) && nodes[0] == head && nodes[|nodes| - 1] == tail
    }

    /** The elements of the list, in order. */
    ghost function Elems(): seq<Elem>
      requires Valid()
      reads this, nodes
    {
      nodes[1..|nodes| - 1]
    }

    constructor ()
      ensures Valid() && fresh(nodes) && Elems() == []
    {
      head := new Elem();
      tail := new Elem();
      new;
      head.next := tail;
      tail.prev := head;
      nodes := [head, tail];
    }

    /** list_splice within one list; before is not among the elements moved. */
    method Splice(before: Elem, first: Elem, last: Elem, ghost b: int, ghost f: int, ghost l: int)
      requires Valid() && 0 < f <= l < |nodes| && 0 < b < |nodes| && (b < f || l <= b || f == l)
      requires nodes[b] == before && nodes[f] == first && nodes[l] == last
      modifies this`nodes, nodes
      ensures Valid() && nodes == Spliced(old(nodes), b, f, l)
    {
      SplicedShape(nodes, b, f, l);
      if first == last {
        return;
      }
      ghost var r := Spliced(nodes, b, f, l);
      Move(nodes, before, first, last, b, f, l);
      hide Chained, Distinct, Spliced;
      nodes := r;
    }

    /** The end of the run that starts at a; there is an element at a. */
    method FindEndOfRun(less: (Elem, Elem) -> bool, a: Elem, b: Elem, ghost i: int, ghost e: int) returns (c: Elem, ghost k: int)
      requires Valid() && 0 < i < e < |nodes| && nodes[i] == a && nodes[e] == b
      ensures i < k <= e && nodes[k] == c && Sorted(less, nodes, i, k) && (k < e ==> less(nodes[k], nodes[k - 1]))
    {
      c, k := a.next, i + 1;
      while c != b && !less(c, c.prev)
        invariant i < k <= e && nodes[k] == c && Sorted(less, nodes, i, k)
        decreases e - k
      {
        c, k := c.next, k + 1;
      }
    }

    /** Merges the sorted ranges from a0 to a1b0 and from a1b0 to b1. */
    method InplaceMerge(less: (Elem, Elem) -> bool, a0: Elem, a1b0: Elem, b1: Elem,
                        ghost lo: int, ghost mid: int, ghost hi: int, ghost dom: set<Elem>)
      requires Valid() && 0 < lo <= mid <= hi < |nodes| && nodes[lo] == a0 && nodes[mid] == a1b0 && nodes[hi] == b1
      requires StrictWeak(less, dom) && Within(nodes, lo, hi, dom) && Sorted(less, nodes, lo, mid) && Sorted(less, nodes, mid, hi)
      modifies this`nodes, set x | x in nodes
      ensures Valid() && Rearranged(less, old(nodes), nodes) && Sorted(less, nodes, lo, hi) && Within(nodes, lo, hi, dom)
      ensures forall i :: 0 <= i < lo || hi <= i < |nodes| ==> nodes[i] == old(nodes)[i]
    {
      var a, c := a0, a1b0;
      ghost var p, m := lo, mid;
      RearrangedSelf(less, nodes);
      assert Merging(less, old(nodes), nodes, lo, p, m, hi, dom);
      while a != c && c != b1
        invariant Valid() && Merging(less, old(nodes), nodes, lo, p, m, hi, dom)
        invariant lo <= p <= m <= hi < |nodes| && nodes[p] == a && nodes[m] == c && nodes[hi] == b1
        invariant forall x :: x in nodes ==> x in old(nodes)
        decreases (m - p) + 2 * (hi - m)
      {
        hide Merging, Rearranged, Sorted, StrictWeak, Within;
        a, c, p, m := MergeStep(less, a, c, old(nodes), lo, p, m, hi, dom);
      }
      assert p == m || m == hi;
      hide Sorted, StrictWeak, Within, Chained;
      MergeDone(less, old(nodes), nodes, lo, p, m, hi, dom);
    }

    /** One pass of inplace_merge's loop. */
    method MergeStep(less: (Elem, Elem) -> bool, a0: Elem, a1b0: Elem,
                     ghost s0: seq<Elem>, ghost lo: int, ghost p: int, ghost m: int, ghost hi: int, ghost dom: set<Elem>)
      returns (a: Elem, c: Elem, ghost p': int, ghost m': int)
      requires Valid() && Merging(less, s0, nodes, lo, p, m, hi, dom) && 0 < lo <= p < m < hi < |nodes|
      requires nodes[p] == a0 && nodes[m] == a1b0
      modifies this`nodes, set x | x in nodes
      ensures Valid() && Merging(less, s0, nodes, lo, p', m', hi, dom) && |nodes| == |old(nodes)|
      ensures p' == p + 1 && m <= m' <= m + 1 && p' <= m' <= hi
      ensures nodes[p'] == a && nodes[m'] == c && nodes[hi] == old(nodes)[hi]
      ensures forall x :: x in nodes ==> x in old(nodes)
    {
      hide Merging, Rearranged, Sorted, StrictWeak, Within, Distinct;
      a, c, p', m' := a0, a1b0, p + 1, m;
      if !less(c, a) {
        MergeKeeps(less, s0, nodes, lo, p, m, hi, dom);
        a := a.next;
      } else {
        MergeMoves(less, s0, nodes, lo, p, m, hi, dom);
        c, m' := c.next, m + 1;
        assert c == nodes[m + 1] && c.prev == nodes[m];
        RotatedElements(nodes, p, m, m + 1);
        assert Spliced(nodes, p, m, m + 1) == Rotated(nodes, p, m, m + 1);
        hide Chained, Spliced;
        Splice(a, c.prev, c, p, m, m + 1);
        SameElements(old(nodes), nodes);
      }
    }

    /** One pass of list_sort over the list: merges its runs in pairs. */
    method Pass(less: (Elem, Elem) -> bool, ghost dom: set<Elem>) returns (cnt: nat)
      requires Valid() && StrictWeak(less, dom) && Within(nodes, 1, |nodes| - 1, dom)
      modifies this`nodes, set x | x in nodes
      ensures Valid() && Passed(less, old(nodes), nodes, 1, |nodes| - 1, cnt) && Within(nodes, 1, |nodes| - 1, dom)
      ensures forall x :: x in nodes ==> x in old(nodes)
    {
      hide Passing, Rearranged, Sorted, Passed, Within, StrictWeak;
      ghost var s0, end := nodes, |nodes| - 1;
      cnt := 0;
      var a0 := head.next;
      ghost var a := 1;
      PassStarts(less, nodes, 1, end, dom);
      assert nodes[a] == a0;
      hide Chained;
      while a0 != tail
        invariant Valid() && 1 <= a <= end == |nodes| - 1 && nodes[a] == a0 && Passing(less, s0, nodes, 1, a, end, cnt, dom)
        invariant forall x :: x in nodes ==> x in s0
        decreases end - a
      {
        var last;
        a0, last, a := MergePair(less, a0, s0, a, end, cnt, dom);
        cnt := cnt + 1;
        if last { return; }
      }
      NothingLeft(less, nodes, s0, end, cnt, dom);
    }

    /** Finds the run at a0 and the one after it, and merges them; last if there is none after it. */
    method MergePair(less: (Elem, Elem) -> bool, a0: Elem, ghost s0: seq<Elem>, ghost a: int, ghost end: int, ghost cnt: nat,
                     ghost dom: set<Elem>)
      returns (b1: Elem, last: bool, ghost b: int)
      requires Valid() && 1 <= a < end == |nodes| - 1 && nodes[a] == a0 && Passing(less, s0, nodes, 1, a, end, cnt, dom)
      modifies this`nodes, set x | x in nodes
      ensures Valid() && |nodes| == |old(nodes)| && forall x :: x in nodes ==> x in old(nodes)
      ensures last ==> Passed(less, s0, nodes, 1, end, cnt + 1) && Within(nodes, 1, end, dom)
      ensures !last ==> a < b <= end && nodes[b] == b1 && Passing(less, s0, nodes, 1, b, end, cnt + 1, dom)
    {
      assert StrictWeak(less, dom) && Within(nodes, 1, end, dom);
      hide Passing, Rearranged, Sorted, Passed, Chained, StrictWeak, Within;
      ghost var m;
      var a1b0;
      a1b0, m := FindEndOfRun(less, a0, tail, a, end);
      b1, last, b := a1b0, a1b0 == tail, end;
      if last {
        PassEnds(less, s0, nodes, 1, a, end, cnt, dom);
      } else {
        b1, b := FindEndOfRun(less, a1b0, tail, m, end);
        ghost var s := nodes;
        InplaceMerge(less, a0, a1b0, b1, a, m, b, dom);
        PairMerged(less, s0, s, nodes, a, m, b, end, cnt, dom);
      }
    }

    /** list_sort: the same elements, in order, and those that compare equal in the order they were in. */
    method Sort(less: (Elem, Elem) -> bool)
      requires Valid() && StrictWeak(less, set x | x in Elems())
      modifies this`nodes, set x | x in nodes
      ensures Valid() && Sorted(less, Elems(), 0, |Elems()|) && Rearranged(less, old(Elems()), Elems())
      ensures multiset(Elems()) == multiset(old(Elems())) && Stable(less, old(Elems()), Elems())
    {
      hide Stable, Rearranged, Distinct, Within, StrictWeak, Runs, Sorted;
      ghost var dom := set x | x in Elems();
      ghost var s0, end := nodes, |nodes| - 1;
      InnerWithin(nodes, Elems());
      RearrangedSelf(less, nodes);
      var outputRunCnt := 2;
      while outputRunCnt > 1
        invariant Valid() && |nodes| == |s0| && Rearranged(less, s0, nodes) && Within(nodes, 1, end, dom)
        invariant outputRunCnt <= 1 ==> Runs(less, nodes, 1, end) <= 1
        invariant forall x :: x in nodes ==> x in s0
        decreases outputRunCnt > 1, Runs(less, nodes, 1, end)
      {
        hide Chained;
        ghost var s := nodes;
        outputRunCnt := Pass(less, dom);
        RearrangedTwice(less, s0, s, nodes);
      }
      OneRun(less, nodes, 1, end);
      InnerSorted(less, nodes);
      InnerRearranged(less, s0, nodes);
      RearrangedStable(less, old(Elems()), Elems());
    }
  }

  lemma NothingLeft(less: (Elem, Elem) -> bool, s: seq<Elem>, s0: seq<Elem>, end: int, cnt: nat, dom: set<Elem>)
    requires Passing(less, s0, s, 1, end, end, cnt, dom)
    ensures Passed(less, s0, s, 1, end, cnt) && Within(s, 1, end, dom)
  {
    hide Rearranged, StrictWeak, Runs;
    PassEnds(less, s0, s, 1, end, end, cnt, dom);
  }

  lemma InnerWithin(s: seq<Elem>, inner: seq<Elem>)
    requires |s| >= 2 && inner == s[1..|s| - 1]
    ensures Within(s, 1, |s| - 1, set x | x in inner)
  {
    forall i | 1 <= i < |s| - 1 ensures s[i] in inner { assert s[i] == inner[i - 1]; }
  }

  lemma InnerSorted(less: (Elem, Elem) -> bool, s: seq<Elem>)
    requires |s| >= 2 && Sorted(less, s, 1, |s| - 1)
    ensures Sorted(less, s[1..|s| - 1], 0, |s| - 2)
  {
    var s' := s[1..|s| - 1];
    forall i | 0 < i < |s'| ensures !less(s'[i], s'[i - 1]) {
      assert s'[i] == s[i + 1] && s'[i - 1] == s[i];
    }
  }

  lemma InnerElements(s: seq<Elem>)
    requires |s| >= 2
    ensures multiset(s[1..|s| - 1]) == multiset(s) - multiset{s[0]} - multiset{s[|s| - 1]}
  {
    assert s == [s[0]] + s[1..|s| - 1] + [s[|s| - 1]];
  }

  lemma InnerBefore(s: seq<Elem>, x: Elem, y: Elem)
    requires |s| >= 2 && Before(s, x, y) && x != s[0] && y != s[|s| - 1]
    ensures Before(s[1..|s| - 1], x, y)
  {
    var p, q :| 0 <= p < q < |s| && s[p] == x && s[q] == y;
    var s' := s[1..|s| - 1];
    assert s'[p - 1] == x && s'[q - 1] == y;
  }

  /** Between the same first and last nodes, the elements are rearranged as the nodes are. */
  lemma InnerRearranged(less: (Elem, Elem) -> bool, s: seq<Elem>, r: seq<Elem>)
    requires |s| == |r| >= 2 && Distinct(r) && Rearranged(less, s, r) && r[0] == s[0] && r[|r| - 1] == s[|s| - 1]
    ensures Rearranged(less, s[1..|s| - 1], r[1..|r| - 1])
  {
    var s', r' := s[1..|s| - 1], r[1..|r| - 1];
    InnerElements(s);
    InnerElements(r);
    hide Before;
    forall i, j | 0 <= i < j < |r'| ensures Before(s', r'[i], r'[j]) || less(r'[i], r'[j]) {
      assert r'[i] == r[i + 1] && r'[j] == r[j + 1];
      if Before(s, r[i + 1], r[j + 1]) { InnerBefore(s, r[i + 1], r[j + 1]); }
    }
  }

  lemma SameLength(less: (Elem, Elem) -> bool, s: seq<Elem>, r: seq<Elem>)
    requires Rearranged(less, s, r)
    ensures |r| == |s| && multiset(r) == multiset(s)
  {}

  lemma PairMerged(less: (Elem, Elem) -> bool, s0: seq<Elem>, s: seq<Elem>, s': seq<Elem>, a: int, m: int, b: int, end: int, cnt: nat,
                   dom: set<Elem>)
    requires Passing(less, s0, s, 1, a, end, cnt, dom) && a < m < b <= end < |s|
    requires Sorted(less, s, a, m) && less(s[m], s[m - 1]) && Sorted(less, s, m, b) && (b < end ==> less(s[b], s[b - 1]))
    requires Rearranged(less, s, s') && b <= |s'| && Sorted(less, s', a, b) && Within(s', a, b, dom)
    requires forall i :: 0 <= i < a || b <= i < |s'| ==> i < |s| && s'[i] == s[i]
    ensures |s'| == |s| && Passing(less, s0, s', 1, b, end, cnt + 1, dom) && forall x :: x in s' ==> x in s
  {
    SameLength(less, s, s');
    hide Rearranged, Sorted, Within;
    PassMerges(less, s0, s, s', 1, a, m, b, end, cnt, dom);
    SameElements(s, s');
  }

  lemma SameElements(s: seq<Elem>, r: seq<Elem>)
    requires multiset(r) == multiset(s)
    ensures forall x :: x in r ==> x in s
  {
    forall x | x in r ensures x in s {
      assert x in multiset(r);
    }
  }
}
