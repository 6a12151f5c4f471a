/**
 * The chained hash table of lib/kernel/hash.c. Each bucket is the list
 * of its elements, and a place in a list stands for the pointer to it.
 * dom holds every element that is ever handed to the table.
 */
module HashTable {
  import opened Options
  import opened Words
  import opened PowersOfTwo
  import opened MergeOrder

  // ------------------------------------------------------------- sets of elements

  /** Neither is less than the other. */
  predicate Equal<T>(less: (T, T) -> bool, x: T, y: T) { !less(x, y) && !less(y, x) }

  ghost predicate NoneEqual<T>(less: (T, T) -> bool, s: set<T>, e: T) { forall x :: x in s ==> !Equal(less, x, e) }

  /** What the caller owes: less orders the elements, and equal elements have the same hash. */
  ghost predicate Proper<T(!new)>(less: (T, T) -> bool, hash: T -> nat, dom: set<T>) {
    StrictWeak(less, dom) && forall x, y :: x in dom && y in dom && Equal(less, x, y) ==> hash(x) == hash(y)
  }

  datatype Op<T> = Insert(e: T) | Replace(e: T) | Find(e: T) | Delete(e: T)

  /** An operation on a set: what it answers and what it leaves. */
  ghost predicate Does<T>(less: (T, T) -> bool, s: set<T>, op: Op<T>, r: Option<T>, s': set<T>) {
    && (r.None? ==> NoneEqual(less, s, op.e)) && (r.Some? ==> r.value in s && Equal(less, r.value, op.e))
    && s' == match op
      case Insert(e) => if r.None? then s + {e} else s
      case Replace(e) => (if r.None? then s else s - {r.value}) + {e}
      case Find(_) => s
      case Delete(_) => if r.None? then s else s - {r.value}
  }

  /** A run of operations, through the sets that the table stands for in between. */
  ghost predicate IsRun<T>(less: (T, T) -> bool, sets: seq<set<T>>, ops: seq<Op<T>>, rs: seq<Option<T>>) {
    |sets| == |ops| + 1 && |rs| == |ops| && forall i :: 0 <= i < |ops| ==> Does(less, sets[i], ops[i], rs[i], sets[i + 1])
  }

  /** No two elements of the set are equal. */
  ghost predicate Apart<T>(less: (T, T) -> bool, s: set<T>) {
    forall x, y :: x in s && y in s && Equal(less, x, y) ==> x == y
  }

  /** The operations keep elements apart, and have just one answer. */
  lemma DoesKeeps<T(!new)>(less: (T, T) -> bool, dom: set<T>, s: set<T>, op: Op<T>, r: Option<T>, s': set<T>)
    requires StrictWeak(less, dom) && s <= dom && op.e in dom && Apart(less, s) && Does(less, s, op, r, s')
    ensures s' <= dom && Apart(less, s')
    ensures forall r1, s1 :: Does(less, s, op, r1, s1) ==> r1 == r && s1 == s'
  {
    if r.Some? {
      forall y | y in s && Equal(less, y, op.e) ensures y == r.value {
        EqualTransitive(less, dom, y, op.e, r.value);
      }
    }
  }

  /** So a run of operations has just one outcome, and elements stay apart all along. */
  lemma {:induction false} OneOutcome<T(!new)>(
      less: (T, T) -> bool, dom: set<T>, sets: seq<set<T>>, ops: seq<Op<T>>, rs: seq<Option<T>>, sets': seq<set<T>>, rs': seq<Option<T>>, n: nat)
    requires StrictWeak(less, dom) && IsRun(less, sets, ops, rs) && IsRun(less, sets', ops, rs') && n <= |ops|
    requires sets[0] == sets'[0] <= dom && Apart(less, sets[0]) && forall i :: 0 <= i < |ops| ==> ops[i].e in dom
    ensures sets'[n] == sets[n] <= dom && Apart(less, sets[n]) && rs'[..n] == rs[..n]
  {
    hide Does, StrictWeak, Apart;
    if n > 0 {
      OneOutcome(less, dom, sets, ops, rs, sets', rs', n - 1);
      DoesKeeps(less, dom, sets[n - 1], ops[n - 1], rs[n - 1], sets[n]);
      assert Does(less, sets[n - 1], ops[n - 1], rs'[n - 1], sets'[n]);
      assert rs[..n] == rs[..n - 1] + [rs[n - 1]] && rs'[..n] == rs'[..n - 1] + [rs'[n - 1]];
    }
  }

  lemma EqualTransitive<T(!new)>(less: (T, T) -> bool, dom: set<T>, x: T, y: T, z: T)
    requires StrictWeak(less, dom) && x in dom && y in dom && z in dom && Equal(less, x, y) && Equal(less, y, z)
    ensures Equal(less, x, z)
  {}

  // ------------------------------------------------------------------- histories

  /** The element equal to e that was put in last and has not been taken out since, told from the first n operations. */
  ghost function Kept<T>(less: (T, T) -> bool, s0: set<T>, ops: seq<Op<T>>, n: nat, e: T): Option<T>
    requires n <= |ops|
  {
    if n == 0 then if x :| x in s0 && Equal(less, x, e) then Some(x) else None
    else
      var before := Kept(less, s0, ops, n - 1, e);
      if !Equal(less, ops[n - 1].e, e) then before
      else
        match ops[n - 1]
        case Insert(x) => if before.None? then Some(x) else before
        case Replace(x) => Some(x)
        case Delete(_) => None
        case Find(_) => before
  }

  ghost predicate Finds<T>(less: (T, T) -> bool, s: set<T>, e: T, r: Option<T>) {
    (r.None? ==> NoneEqual(less, s, e)) && (r.Some? ==> r.value in s && Equal(less, r.value, e))
  }

  lemma FindsStep<T(!new)>(less: (T, T) -> bool, dom: set<T>, s: set<T>, op: Op<T>, r: Option<T>, s': set<T>, e: T, before: Option<T>)
    requires StrictWeak(less, dom) && s <= dom && op.e in dom && e in dom && Apart(less, s) && Does(less, s, op, r, s') && Finds(less, s, e, before)
    ensures Finds(less, s', e,
      if !Equal(less, op.e, e) then before
      else match op case Insert(x) => if before.None? then Some(x) else before case Replace(x) => Some(x) case Delete(_) => None case Find(_) => before)
  {
    forall x | x in s ensures Equal(less, op.e, e) ==> (Equal(less, x, e) <==> Equal(less, x, op.e)) {
      if Equal(less, op.e, e) && Equal(less, x, e) { EqualTransitive(less, dom, x, e, op.e); }
      if Equal(less, op.e, e) && Equal(less, x, op.e) { EqualTransitive(less, dom, x, op.e, e); }
    }
    if r.Some? && Equal(less, r.value, e) { EqualTransitive(less, dom, op.e, r.value, e); }
  }

  /** Every operation answers with the element that was kept, whatever kind of operation it is. */
  lemma {:induction false} AnswersKept<T(!new)>(less: (T, T) -> bool, dom: set<T>, sets: seq<set<T>>, ops: seq<Op<T>>, rs: seq<Option<T>>, n: nat, e: T)
    requires StrictWeak(less, dom) && IsRun(less, sets, ops, rs) && n <= |ops| && e in dom
    requires sets[0] <= dom && Apart(less, sets[0]) && forall i :: 0 <= i < |ops| ==> ops[i].e in dom
    ensures sets[n] <= dom && Apart(less, sets[n]) && Finds(less, sets[n], e, Kept(less, sets[0], ops, n, e))
    ensures n < |ops| && ops[n].e == e ==> rs[n] == Kept(less, sets[0], ops, n, e)
  {
    OneOutcome(less, dom, sets, ops, rs, sets, rs, n);
    hide StrictWeak;
    if n > 0 {
      AnswersKept(less, dom, sets, ops, rs, n - 1, e);
      assert Does(less, sets[n - 1], ops[n - 1], rs[n - 1], sets[n]);
      hide Does, Apart, Finds;
      FindsStep(less, dom, sets[n - 1], ops[n - 1], rs[n - 1], sets[n], e, Kept(less, sets[0], ops, n - 1, e));
    }
    if n < |ops| && ops[n].e == e { OneAnswer(less, dom, sets[n], ops[n], rs[n], sets[n + 1], Kept(less, sets[0], ops, n, e)); }
  }

  ghost predicate AllKept<T>(less: (T, T) -> bool, s0: set<T>, ops: seq<Op<T>>, rs: seq<Option<T>>) {
    |rs| == |ops| && forall n :: 0 <= n < |ops| ==> rs[n] == Kept(less, s0, ops, n, ops[n].e)
  }

  lemma RunKept<T(!new)>(less: (T, T) -> bool, dom: set<T>, sets: seq<set<T>>, ops: seq<Op<T>>, rs: seq<Option<T>>)
    requires StrictWeak(less, dom) && IsRun(less, sets, ops, rs)
    requires sets[0] <= dom && Apart(less, sets[0]) && forall i :: 0 <= i < |ops| ==> ops[i].e in dom
    ensures AllKept(less, sets[0], ops, rs)
  {
    hide StrictWeak, Apart, Kept;
    forall n | 0 <= n < |ops| ensures rs[n] == Kept(less, sets[0], ops, n, ops[n].e) { AnswersKept(less, dom, sets, ops, rs, n, ops[n].e); }
  }

  lemma OneAnswer<T(!new)>(less: (T, T) -> bool, dom: set<T>, s: set<T>, op: Op<T>, r: Option<T>, s': set<T>, q: Option<T>)
    requires StrictWeak(less, dom) && s <= dom && op.e in dom && Apart(less, s) && Does(less, s, op, r, s') && Finds(less, s, op.e, q)
    ensures r == q
  {
    if r.Some? && q.Some? { EqualTransitive(less, dom, r.value, op.e, q.value); }
  }

  // ------------------------------------------------------------- lists of buckets

  ghost function Flat<T>(bs: seq<seq<T>>): multiset<T> {
    if bs == [] then multiset{} else Flat(bs[..|bs| - 1]) + multiset(bs[|bs| - 1])
  }

  lemma {:induction false} FlatUpdate<T>(bs: seq<seq<T>>, i: nat, b: seq<T>)
    requires i < |bs|
    ensures multiset(bs[i]) <= Flat(bs) && Flat(bs[i := b]) == Flat(bs) - multiset(bs[i]) + multiset(b)
  {
    var n := |bs| - 1;
    if i < n {
      FlatUpdate(bs[..n], i, b);
      assert bs[i := b][..n] == bs[..n][i := b];
    } else {
      assert bs[i := b][..n] == bs[..n];
    }
  }

  lemma {:induction false} FlatIn<T>(bs: seq<seq<T>>, x: T)
    ensures x in Flat(bs) <==> exists i :: 0 <= i < |bs| && x in bs[i]
  {
    if bs != [] {
      FlatIn(bs[..|bs| - 1], x);
      assert x in multiset(bs[|bs| - 1]) <==> x in bs[|bs| - 1];
      if x in Flat(bs[..|bs| - 1]) {
        var i :| 0 <= i < |bs| - 1 && x in bs[..|bs| - 1][i];
        assert x in bs[i];
      }
    }
  }

  lemma {:induction false} FlatEmpty<T>(bs: seq<seq<T>>)
    requires forall i :: 0 <= i < |bs| ==> bs[i] == []
    ensures Flat(bs) == multiset{}
  {
    if bs != [] { FlatEmpty(bs[..|bs| - 1]); }
  }

  lemma FlatSnoc<T>(bs: seq<seq<T>>, i: nat)
    requires i < |bs|
    ensures Flat(bs[..i + 1]) == Flat(bs[..i]) + multiset(bs[i])
  {
    assert bs[..i + 1][..i] == bs[..i];
  }

  lemma {:induction false} FlatPrefix<T>(bs: seq<seq<T>>, i: nat, k: nat)
    requires i < |bs| && k <= |bs[i]|
    ensures Flat(bs[..i]) + multiset(bs[i][..k]) <= Flat(bs)
  {
    var n := |bs| - 1;
    if i < n {
      FlatPrefix(bs[..n], i, k);
      assert bs[..n][..i] == bs[..i];
    } else {
      assert bs[i] == bs[i][..k] + bs[i][k..];
    }
  }

  ghost predicate InPlace<T>(hash: T -> nat, b: seq<T>, i: nat, n: nat)
    requires n > 0
  {
    forall k :: 0 <= k < |b| ==> hash(b[k]) % n == i
  }

  /** Each element is in the bucket of its hash. */
  ghost predicate Placed<T>(hash: T -> nat, bs: seq<seq<T>>) {
    |bs| > 0 && forall i :: 0 <= i < |bs| ==> InPlace(hash, bs[i], i, |bs|)
  }

  ghost predicate Unique<T>(less: (T, T) -> bool, m: multiset<T>) {
    (forall x :: x in m ==> m[x] == 1) && forall x, y :: x in m && y in m && Equal(less, x, y) ==> x == y
  }

  ghost function Members<T>(m: multiset<T>): set<T> { set x | x in m }

  /** An element that is equal to e is in e's bucket, if there is one at all. */
  lemma OnlyInBucket<T(!new)>(less: (T, T) -> bool, hash: T -> nat, dom: set<T>, bs: seq<seq<T>>, e: T)
    requires Proper(less, hash, dom) && Placed(hash, bs) && e in dom && Members(Flat(bs)) <= dom
    requires forall k :: 0 <= k < |bs[hash(e) % |bs|]| ==> !Equal(less, bs[hash(e) % |bs|][k], e)
    ensures NoneEqual(less, Members(Flat(bs)), e)
  {
    forall x | x in Flat(bs) ensures !Equal(less, x, e) {
      FlatIn(bs, x);
      var i :| 0 <= i < |bs| && x in bs[i];
      assert InPlace(hash, bs[i], i, |bs|);
      assert x in Members(Flat(bs));
    }
  }

  lemma UniqueAdd<T(!new)>(less: (T, T) -> bool, m: multiset<T>, e: T)
    requires Unique(less, m) && NoneEqual(less, Members(m), e) && !less(e, e)
    ensures Unique(less, m + multiset{e}) && Members(m + multiset{e}) == Members(m) + {e}
  {
    assert e !in Members(m);
    forall x | x in m ensures !Equal(less, x, e) && !Equal(less, e, x) { assert x in Members(m); }
  }

  lemma UniqueDrop<T(!new)>(less: (T, T) -> bool, m: multiset<T>, x: T)
    requires Unique(less, m) && x in m
    ensures Unique(less, m - multiset{x}) && Members(m - multiset{x}) == Members(m) - {x}
  {}

  lemma WithoutOne<T>(b: seq<T>, k: nat)
    requires k < |b|
    ensures multiset(b) == multiset(b[..k] + b[k + 1..]) + multiset{b[k]}
  {
    assert b == b[..k] + [b[k]] + b[k + 1..];
  }

  /** What is at one place of a bucket, and what is left without it. */
  lemma FlatWithout<T>(bs: seq<seq<T>>, i: nat, k: nat)
    requires i < |bs| && k < |bs[i]|
    ensures bs[i][k] in Flat(bs) && Flat(bs[i := bs[i][..k] + bs[i][k + 1..]]) == Flat(bs) - multiset{bs[i][k]}
  {
    hide Flat;
    var b := bs[i];
    var b' := b[..k] + b[k + 1..];
    FlatUpdate(bs, i, b');
    WithoutOne(b, k);
  }

  lemma FlatPushed<T>(bs: seq<seq<T>>, i: nat, e: T)
    requires i < |bs|
    ensures Flat(bs[i := [e] + bs[i]]) == Flat(bs) + multiset{e}
  {
    FlatUpdate(bs, i, [e] + bs[i]);
  }

  /** What the table looks like. */
  ghost predicate TableOk<T(!new)>(less: (T, T) -> bool, hash: T -> nat, dom: set<T>, bs: seq<seq<T>>, elemCnt: nat) {
    && |bs| >= 4 && IsPow2(|bs|) && Placed(hash, bs)
    && Unique(less, Flat(bs)) && Members(Flat(bs)) <= dom && elemCnt == |Flat(bs)|
  }

  lemma NoBuckets<T>(bs: seq<seq<T>>)
    ensures Flat(bs[..0]) == multiset{}
  {}

  lemma EmptyTable<T(!new)>(less: (T, T) -> bool, hash: T -> nat, dom: set<T>, bs: seq<seq<T>>)
    requires |bs| >= 4 && IsPow2(|bs|) && forall i :: 0 <= i < |bs| ==> bs[i] == []
    ensures TableOk(less, hash, dom, bs, 0) && Members(Flat(bs)) == {}
  {
    FlatEmpty(bs);
  }

  lemma Pushed<T(!new)>(less: (T, T) -> bool, hash: T -> nat, dom: set<T>, bs: seq<seq<T>>, elemCnt: nat, e: T)
    requires TableOk(less, hash, dom, bs, elemCnt) && StrictWeak(less, dom) && e in dom && NoneEqual(less, Members(Flat(bs)), e)
    ensures var i := hash(e) % |bs|; var bs' := bs[i := [e] + bs[i]];
      TableOk(less, hash, dom, bs', elemCnt + 1) && Members(Flat(bs')) == Members(Flat(bs)) + {e}
  {
    var i := hash(e) % |bs|;
    FlatPushed(bs, i, e);
    UniqueAdd(less, Flat(bs), e);
    PlacedPushed(hash, bs, e);
  }

  lemma PlacedSome<T>(hash: T -> nat, bs: seq<seq<T>>)
    requires Placed(hash, bs)
    ensures |bs| > 0
  {}

  lemma PlacedPushed<T>(hash: T -> nat, bs: seq<seq<T>>, e: T)
    requires Placed(hash, bs)
    ensures var i := hash(e) % |bs|; Placed(hash, bs[i := [e] + bs[i]])
  {
    var i := hash(e) % |bs|;
    var bs' := bs[i := [e] + bs[i]];
    forall j | 0 <= j < |bs| ensures InPlace(hash, bs'[j], j, |bs|) {
      assert InPlace(hash, bs[j], j, |bs|);
    }
  }

  lemma Dropped<T(!new)>(less: (T, T) -> bool, hash: T -> nat, dom: set<T>, bs: seq<seq<T>>, elemCnt: nat, i: nat, k: nat)
    requires TableOk(less, hash, dom, bs, elemCnt) && i < |bs| && k < |bs[i]|
    ensures var bs' := bs[i := bs[i][..k] + bs[i][k + 1..]];
      && elemCnt > 0 && TableOk(less, hash, dom, bs', elemCnt - 1) && bs[i][k] in Members(Flat(bs))
      && Members(Flat(bs')) == Members(Flat(bs)) - {bs[i][k]}
  {
    FlatWithout(bs, i, k);
    UniqueDrop(less, Flat(bs), bs[i][k]);
    var bs' := bs[i := bs[i][..k] + bs[i][k + 1..]];
    forall j | 0 <= j < |bs| ensures InPlace(hash, bs'[j], j, |bs|) {
      assert InPlace(hash, bs[j], j, |bs|);
    }
  }

  // -------------------------------------------------------------------- the table

  function Max(a: nat, b: nat): nat { if a < b then b else a }

  /** The bucket count that rehash aims for keeps the buckets short. */
  lemma LoadFactor(elemCnt: nat)
    ensures var n := TopBit(Max(4, elemCnt / 2)); n >= 4 && elemCnt < 4 * n && (n > 4 ==> 2 * n <= elemCnt)
  {
    assert TopBit(4) == 4;
    TopMono(4, Max(4, elemCnt / 2));
  }

  lemma {:induction false} TopMono(x: nat, y: nat)
    requires 0 < x <= y
    ensures TopBit(x) <= TopBit(y)
  {
    if x > 1 { TopMono(x / 2, y / 2); }
  }

  class Table<T(==, !new)> {
    const hash: T -> nat
    const less: (T, T) -> bool
    ghost const dom: set<T>
    var buckets: array<seq<T>>
    var elemCnt: nat

    ghost predicate Valid()
      reads this, buckets
    {
      Proper(less, hash, dom) && TableOk(less, hash, dom, buckets[..], elemCnt)
    }

    ghost function Elems(): multiset<T>
      reads this, buckets
    {
      Flat(buckets[..])
    }

    /** The set that the table stands for. */
    ghost function Contents(): set<T>
      reads this, buckets
    {
      Members(Elems())
    }

    /** hash_init, when there is memory for the buckets. */
    constructor (hash: T -> nat, less: (T, T) -> bool, ghost dom: set<T>)
      requires Proper(less, hash, dom)
      ensures Valid() && Contents() == {} && fresh(buckets)
      ensures this.hash == hash && this.less == less && this.dom == dom
    {
      this.hash, this.less, this.dom := hash, less, dom;
      elemCnt := 0;
      buckets := new seq<T>[4](_ => []);
      new;
      FlatEmpty(buckets[..]);
    }

    /** find_bucket. */
    method FindBucket(e: T) returns (i: nat)
      requires buckets.Length > 0 && IsPow2(buckets.Length)
      ensures i == hash(e) % buckets.Length
    {
      MaskIsMod(hash(e), buckets.Length);
      i := And(hash(e), buckets.Length - 1);
    }

    /** find_elem: the place of the first element that is equal to e, or the end of the bucket. */
    method FindElem(i: nat, e: T) returns (k: nat)
      requires i < buckets.Length
      ensures k <= |buckets[i]| && (k < |buckets[i]| ==> Equal(less, buckets[i][k], e))
      ensures forall j :: 0 <= j < k ==> !Equal(less, buckets[i][j], e)
    {
      k := 0;
      while k < |buckets[i]|
        invariant k <= |buckets[i]| && forall j :: 0 <= j < k ==> !Equal(less, buckets[i][j], e)
      {
        if !less(buckets[i][k], e) && !less(e, buckets[i][k]) { return; }
        k := k + 1;
      }
    }

    /** insert_elem. */
    method InsertElem(i: nat, e: T)
      requires Valid() && e in dom && i == hash(e) % buckets.Length && NoneEqual(less, Contents(), e)
      modifies this`elemCnt, buckets
      ensures Valid() && Contents() == old(Contents()) + {e}
    {
      Pushed(less, hash, dom, buckets[..], elemCnt, e);
      hide TableOk, Proper, NoneEqual, Flat, Members;
      elemCnt := elemCnt + 1;
      buckets[i] := [e] + buckets[i];
      assert buckets[..] == old(buckets[..])[i := [e] + old(buckets[..])[i]];
    }

    /** remove_elem. */
    method RemoveElem(i: nat, k: nat)
      requires Valid() && i < buckets.Length && k < |buckets[i]|
      modifies this`elemCnt, buckets
      ensures Valid() && old(buckets[i][k]) in old(Contents()) && Contents() == old(Contents()) - {old(buckets[i][k])}
    {
      Dropped(less, hash, dom, buckets[..], elemCnt, i, k);
      hide TableOk, Proper, Flat, Members;
      elemCnt := elemCnt - 1;
      buckets[i] := buckets[i][..k] + buckets[i][k + 1..];
      assert buckets[..] == old(buckets[..])[i := old(buckets[..])[i][..k] + old(buckets[..])[i][k + 1..]];
    }

    /** The bucket count that suits the number of elements: the loop of rehash. */
    method BestCount() returns (n: nat)
      ensures n == TopBit(Max(4, elemCnt / 2))
    {
      n := elemCnt / 2;
      if n < 4 { n := 4; }
      while !IsPowerOf2(n)
        invariant n > 0 && TopBit(n) == TopBit(Max(4, elemCnt / 2))
        decreases n
      {
        IsPowerOf2Correct(n);
        TurnOffKeepsTop(n);
        n := TurnOffLeast1Bit(n);
      }
      IsPowerOf2Correct(n);
      TopOfPower(n);
    }

    /** Moves one old bucket's elements to the buckets where they belong now. */
    method MoveBucket(olds: array<seq<T>>, i: nat)
      requires olds != buckets && i < olds.Length && Placed(hash, buckets[..]) && IsPow2(buckets.Length)
      modifies olds, buckets
      ensures Placed(hash, buckets[..]) && Flat(olds[..]) + Flat(buckets[..]) == old(Flat(olds[..]) + Flat(buckets[..]))
      ensures olds[i] == [] && forall j :: 0 <= j < olds.Length && j != i ==> olds[j] == old(olds[j])
    {
      hide Placed, Flat, IsPow2;
      while olds[i] != []
        invariant Placed(hash, buckets[..]) && Flat(olds[..]) + Flat(buckets[..]) == old(Flat(olds[..]) + Flat(buckets[..]))
        invariant forall j :: 0 <= j < olds.Length && j != i ==> olds[j] == old(olds[j])
        decreases |olds[i]|
      {
        MoveElem(olds, i);
      }
    }

    method MoveElem(olds: array<seq<T>>, i: nat)
      requires olds != buckets && i < olds.Length && olds[i] != [] && Placed(hash, buckets[..]) && IsPow2(buckets.Length)
      modifies olds, buckets
      ensures Placed(hash, buckets[..]) && Flat(olds[..]) + Flat(buckets[..]) == old(Flat(olds[..]) + Flat(buckets[..]))
      ensures |olds[i]| < |old(olds[i])| && forall j :: 0 <= j < olds.Length && j != i ==> olds[j] == old(olds[j])
    {
      hide Placed, Flat, IsPow2;
      var elem := olds[i][0];
      ghost var os, bs := olds[..], buckets[..];
      PlacedSome(hash, bs);
      var k := FindBucket(elem);
      FlatWithout(os, i, 0);
      FlatPushed(bs, k, elem);
      PlacedPushed(hash, bs, elem);
      olds[i] := olds[i][1..];
      buckets[k] := [elem] + buckets[k];
      assert os[i][..0] + os[i][1..] == os[i][1..];
      assert olds[..] == os[i := os[i][1..]];
      assert buckets[..] == bs[k := [elem] + bs[k]];
    }

    /** rehash. roomy says whether there is memory for new buckets. */
    method Rehash(roomy: bool)
      requires Valid()
      modifies this`buckets, buckets
      ensures Valid() && Elems() == old(Elems()) && (buckets == old(buckets) || fresh(buckets))
      ensures roomy ==> buckets.Length == TopBit(Max(4, elemCnt / 2))
    {
      var n := BestCount();
      LoadFactor(elemCnt);
      if n == buckets.Length { return; }
      if !roomy { return; }
      var olds := buckets;
      buckets := new seq<T>[n](_ => []);
      MoveAll(olds);
    }

    method MoveAll(olds: array<seq<T>>)
      requires olds != buckets && buckets.Length > 0 && IsPow2(buckets.Length)
      requires forall i :: 0 <= i < buckets.Length ==> buckets[i] == []
      modifies olds, buckets
      ensures Placed(hash, buckets[..]) && Flat(buckets[..]) == old(Flat(olds[..]))
    {
      FlatEmpty(buckets[..]);
      assert Placed(hash, buckets[..]);
      hide Placed, Flat, IsPow2;
      for i := 0 to olds.Length
        invariant Placed(hash, buckets[..]) && Flat(olds[..]) + Flat(buckets[..]) == old(Flat(olds[..]))
        invariant forall j :: 0 <= j < i ==> olds[j] == []
      {
        MoveBucket(olds, i);
      }
      FlatEmpty(olds[..]);
    }

    /** hash_insert: the equal element that was there, or none, and then e is in the table. */
    method Insert(e: T, roomy: bool) returns (r: Option<T>)
      requires Valid() && e in dom
      modifies this`elemCnt, this`buckets, buckets
      ensures Valid() && Does(less, old(Contents()), Op.Insert(e), r, Contents()) && (buckets == old(buckets) || fresh(buckets))
      ensures roomy ==> elemCnt < 4 * buckets.Length
    {
      hide TableOk, Proper, Flat, Members, TopBit;
      var i, k := Locate(e);
      r := if k < |buckets[i]| then Some(buckets[i][k]) else None;
      if r.None? { InsertElem(i, e); }
      LoadFactor(elemCnt);
      Rehash(roomy);
    }

    /** find_bucket and find_elem together. */
    method Locate(e: T) returns (i: nat, k: nat)
      requires Valid() && e in dom
      ensures i == hash(e) % buckets.Length && i < buckets.Length && k <= |buckets[i]|
      ensures k < |buckets[i]| ==> buckets[i][k] in Contents() && Equal(less, buckets[i][k], e)
      ensures k == |buckets[i]| ==> NoneEqual(less, Contents(), e)
    {
      i := FindBucket(e);
      k := FindElem(i, e);
      if k < |buckets[i]| {
        FlatWithout(buckets[..], i, k);
      } else {
        OnlyInBucket(less, hash, dom, buckets[..], e);
      }
    }

    /** hash_replace. */
    method Replace(e: T, roomy: bool) returns (r: Option<T>)
      requires Valid() && e in dom
      modifies this`elemCnt, this`buckets, buckets
      ensures Valid() && Does(less, old(Contents()), Op.Replace(e), r, Contents()) && (buckets == old(buckets) || fresh(buckets))
      ensures roomy ==> elemCnt < 4 * buckets.Length
    {
      hide TableOk, Flat, Members, TopBit;
      var i, k := Locate(e);
      r := if k < |buckets[i]| then Some(buckets[i][k]) else None;
      ghost var s := Contents();
      if r.Some? {
        OthersDiffer(e, r.value);
        RemoveElem(i, k);
      }
      InsertElem(i, e);
      LoadFactor(elemCnt);
      Rehash(roomy);
    }

    lemma OthersDiffer(e: T, x: T)
      requires Valid() && e in dom && x in Contents() && Equal(less, x, e)
      ensures NoneEqual(less, Contents() - {x}, e)
    {
      forall y | y in Contents() - {x} ensures !Equal(less, y, e) {
        if Equal(less, y, e) { EqualTransitive(less, dom, y, e, x); }
      }
    }

    /** hash_find. */
    method Find(e: T) returns (r: Option<T>)
      requires Valid() && e in dom
      ensures Does(less, Contents(), Op.Find(e), r, Contents())
    {
      var i, k := Locate(e);
      r := if k < |buckets[i]| then Some(buckets[i][k]) else None;
    }

    /** hash_delete. */
    method Delete(e: T, roomy: bool) returns (r: Option<T>)
      requires Valid() && e in dom
      modifies this`elemCnt, this`buckets, buckets
      ensures Valid() && Does(less, old(Contents()), Op.Delete(e), r, Contents()) && (buckets == old(buckets) || fresh(buckets))
      ensures roomy && r.Some? ==> elemCnt < 4 * buckets.Length
    {
      hide TableOk, Proper, Flat, Members, TopBit;
      var i, k := Locate(e);
      r := if k < |buckets[i]| then Some(buckets[i][k]) else None;
      if r.Some? {
        RemoveElem(i, k);
        LoadFactor(elemCnt);
        Rehash(roomy);
      }
    }

    /** hash_clear: every bucket is emptied, and the destructor sees every element once. */
    method Clear(destroy: bool) returns (destroyed: seq<T>)
      requires Valid()
      modifies this`elemCnt, buckets
      ensures Valid() && Contents() == {}
      ensures multiset(destroyed) == if destroy then old(Elems()) else multiset{}
    {
      hide Flat, Placed, IsPow2, Unique, Members;
      ghost var bs := buckets[..];
      destroyed := [];
      NoBuckets(bs);
      for i := 0 to buckets.Length
        invariant forall j :: 0 <= j < i ==> buckets[j] == []
        invariant forall j :: i <= j < buckets.Length ==> buckets[j] == bs[j]
        invariant multiset(destroyed) == if destroy then Flat(bs[..i]) else multiset{}
      {
        FlatSnoc(bs, i);
        var d := ClearBucket(i, destroy);
        destroyed := destroyed + d;
      }
      elemCnt := 0;
      assert bs[..buckets.Length] == bs;
      EmptyTable(less, hash, dom, buckets[..]);
    }

    method ClearBucket(i: nat, destroy: bool) returns (destroyed: seq<T>)
      requires i < buckets.Length
      modifies buckets
      ensures buckets[i] == [] && forall j :: 0 <= j < buckets.Length && j != i ==> buckets[j] == old(buckets[j])
      ensures destroyed == if destroy then old(buckets[i]) else []
    {
      destroyed := [];
      if destroy {
        while buckets[i] != []
          invariant destroyed + buckets[i] == old(buckets[i])
          invariant forall j :: 0 <= j < buckets.Length && j != i ==> buckets[j] == old(buckets[j])
          decreases |buckets[i]|
        {
          destroyed := destroyed + [buckets[i][0]];
          buckets[i] := buckets[i][1..];
        }
      }
      buckets[i] := [];
    }

    /** hash_size. */
    function Size(): nat
      reads this
    {
      elemCnt
    }

    /** No two elements of the set are equal, and all were handed to the table. */
    lemma ApartNow()
      requires Valid()
      ensures StrictWeak(less, dom) && Contents() <= dom && Apart(less, Contents())
    {
    }

    /** The count is the number of elements of the set. */
    lemma SizeExact()
      requires Valid()
      ensures Size() == |Contents()|
    {
      CountMembers(less, Elems());
    }
  }

  lemma {:induction false} CountMembers<T(!new)>(less: (T, T) -> bool, m: multiset<T>)
    requires Unique(less, m)
    ensures |m| == |Members(m)|
    decreases |m|
  {
    if |m| > 0 {
      var x :| x in m;
      UniqueDrop(less, m, x);
      CountMembers(less, m - multiset{x});
    }
  }

  method Do<T(==, !new)>(t: Table<T>, op: Op<T>, roomy: bool) returns (r: Option<T>)
    requires t.Valid() && op.e in t.dom
    modifies t`elemCnt, t`buckets, t.buckets
    ensures t.Valid() && Does(t.less, old(t.Contents()), op, r, t.Contents()) && (t.buckets == old(t.buckets) || fresh(t.buckets))
  {
    hide Table.Valid, Table.Contents, Does;
    match op {
      case Insert(e) => r := t.Insert(e, roomy);
      case Replace(e) => r := t.Replace(e, roomy);
      case Find(e) => r := t.Find(e);
      case Delete(e) => r := t.Delete(e, roomy);
    }
  }

  /**
   * Any run of operations, whether or not there is memory for each rehash,
   * answers as a set does; the count is that of the set all along, and no
   * other answers would do.
   */
  method Run<T(==, !new)>(t: Table<T>, ops: seq<Op<T>>, roomy: seq<bool>)
    returns (rs: seq<Option<T>>, counts: seq<nat>, ghost sets: seq<set<T>>)
    requires t.Valid() && |roomy| == |ops| && forall i :: 0 <= i < |ops| ==> ops[i].e in t.dom
    modifies t`elemCnt, t`buckets, t.buckets
    ensures t.Valid() && IsRun(t.less, sets, ops, rs) && sets[0] == old(t.Contents()) && sets[|ops|] == t.Contents()
    ensures |counts| == |ops| + 1 && forall i :: 0 <= i <= |ops| ==> counts[i] == |sets[i]|
    ensures forall sets', rs' :: IsRun(t.less, sets', ops, rs') && sets'[0] == sets[0] ==> rs' == rs
    ensures AllKept(t.less, sets[0], ops, rs)
  {
    hide Table.Valid, Table.Contents, Does, Apart, StrictWeak, AllKept;
    rs, counts, sets := [], [t.Size()], [t.Contents()];
    t.SizeExact();
    t.ApartNow();
    for i := 0 to |ops|
      invariant t.Valid() && IsRun(t.less, sets, ops[..i], rs) && sets[0] == old(t.Contents()) && sets[i] == t.Contents()
      invariant |counts| == i + 1 && forall k :: 0 <= k <= i ==> counts[k] == |sets[k]|
      invariant t.buckets == old(t.buckets) || fresh(t.buckets)
    {
      var r := Do(t, ops[i], roomy[i]);
      t.SizeExact();
      rs, counts, sets := rs + [r], counts + [t.Size()], sets + [t.Contents()];
    }
    assert ops[..|ops|] == ops;
    RunKept(t.less, t.dom, sets, ops, rs);
    forall sets', rs' | IsRun(t.less, sets', ops, rs') && sets'[0] == sets[0] ensures rs' == rs {
      OneOutcome(t.less, t.dom, sets, ops, rs, sets', rs', |ops|);
      assert rs[..|ops|] == rs && rs'[..|ops|] == rs';
    }
  }

  // ------------------------------------------------------------------- iteration

  /** struct hash_iterator; at is the place of the current element, -1 for the list head. */
  class Cursor<T(==, !new)> {
    const table: Table<T>
    var bucket: nat
    var at: int

    ghost predicate Valid()
      reads this, table, table.buckets
    {
      bucket < table.buckets.Length && -1 <= at < |table.buckets[bucket]|
    }

    /** The elements that have been passed, the current one included. */
    ghost function Seen(): multiset<T>
      requires Valid()
      reads this, table, table.buckets
    {
      Flat(table.buckets[..bucket]) + multiset(table.buckets[bucket][..at + 1])
    }

    /** hash_first. */
    constructor (table: Table<T>)
      requires table.Valid()
      ensures this.table == table && Valid() && Seen() == multiset{}
    {
      this.table := table;
      bucket, at := 0, -1;
    }

    /** hash_next: an element that was not passed yet, or none once all were. */
    method Next() returns (r: Option<T>)
      requires Valid()
      modifies this
      ensures r.Some? ==> Valid() && Seen() == old(Seen()) + multiset{r.value} && Seen() <= table.Elems()
      ensures r.None? ==> old(Seen()) == table.Elems()
    {
      hide Flat;
      ghost var bs, seen := table.buckets[..], Seen();
      assert table.buckets[..bucket] == bs[..bucket];
      at := at + 1;
      while at == |table.buckets[bucket]|
        invariant bucket < |bs| && 0 <= at <= |bs[bucket]|
        invariant seen == Flat(bs[..bucket]) + multiset(bs[bucket][..at])
        decreases |bs| - bucket
      {
        FlatSnoc(bs, bucket);
        assert bs[bucket][..at] == bs[bucket];
        bucket := bucket + 1;
        if bucket >= table.buckets.Length {
          assert bs[..bucket] == bs;
          return None;
        }
        at := 0;
      }
      assert bs[bucket][..at + 1] == bs[bucket][..at] + [bs[bucket][at]];
      FlatPrefix(bs, bucket, at + 1);
      assert table.buckets[..bucket] == bs[..bucket];
      return Some(table.buckets[bucket][at]);
    }
  }

  /** The iteration idiom visits each element of the set exactly once. */
  method Visit<T(==, !new)>(t: Table<T>) returns (s: seq<T>)
    requires t.Valid()
    ensures multiset(s) == t.Elems() && forall i, j :: 0 <= i < j < |s| ==> s[i] != s[j]
    ensures forall x :: x in t.Contents() <==> x in s
  {
    hide Flat, TableOk, Proper, Cursor.Valid, Cursor.Seen, Table.Elems;
    var c := new Cursor(t);
    s := [];
    var r := c.Next();
    ghost var m := t.Elems();
    while r.Some?
      invariant r.Some? ==> c.Valid() && c.Seen() == multiset(s) + multiset{r.value} && c.Seen() <= m
      invariant r.None? ==> multiset(s) == m
      decreases r.Some?, |m| - |s|
    {
      s := s + [r.value];
      SmallerThan(multiset(s), m);
      r := c.Next();
    }
    OneEach(t, s);
  }

  lemma SmallerThan<T>(a: multiset<T>, b: multiset<T>)
    requires a <= b
    ensures |a| <= |b|
  {
    assert b == a + (b - a);
  }

  lemma OneEach<T(!new)>(t: Table<T>, s: seq<T>)
    requires t.Valid() && multiset(s) == t.Elems()
    ensures forall i, j :: 0 <= i < j < |s| ==> s[i] != s[j]
    ensures forall x :: x in t.Contents() <==> x in s
  {
    forall i, j | 0 <= i < j < |s| ensures s[i] != s[j] {
      assert s == s[..i] + [s[i]] + s[i + 1..j] + [s[j]] + s[j + 1..];
      assert s[i] in multiset(s) && s[j] in multiset(s);
    }
    forall x ensures x in t.Contents() <==> x in s { assert x in multiset(s) <==> x in s; }
  }
}
