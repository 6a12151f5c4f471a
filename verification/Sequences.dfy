/** Lists in which nothing occurs twice. */
module Sequences {
  predicate NoDuplicates<T(==)>(s: seq<T>) { forall i, j :: 0 <= i < j < |s| ==> s[i] != s[j] }

  lemma TailKeeps(s: seq<nat>)
    requires s != [] && NoDuplicates(s)
    ensures NoDuplicates(s[1..]) && forall b :: b in s[1..] <==> b in s && b != s[0]
  {
    forall b | b in s && b != s[0] ensures b in s[1..] {
      var i :| 0 <= i < |s| && s[i] == b;
      assert s[1..][i - 1] == b;
    }
  }

  lemma FrontKeeps(s: seq<nat>, b: nat)
    requires NoDuplicates(s) && b !in s
    ensures NoDuplicates([b] + s) && forall a :: a in [b] + s <==> a == b || a in s
  {}

  lemma AppendKeeps(s: seq<nat>, b: nat)
    requires NoDuplicates(s) && b !in s
    ensures NoDuplicates(s + [b]) && forall a :: a in s + [b] <==> a == b || a in s
  {}
}
