/** Byte streams that are cut into lines. */
module Streams {
  import opened Bytes

  const NL: byte := 10
  const CR: byte := 13

  /** The lines, each with its newline. */
  function Encode(ls: seq<seq<byte>>): seq<byte> {
    if ls == [] then [] else ls[0] + [NL] + Encode(ls[1..])
  }

  lemma {:induction false} EncodePlus(a: seq<seq<byte>>, b: seq<seq<byte>>)
    ensures Encode(a + b) == Encode(a) + Encode(b)
  {
    if a == [] {
      assert a + b == b;
    } else {
      assert (a + b)[1..] == a[1..] + b;
      EncodePlus(a[1..], b);
    }
  }

  lemma EncodeSnoc(a: seq<seq<byte>>, l: seq<byte>)
    ensures Encode(a + [l]) == Encode(a) + l + [NL]
  {
    EncodePlus(a, [l]);
    assert Encode([l]) == l + [NL];
  }

  ghost predicate Whole(ls: seq<seq<byte>>) { forall i :: 0 <= i < |ls| ==> NL !in ls[i] }

  /** A stream that starts as another one starts has its lines first. */
  lemma {:induction false} LinesFirst(a: seq<seq<byte>>, rest: seq<byte>, b: seq<seq<byte>>)
    requires Whole(a) && Whole(b) && Encode(a) + rest <= Encode(b)
    ensures a <= b
  {
    if a != [] {
      var s, t := Encode(a) + rest, Encode(b);
      assert s == a[0] + [NL] + (Encode(a[1..]) + rest);
      assert b != [] && t == b[0] + [NL] + Encode(b[1..]);
      SameFirst(a[0], Encode(a[1..]) + rest, b[0], Encode(b[1..]));
      assert a[1..] == a[1..] && Whole(a[1..]) && Whole(b[1..]);
      LinesFirst(a[1..], rest, b[1..]);
      assert a == [a[0]] + a[1..] && b == [b[0]] + b[1..];
    }
  }

  lemma SameFirst(x: seq<byte>, xs: seq<byte>, y: seq<byte>, ys: seq<byte>)
    requires NL !in x && NL !in y && x + [NL] + xs <= y + [NL] + ys
    ensures x == y && xs <= ys
  {
    var s, t := x + [NL] + xs, y + [NL] + ys;
    assert s[|x|] == NL && t[|y|] == NL;
    assert s[|x|] == t[|x|];
    assert x == s[..|x|] && y == t[..|y|];
    assert xs == s[|x| + 1..] && ys == t[|y| + 1..];
  }

  /** What is left behind the lines of a stream is no longer than a line of the stream. */
  lemma {:induction false} RestWithin(a: seq<seq<byte>>, rest: seq<byte>, b: seq<seq<byte>>, bound: nat)
    requires Whole(a) && Whole(b) && Encode(a) + rest <= Encode(b) && NL !in rest
    requires forall i :: 0 <= i < |b| ==> |b[i]| <= bound
    ensures |rest| <= bound
  {
    LinesFirst(a, rest, b);
    var c := b[|a|..];
    assert b == a + c;
    EncodePlus(a, c);
    assert (Encode(a) + rest)[|Encode(a)|..] == rest && Encode(b)[|Encode(a)|..] == Encode(c);
    if c != [] {
      assert Encode(c)[|c[0]|] == NL;
    }
  }

  // ------------------------------------------------------------ cutting a stream

  /** Where the first newline is, or the end. */
  function FirstNl(s: seq<byte>): (k: nat)
    ensures k <= |s| && NL !in s[..k] && (k < |s| ==> s[k] == NL) && (NL in s <==> k < |s|)
  {
    if s == [] || s[0] == NL then 0
    else
      var k := 1 + FirstNl(s[1..]);
      assert s[..k] == [s[0]] + s[1..][..k - 1];
      k
  }

  function Lines(s: seq<byte>): seq<seq<byte>>
    decreases |s|
  {
    if NL !in s then [] else [s[..FirstNl(s)]] + Lines(s[FirstNl(s) + 1..])
  }

  function Rest(s: seq<byte>): (r: seq<byte>)
    ensures NL !in r && |r| <= |s|
    decreases |s|
  {
    if NL !in s then s else Rest(s[FirstNl(s) + 1..])
  }

  lemma CutFirst(s: seq<byte>)
    requires FirstNl(s) < |s|
    ensures Lines(s) == [s[..FirstNl(s)]] + Lines(s[FirstNl(s) + 1..])
    ensures Rest(s) == Rest(s[FirstNl(s) + 1..])
  {
    LinesCut(s);
    RestCut(s);
    hide FirstNl, Lines, Rest;
  }

  lemma LinesCut(s: seq<byte>)
    requires FirstNl(s) < |s|
    ensures Lines(s) == [s[..FirstNl(s)]] + Lines(s[FirstNl(s) + 1..])
  {
    hide FirstNl, Rest;
    assert NL in s;
  }

  lemma RestCut(s: seq<byte>)
    requires FirstNl(s) < |s|
    ensures Rest(s) == Rest(s[FirstNl(s) + 1..])
  {
    hide FirstNl, Lines;
    assert NL in s;
  }

  lemma NoLines(s: seq<byte>)
    requires NL !in s
    ensures Lines(s) == [] && Rest(s) == s
  {}

  lemma {:induction false} FirstNlIs(s: seq<byte>, k: nat)
    requires k <= |s| && NL !in s[..k] && (k < |s| ==> s[k] == NL)
    ensures FirstNl(s) == k
  {
    var f := FirstNl(s);
    assert forall i :: 0 <= i < k ==> s[i] != NL by { assert forall i :: 0 <= i < k ==> s[i] in s[..k]; }
    assert forall i :: 0 <= i < f ==> s[i] != NL by { assert forall i :: 0 <= i < f ==> s[i] in s[..f]; }
  }

  /** Cutting a stream gives back the lines that were put into it, and what follows is cut by itself. */
  lemma {:induction false} LinesEncoded(ls: seq<seq<byte>>, rest: seq<byte>)
    requires Whole(ls)
    ensures Lines(Encode(ls) + rest) == ls + Lines(rest) && Rest(Encode(ls) + rest) == Rest(rest)
  {
    hide FirstNl, Lines, Rest;
    if ls == [] {
      assert Encode(ls) + rest == rest && ls + Lines(rest) == Lines(rest);
    } else {
      var s := Encode(ls) + rest;
      var k := |ls[0]|;
      assert s == ls[0] + [NL] + (Encode(ls[1..]) + rest);
      assert s[..k] == ls[0];
      FirstNlIs(s, k);
      CutFirst(s);
      assert s[k + 1..] == Encode(ls[1..]) + rest;
      LinesEncoded(ls[1..], rest);
      assert ls == [ls[0]] + ls[1..];
    }
  }

  /** A stream cut in two places: the lines of the first part, then those of what it left and the second part. */
  lemma {:induction false} LinesSplit(a: seq<byte>, b: seq<byte>)
    ensures Lines(a + b) == Lines(a) + Lines(Rest(a) + b) && Rest(a + b) == Rest(Rest(a) + b)
    decreases |a|
  {
    hide FirstNl, Lines, Rest;
    if NL in a {
      var k := FirstNl(a);
      assert (a + b)[..k] == a[..k];
      FirstNlIs(a + b, k);
      CutFirst(a);
      CutFirst(a + b);
      assert (a + b)[k + 1..] == a[k + 1..] + b;
      LinesSplit(a[k + 1..], b);
    } else {
      NoLines(a);
      assert Lines(a) + Lines(a + b) == Lines(a + b);
    }
  }
}
