/**
 * Messages between the yash client and a yashd session: lines over a
 * byte stream that the network may cut anywhere. The server end is
 * server/src/session.c, the client end is client/src/client.c.
 */
module Framing {
  import opened Bytes
  import opened Options
  import opened Streams

  const BUF_SIZE := 4096
  const MSG_CMD: seq<byte> := [0x43, 0x4D, 0x44, 0x20]
  const MSG_CTL: seq<byte> := [0x43, 0x54, 0x4C, 0x20]
  const PROMPT: seq<byte> := [NL, 0x23, 0x20]
  const QUIT: seq<byte> := [0x71, 0x75, 0x69, 0x74]

  // ------------------------------------------------------------- the server end

  /** What the session gets to see of a line: a C string, without one carriage return at its end. */
  function Delivered(raw: seq<byte>): seq<byte> {
    CStr(if raw != [] && raw[|raw| - 1] == CR then raw[..|raw| - 1] else raw)
  }

  /** A message that arrives as it was sent. */
  predicate Plain(m: seq<byte>) { |m| < BUF_SIZE && NL !in m && 0 !in m && (m != [] ==> m[|m| - 1] != CR) }

  lemma {:induction false} NoNul(s: seq<byte>)
    requires 0 !in s
    ensures CStr(s) == s
  {
    if s != [] { NoNul(s[1..]); }
  }

  lemma PlainDelivered(m: seq<byte>)
    requires Plain(m)
    ensures Delivered(m) == m
  {
    NoNul(m);
  }

  /** memchr for a newline. */
  method FindNl(buf: array<byte>, n: nat) returns (k: nat)
    requires n <= buf.Length
    ensures k == FirstNl(buf[..n])
  {
    k := 0;
    while k < n && buf[k] != NL
      invariant k <= n && NL !in buf[..k]
    {
      k := k + 1;
    }
    FirstNlIs(buf[..n], k);
  }

  /** memmove to the front of a buffer, from position k on. */
  method MoveDown(buf: array<byte>, k: nat, n: nat)
    requires k <= n <= buf.Length
    modifies buf
    ensures buf[..n - k] == old(buf[k..n])
  {
    forall i | 0 <= i < n - k { buf[i] := buf[k + i]; }
  }

  lemma LineTaken(taken: seq<seq<byte>>, buf: seq<byte>, k: nat)
    requires Whole(taken) && k == FirstNl(buf) < |buf|
    ensures Whole(taken + [buf[..k]]) && Encode(taken + [buf[..k]]) + buf[k + 1..] == Encode(taken) + buf
  {
    EncodeSnoc(taken, buf[..k]);
    hide Encode, FirstNl;
    assert buf == buf[..k] + [NL] + buf[k + 1..];
    Joined(Encode(taken), buf[..k], [NL], buf[k + 1..]);
  }

  lemma Joined(a: seq<byte>, b: seq<byte>, c: seq<byte>, d: seq<byte>)
    ensures a + b + c + d == a + (b + c + d) && a + (b + c) + d == a + (b + c + d)
  {}

  ghost predicate AllPlain(msgs: seq<seq<byte>>) { forall i :: 0 <= i < |msgs| ==> Plain(msgs[i]) }

  /** Among plain messages no line fills the buffer. */
  lemma RestFits(taken: seq<seq<byte>>, rest: seq<byte>, msgs: seq<seq<byte>>)
    requires Whole(taken) && AllPlain(msgs) && Encode(taken) + rest <= Encode(msgs) && NL !in rest
    ensures |rest| < BUF_SIZE
  {
    RestWithin(taken, rest, msgs, BUF_SIZE - 1);
  }

  /** How a read from the socket ends: with at most n bytes, none if the peer closed, or with an error. */
  datatype Read = Data(n: nat) | Eintr | Fault

  /** How much the buffer takes of what the stream still has to deliver, when it holds no whole line. */
  function Amount(stream: seq<byte>, arrived: nat, n: nat): nat
    requires arrived <= |stream|
  {
    var room := BUF_SIZE - |Rest(stream[..arrived])|;
    if room <= 0 then 0 else Min(Min(n, |stream| - arrived), room)
  }

  /** Reading at the prompt: bytes arrive until there is a line to take; how many have arrived then, and how many lines were taken. */
  function Prompted(stream: seq<byte>, arrived: nat, count: nat, script: seq<Read>): (r: (nat, nat))
    requires arrived <= |stream|
    ensures r.0 <= |stream|
    decreases |script|
  {
    if count < |Lines(stream[..arrived])| then (arrived, count + 1)
    else if script == [] || script[0].Fault? then (arrived, count)
    else if script[0].Eintr? then Prompted(stream, arrived, count, script[1..])
    else if Amount(stream, arrived, script[0].n) == 0 then (arrived, count)
    else Prompted(stream, arrived + Amount(stream, arrived, script[0].n), count, script[1..])
  }

  lemma PromptedIs(stream: seq<byte>, arrived: nat, count: nat, script: seq<Read>)
    requires arrived <= |stream|
    ensures Prompted(stream, arrived, count, script) ==
      if count < |Lines(stream[..arrived])| then (arrived, count + 1)
      else if script == [] || script[0].Fault? then (arrived, count)
      else
        var n := if script[0].Eintr? then 0 else Amount(stream, arrived, script[0].n);
        if script[0].Data? && n == 0 then (arrived, count) else Prompted(stream, arrived + n, count, script[1..])
  {
    hide Lines, Amount;
  }

  class Session {
    const inbuf: array<byte>
    var inlen: nat

    /** All bytes read, the lines taken from them, and whether an overlong line was dropped. */
    ghost var received: seq<byte>
    ghost var taken: seq<seq<byte>>
    ghost var dropped: bool

    ghost predicate Valid()
      reads this, inbuf
    {
      && inbuf.Length == BUF_SIZE && inlen <= BUF_SIZE && Whole(taken)
      && (!dropped ==> received == Encode(taken) + inbuf[..inlen])
    }

    constructor ()
      ensures Valid() && received == [] && taken == [] && !dropped && inlen == 0 && fresh(inbuf)
    {
      inbuf := new byte[BUF_SIZE](_ => 0);
      inlen, received, taken, dropped := 0, [], [], false;
    }

    /** buf_take_line, for a line array of n bytes. */
    method TakeLine(n: nat) returns (line: Option<seq<byte>>)
      requires Valid() && n >= BUF_SIZE
      modifies this`inlen, this`taken, inbuf
      ensures Valid() && inlen <= old(inlen)
      ensures line.None? <==> NL !in old(inbuf[..inlen])
      ensures line.None? ==> taken == old(taken) && inbuf[..inlen] == old(inbuf[..inlen])
      ensures line.Some? ==>
        var k := FirstNl(old(inbuf[..inlen])); var raw := old(inbuf[..inlen])[..k];
        taken == old(taken) + [raw] && inbuf[..inlen] == old(inbuf[..inlen])[k + 1..] && line.value == Delivered(raw) && inlen < old(inlen)
    {
      hide Encode, Whole, CStr, FirstNl;
      ghost var was := inbuf[..inlen];
      var len := FindNl(inbuf, inlen);
      if len == inlen { return None; }
      var consumed := len + 1;
      ghost var raw := was[..len];
      LineTaken(taken, was, len);
      if len >= n { len := n - 1; }
      var text := inbuf[..len];
      assert text == raw;
      if len > 0 && text[len - 1] == CR { text := text[..len - 1]; }
      MoveDown(inbuf, consumed, inlen);
      inlen := inlen - consumed;
      taken := taken + [raw];
      assert inbuf[..inlen] == was[consumed..];
      return Some(CStr(text));
    }

    /** buf_fill, when the socket delivers chunk; -1 when the buffer is full of one line. */
    method Fill(chunk: seq<byte>) returns (n: int)
      requires Valid() && NL !in inbuf[..inlen] && (inlen < BUF_SIZE ==> |chunk| <= BUF_SIZE - inlen)
      modifies this`inlen, this`received, this`dropped, inbuf
      ensures Valid()
      ensures old(inlen) == BUF_SIZE ==> n == -1 && inlen == 0 && dropped && received == old(received)
      ensures old(inlen) < BUF_SIZE ==>
        n == |chunk| && dropped == old(dropped) && received == old(received) + chunk && inbuf[..inlen] == old(inbuf[..inlen]) + chunk
    {
      if inlen == inbuf.Length {
        inlen := 0;
        dropped := true;
        return -1;
      }
      forall i | 0 <= i < |chunk| { inbuf[inlen + i] := chunk[i]; }
      n := |chunk|;
      received := received + chunk;
      assert inbuf[..inlen + n] == old(inbuf[..inlen]) + chunk;
      inlen := inlen + n;
    }

    /** The loop that takes the lines that are complete. */
    method Drain() returns (lines: seq<seq<byte>>)
      requires Valid()
      modifies this`inlen, this`taken, inbuf
      ensures Valid() && NL !in inbuf[..inlen] && old(taken) <= taken
      ensures lines == Seen(taken[|old(taken)|..])
    {
      hide Encode, Whole, Delivered, FirstNl;
      lines := [];
      var line := TakeLine(BUF_SIZE);
      while line.Some?
        invariant Valid() && old(taken) <= taken
        invariant line.None? ==> NL !in inbuf[..inlen] && lines == Seen(taken[|old(taken)|..])
        invariant line.Some? ==> lines + [line.value] == Seen(taken[|old(taken)|..])
        decreases line.Some?, inlen
      {
        lines := lines + [line.value];
        ghost var more := taken[|old(taken)|..];
        line := TakeLine(BUF_SIZE);
        if line.Some? {
          assert taken[|old(taken)|..] == more + [taken[|taken| - 1]];
          SeenPlus(more, [taken[|taken| - 1]]);
        }
      }
    }

    /** The stream consists of messages that the buffer can hold, so far and with what is to come. */
    ghost predicate Fair(stream: seq<byte>, msgs: seq<seq<byte>>)
      reads this
    {
      !dropped && AllPlain(msgs) && received <= stream <= Encode(msgs)
    }

    /** What has been read is the lines that were taken and what the buffer holds. */
    lemma Accounts()
      requires Valid() && !dropped
      ensures Lines(received) == taken + Lines(inbuf[..inlen]) && Rest(received) == Rest(inbuf[..inlen])
      ensures NL !in inbuf[..inlen] ==> Lines(received) == taken && Rest(received) == inbuf[..inlen]
    {
      hide Encode, Lines, Rest, Whole;
      LinesEncoded(taken, inbuf[..inlen]);
      if NL !in inbuf[..inlen] { NoLines(inbuf[..inlen]); }
    }

    /** One read, when no whole line is buffered; -1 on an error. */
    method Receive(avail: seq<byte>, how: Read, ghost stream: seq<byte>, ghost msgs: seq<seq<byte>>) returns (n: int)
      requires Valid() && NL !in inbuf[..inlen] && received + avail == stream
      modifies this`inlen, this`received, this`dropped, inbuf
      ensures Valid() && (n <= 0 ==> received == old(received)) && (n >= 0 ==> n <= |avail| && received == old(received) + avail[..n])
      ensures old(Fair(stream, msgs)) ==>
        && Fair(stream, msgs) && |old(received)| <= |stream|
        && (how.Data? ==> n == Amount(stream, |old(received)|, how.n)) && (!how.Data? ==> n == -1)
    {
      hide Encode, Whole, Lines, Rest, AllPlain;
      if !dropped {
        Accounts();
        assert stream[..|received|] == received;
        if AllPlain(msgs) && stream <= Encode(msgs) {
          assert received <= Encode(msgs);
          RestFits(taken, inbuf[..inlen], msgs);
        }
      }
      if inlen == BUF_SIZE || how.Data? {
        var k := if how.Data? && inlen < BUF_SIZE then Min(Min(how.n, |avail|), BUF_SIZE - inlen) else 0;
        n := Fill(avail[..k]);
      } else {
        n := -1;
      }
    }

    /** There is a line to take just when more lines have been read than were taken. */
    method TakeNext() returns (line: Option<seq<byte>>)
      requires Valid()
      modifies this`inlen, this`taken, inbuf
      ensures Valid() && (line.None? ==> taken == old(taken) && NL !in inbuf[..inlen])
      ensures line.Some? ==> |taken| == |old(taken)| + 1 && old(taken) <= taken && line.value == Delivered(taken[|taken| - 1])
      ensures !dropped ==> (line.Some? <==> |old(taken)| < |Lines(received)|)
    {
      hide Encode, Whole, Delivered, FirstNl, Lines, Rest;
      if !dropped {
        Accounts();
        if NL in inbuf[..inlen] { SomeLine(inbuf[..inlen]); }
      }
      line := TakeLine(BUF_SIZE);
    }

    /** session_readsocket: takes a line from the buffer, and reads for as long as there is none. avail is what the socket has. */
    method ReadSocket(avail: seq<byte>, script: seq<Read>, ghost msgs: seq<seq<byte>>) returns (r: int, line: seq<byte>, n: nat)
      requires Valid()
      modifies this`inlen, this`taken, this`received, this`dropped, inbuf
      ensures Valid() && n <= |avail| && received == old(received) + avail[..n]
      ensures r != 1 ==> r <= 0 && taken == old(taken)
      ensures r == 1 ==> |taken| == |old(taken)| + 1 && old(taken) <= taken && line == Delivered(taken[|taken| - 1])
      ensures old(Fair(received + avail, msgs)) ==>
        && Fair(old(received) + avail, msgs)
        && (|received|, |taken|) == Prompted(old(received) + avail, |old(received)|, |old(taken)|, script)
    {
      hide Encode, Whole, Delivered, FirstNl, Lines, Rest, AllPlain, Amount, Prompted;
      ghost var stream := received + avail;
      n := 0;
      var i := 0;
      assert script[0..] == script;
      while true
        invariant i <= |script| && Valid() && taken == old(taken) && n <= |avail| && received == old(received) + avail[..n]
        invariant old(Fair(received + avail, msgs)) ==>
          && Fair(stream, msgs)
          && Prompted(stream, |received|, |taken|, script[i..]) == Prompted(stream, |old(received)|, |old(taken)|, script)
        decreases |script| - i
      {
        assert received + avail[n..] == stream && stream[..|received|] == received;
        PromptedIs(stream, |received|, |taken|, script[i..]);
        var taking := TakeNext();
        if taking.Some? { return 1, taking.value, n; }
        if i == |script| { return -1, [], n; }
        assert script[i..][0] == script[i] && script[i..][1..] == script[i + 1..];
        var k := Receive(avail[n..], script[i], stream, msgs);
        if k > 0 {
          assert avail[..n] + avail[n..][..k] == avail[..n + k];
          n := n + k;
        }
        if k == 0 { return 0, [], n; }
        if k < 0 && !script[i].Eintr? { return -1, [], n; }
        i := i + 1;
      }
    }

    /** session_pump, when select says that chunk is there, or none before the time is up. */
    method Pump(chunk: Option<seq<byte>>, ghost msgs: seq<seq<byte>>) returns (open: bool, lines: seq<seq<byte>>, n: int)
      requires Valid() && (chunk.Some? ==> |chunk.value| <= BUF_SIZE)
      modifies this`inlen, this`taken, this`received, this`dropped, inbuf
      ensures Valid() && NL !in inbuf[..inlen] && old(taken) <= taken && lines == Seen(taken[|old(taken)|..])
      ensures n >= 0 ==> chunk.Some? && n <= |chunk.value| && received == old(received) + chunk.value[..n]
      ensures n < 0 ==> received == old(received)
      ensures !old(dropped) && AllPlain(msgs) && old(received) <= Encode(msgs) ==>
        !dropped && Lines(received) == taken && (chunk.Some? ==> n == Min(|chunk.value|, BUF_SIZE - |Rest(old(received))|))
    {
      hide Encode, Whole, Seen, CStr, FirstNl, Lines, Rest, AllPlain;
      lines := Drain();
      if !dropped { Accounts(); }
      if chunk.None? { return true, lines, -1; }
      if !dropped && AllPlain(msgs) && received <= Encode(msgs) { RestFits(taken, inbuf[..inlen], msgs); }
      n := Fill(chunk.value[..Min(|chunk.value|, BUF_SIZE - inlen)]);
      if n == 0 {
        assert received == old(received);
        return false, lines, 0;
      }
      ghost var t := taken;
      var more := Drain();
      if !dropped { Accounts(); }
      assert taken[|old(taken)|..] == t[|old(taken)|..] + taken[|t|..];
      SeenPlus(t[|old(taken)|..], taken[|t|..]);
      return true, lines + more, n;
    }
  }

  lemma SomeLine(s: seq<byte>)
    requires NL in s
    ensures |Lines(s)| > 0
  {}

  function Seen(raws: seq<seq<byte>>): seq<seq<byte>> {
    if raws == [] then [] else [Delivered(raws[0])] + Seen(raws[1..])
  }

  lemma {:induction false} SeenPlus(a: seq<seq<byte>>, b: seq<seq<byte>>)
    ensures Seen(a + b) == Seen(a) + Seen(b)
  {
    if a == [] {
      assert a + b == b;
    } else {
      assert (a + b)[1..] == a[1..] + b;
      SeenPlus(a[1..], b);
    }
  }

  // ------------------------------------------------------------- the client end

  /** What the system answers to a write. */
  datatype Answer = Wrote(n: nat) | Interrupted | Failed

  /** A connection: what was sent, the answers to come, and whether a write has failed. */
  datatype Conn = Conn(sent: seq<byte>, script: seq<Answer>, broken: bool)

  /** The next write fails: once one has, all do. */
  predicate Fails(c: Conn) { c.broken || c.script == [] || c.script[0].Failed? }

  /** What becomes of a connection when bytes are sent on it, for as many writes as it takes. */
  function Puts(c: Conn, buf: seq<byte>): Conn
    decreases |c.script|
  {
    if buf == [] then c
    else if Fails(c) then c.(broken := true)
    else
      var k := Takes(c.script[0], buf);
      Puts(c.(sent := c.sent + buf[..k], script := c.script[1..]), buf[k..])
  }

  lemma PutsStep(c: Conn, buf: seq<byte>)
    requires buf != []
    ensures Fails(c) ==> Puts(c, buf) == c.(broken := true)
    ensures !Fails(c) ==>
      var k := Takes(c.script[0], buf); Puts(c, buf) == Puts(Conn(c.sent + buf[..k], c.script[1..], false), buf[k..])
  {}

  lemma PutsNothing(c: Conn)
    ensures Puts(c, []) == c
  {}

  /** The bytes that a write with this answer takes. */
  function Takes(a: Answer, buf: seq<byte>): nat { if a.Wrote? then Min(a.n, |buf|) else 0 }

  /** ... and when messages are, one after the other. */
  function PutsAll(answers: seq<Answer>, msgs: seq<seq<byte>>): Conn {
    if msgs == [] then Conn([], answers, false)
    else Puts(PutsAll(answers, msgs[..|msgs| - 1]), msgs[|msgs| - 1] + [NL])
  }

  predicate Suffix(a: seq<Answer>, b: seq<Answer>) { |a| <= |b| && a == b[|b| - |a|..] }

  lemma SuffixSelf(a: seq<Answer>)
    ensures Suffix(a, a)
  {}

  lemma SuffixOf(a: seq<Answer>, b: seq<Answer>, c: seq<Answer>)
    requires Suffix(a, b) && Suffix(b, c)
    ensures Suffix(a, c)
  {}

  /** Either all bytes are sent, or the first of them and then a write failed, as the answers say. */
  lemma {:induction false} PutsMeans(c: Conn, buf: seq<byte>)
    ensures var c' := Puts(c, buf);
      && c.sent <= c'.sent <= c.sent + buf && Suffix(c'.script, c.script)
      && (!c'.broken ==> c'.sent == c.sent + buf) && (c'.broken ==> c.broken || Fails(c'.(broken := false)))
      && (c.broken ==> c' == c)
    decreases |c.script|
  {
    if buf == [] {
      assert c.sent + buf == c.sent;
    } else if !Fails(c) {
      var k := Takes(c.script[0], buf);
      assert c.sent + buf[..k] + buf[k..] == c.sent + buf;
      PutsMeans(c.(sent := c.sent + buf[..k], script := c.script[1..]), buf[k..]);
    }
  }

  lemma {:induction false} PutsAllMeans(answers: seq<Answer>, msgs: seq<seq<byte>>)
    ensures var c := PutsAll(answers, msgs);
      && c.sent <= Encode(msgs) && Suffix(c.script, answers)
      && (!c.broken ==> c.sent == Encode(msgs)) && (c.broken ==> Fails(c.(broken := false)))
  {
    hide Encode, Puts, Suffix;
    EncodeNone();
    SuffixSelf(answers);
    if msgs != [] {
      var front, m := msgs[..|msgs| - 1], msgs[|msgs| - 1];
      PutsAllMeans(answers, front);
      PutsMeans(PutsAll(answers, front), m + [NL]);
      SuffixOf(PutsAll(answers, msgs).script, PutsAll(answers, front).script, answers);
      assert msgs == front + [m];
      EncodeSnoc(front, m);
    }
  }

  lemma EncodeNone()
    ensures Encode([]) == []
  {}

  /** The answers by which a write makes headway, before one by which it fails. */
  function Headway(script: seq<Answer>): nat {
    if script == [] || script[0].Failed? then 0
    else (if script[0].Wrote? && script[0].n > 0 then 1 else 0) + Headway(script[1..])
  }

  /** With as many of them as there are bytes, all is sent. */
  lemma {:induction false} PutsWhole(c: Conn, buf: seq<byte>)
    requires !c.broken && Headway(c.script) >= |buf|
    ensures !Puts(c, buf).broken && Headway(Puts(c, buf).script) >= Headway(c.script) - |buf|
    decreases |c.script|
  {
    if buf != [] {
      var k := Takes(c.script[0], buf);
      PutsWhole(c.(sent := c.sent + buf[..k], script := c.script[1..]), buf[k..]);
    }
  }

  lemma {:induction false} AllPut(answers: seq<Answer>, msgs: seq<seq<byte>>)
    requires Headway(answers) >= |Encode(msgs)|
    ensures PutsAll(answers, msgs).sent == Encode(msgs) && !PutsAll(answers, msgs).broken
    ensures Headway(PutsAll(answers, msgs).script) >= Headway(answers) - |Encode(msgs)|
  {
    hide Encode, Puts;
    EncodeNone();
    PutsAllMeans(answers, msgs);
    if msgs != [] {
      var front, m := msgs[..|msgs| - 1], msgs[|msgs| - 1];
      assert msgs == front + [m];
      EncodeSnoc(front, m);
      AllPut(answers, front);
      PutsWhole(PutsAll(answers, front), m + [NL]);
    }
  }

  class Wire {
    var script: seq<Answer>
    var sent: seq<byte>
    var broken: bool

    function State(): Conn
      reads this
    {
      Conn(sent, script, broken)
    }

    constructor (script: seq<Answer>)
      ensures State() == Conn([], script, false)
    {
      this.script := script;
      sent, broken := [], false;
    }

    /** write(2): the number of bytes taken, or -1 and whether it was interrupted. */
    method Write(buf: seq<byte>) returns (w: int, eintr: bool)
      modifies this
      ensures old(Fails(State())) ==> w == -1 && !eintr && State() == old(State()).(broken := true)
      ensures !old(Fails(State())) ==>
        && eintr == old(script[0]).Interrupted? && w == (if eintr then -1 else Takes(old(script[0]), buf))
        && State() == Conn(old(sent) + buf[..Takes(old(script[0]), buf)], old(script)[1..], false)
    {
      if broken || script == [] || script[0].Failed? {
        broken := true;
        return -1, false;
      }
      var a := script[0];
      script := script[1..];
      if a.Interrupted? { return -1, true; }
      w, eintr := Min(a.n, |buf|), false;
      sent := sent + buf[..w];
    }

    /** One turn of the loop of send_all: how many more bytes have been sent, or a failure. */
    method WriteRest(buf: seq<byte>, off: nat) returns (w: nat, failed: bool)
      requires off < |buf|
      modifies this
      ensures failed ==> broken && State() == Puts(old(State()), buf[off..])
      ensures !failed ==> !broken && off + w <= |buf| && |script| < |old(script)| && Puts(State(), buf[off + w..]) == Puts(old(State()), buf[off..])
    {
      hide Puts;
      ghost var left := buf[off..];
      PutsStep(State(), left);
      var r, eintr := Write(buf[off..]);
      failed := r < 0 && !eintr;
      w := if r < 0 then 0 else r;
      assert left[w..] == buf[off + w..];
    }

    /** send_all: the connection is as sending all the bytes leaves it, and the caller is told whether all were sent. */
    method SendAll(buf: seq<byte>) returns (ok: bool)
      modifies this
      ensures State() == Puts(old(State()), buf)
      ensures ok <==> buf == [] || !broken
      ensures ok ==> sent == old(sent) + buf
      ensures !ok ==> broken && old(sent) <= sent <= old(sent) + buf
      ensures broken ==> old(broken) || script == [] || script[0].Failed?
    {
      hide Puts;
      var off := 0;
      assert buf[0..] == buf;
      while off < |buf|
        invariant 0 <= off <= |buf| && Puts(State(), buf[off..]) == Puts(old(State()), buf) && (off > 0 ==> !broken)
        decreases |script|
      {
        var w, failed := WriteRest(buf, off);
        if failed {
          PutsMeans(old(State()), buf);
          return false;
        }
        off := off + w;
      }
      assert buf[off..] == [];
      PutsNothing(State());
      PutsMeans(old(State()), buf);
      ok := true;
    }
  }

  /** What send_msg puts on the wire: a formatted line, cut to fit its buffer. */
  function Frame(prefix: seq<byte>, body: seq<byte>): seq<byte> {
    var f := prefix + CStr(body) + [NL];
    if |f| >= BUF_SIZE then f[..BUF_SIZE - 1] else f
  }

  /** A line that a user may type. */
  predicate Typeable(l: seq<byte>) { |l| <= 4090 && NL !in l && 0 !in l && (l != [] ==> l[|l| - 1] != CR) }

  lemma FrameWhole(prefix: seq<byte>, l: seq<byte>)
    requires Typeable(l) && (prefix == [] || prefix == MSG_CMD || prefix == MSG_CTL)
    ensures Plain(prefix + l) && Frame(prefix, l) == prefix + l + [NL]
  {
    NoNul(l);
    assert forall b :: b in prefix ==> b != NL && b != 0 && b != CR;
  }

  /** A command of more than 4090 bytes is cut, and so loses its newline. */
  lemma FrameCut(l: seq<byte>)
    requires 0 !in l && NL !in l
    ensures Frame(MSG_CMD, l) == MSG_CMD + l + [NL] <==> |l| <= 4090
    ensures |l| > 4090 ==> Frame(MSG_CMD, l) == (MSG_CMD + l)[..BUF_SIZE - 1] && NL !in Frame(MSG_CMD, l)
  {
    NoNul(l);
    var f := MSG_CMD + l + [NL];
    if |l| > 4090 { assert f[..BUF_SIZE - 1] == (MSG_CMD + l)[..BUF_SIZE - 1]; }
  }

  /** What the lines typed make of the prompt flag: the messages to send, the flag, and whether to stop. */
  function Messages(ls: seq<seq<byte>>, prompt: bool): (seq<seq<byte>>, bool, bool) {
    if ls == [] then ([], prompt, false)
    else if prompt && CStr(ls[0]) == QUIT then ([], prompt, true)
    else
      var (ms, p, done) := Messages(ls[1..], false);
      ([(if prompt then MSG_CMD else []) + ls[0]] + ms, p, done)
  }

  /** What the session takes a message for. */
  datatype Heard = Command(text: seq<byte>) | Control(arg: seq<byte>) | Text(line: seq<byte>)

  /** dispatch, and dispatch_running while a foreground job has the session. */
  function Dispatch(line: seq<byte>, running: bool): Heard {
    if !running && MSG_CMD <= line then Command(line[|MSG_CMD|..])
    else if MSG_CTL <= line then Control(line[|MSG_CTL|..])
    else Text(line)
  }

  /**
   * What is typed is heard as it was meant: the first line at a prompt as
   * a command, unless it is quit, which is not sent; any other line, while
   * the command runs, as its input, except that a line that begins with
   * the prefix of control messages is heard as one.
   */
  lemma {:induction false} TypedIsHeard(ls: seq<seq<byte>>, prompt: bool, i: nat)
    requires i < |ls|
    ensures var (ms, p, done) := Messages(ls, prompt);
      && (done <==> prompt && CStr(ls[0]) == QUIT) && (done ==> ms == [] && p) && (!done ==> |ms| == |ls| && !p)
      && (!done ==>
            Dispatch(ms[i], !prompt || i > 0) ==
            if prompt && i == 0 then Command(ls[0]) else if MSG_CTL <= ls[i] then Control(ls[i][4..]) else Text(ls[i]))
  {
    hide CStr;
    if |ls| > 1 {
      TypedIsHeard(ls[1..], false, if i > 0 then i - 1 else 0);
    } else {
      assert Messages(ls[1..], false) == ([], false, false);
    }
  }

  /** What handle_ctl does: interrupt or stop the foreground job, or end its input. */
  datatype Effect = Interrupts | Stops | EndsInput | Nothing

  function Controls(arg: seq<byte>): Effect {
    if arg == [] then Nothing
    else if arg[0] == 'c' as int then Interrupts
    else if arg[0] == 'z' as int then Stops
    else if arg[0] == 'd' as int then EndsInput
    else Nothing
  }

  class Client {
    const wire: Wire
    const inbuf: array<byte>
    var inlen: nat
    var tail: (byte, byte, byte)
    var prompt: bool
    var stdinOpen: bool
    var done: bool

    /** The answers that the connection started with. */
    ghost const answers: seq<Answer>

    /** The messages sent so far, whether all of them were lines that may be typed, and all bytes received. */
    ghost var msgs: seq<seq<byte>>
    ghost var tidy: bool
    ghost var gotten: seq<byte>

    ghost predicate Valid()
      reads this, wire, inbuf
    {
      && inbuf.Length == BUF_SIZE && inlen < BUF_SIZE && (!done ==> NL !in inbuf[..inlen])
      && (tidy ==> AllPlain(msgs) && Carried(wire.State(), answers, msgs))
      && |gotten| >= 3 && tail == Tail(gotten)
    }

    constructor (wire: Wire)
      requires wire.sent == [] && !wire.broken
      ensures Valid() && this.wire == wire && answers == wire.script && fresh(inbuf) && msgs == [] && tidy && prompt && !done && gotten == PROMPT && inlen == 0
    {
      this.wire, answers := wire, wire.script;
      inbuf := new byte[BUF_SIZE](_ => 0);
      inlen, prompt, stdinOpen, done := 0, true, true, false;
      tail := (NL, 0x23, 0x20);
      msgs, tidy, gotten := [], true, PROMPT;
    }

    /** send_msg; nobody looks at whether it succeeded. */
    method SendMsg(prefix: seq<byte>, body: seq<byte>)
      requires inbuf.Length == BUF_SIZE && (tidy ==> AllPlain(msgs) && Carried(wire.State(), answers, msgs))
      requires prefix == [] || prefix == MSG_CMD || prefix == MSG_CTL
      modifies this`msgs, this`tidy, wire
      ensures (tidy ==> AllPlain(msgs) && Carried(wire.State(), answers, msgs)) && old(wire.sent) <= wire.sent
      ensures msgs == old(msgs) + [prefix + body] && tidy == (old(tidy) && Typeable(body))
    {
      hide CStr, Encode, Frame, Typeable, Puts, PutsAll;
      var ok := wire.SendAll(Frame(prefix, body));
      tidy := tidy && Typeable(body);
      msgs := msgs + [prefix + body];
      if tidy {
        FrameWhole(prefix, body);
        PutsSnoc(answers, old(msgs), prefix + body);
      }
    }

    /** send_line. */
    method SendLine(line: seq<byte>) returns (quit: bool)
      requires inbuf.Length == BUF_SIZE && (tidy ==> AllPlain(msgs) && Carried(wire.State(), answers, msgs))
      modifies this`msgs, this`tidy, this`prompt, wire
      ensures (tidy ==> AllPlain(msgs) && Carried(wire.State(), answers, msgs)) && old(wire.sent) <= wire.sent
      ensures quit == (old(prompt) && CStr(line) == QUIT)
      ensures quit ==> msgs == old(msgs) && prompt == old(prompt) && tidy == old(tidy)
      ensures !quit ==> !prompt && msgs == old(msgs) + [(if old(prompt) then MSG_CMD else []) + line]
      ensures !quit ==> tidy == (old(tidy) && Typeable(line))
    {
      hide CStr, Encode, Frame, Typeable, AllPlain, Carried;
      if prompt {
        if CStr(line) == QUIT { return true; }
        SendMsg(MSG_CMD, line);
        prompt := false;
      } else {
        SendMsg([], line);
      }
      quit := false;
    }

    /** The client reads from the socket: push_tail and at_prompt. */
    method OnSocket(chunk: seq<byte>)
      requires Valid() && chunk != []
      modifies this`tail, this`prompt, this`gotten
      ensures Valid() && gotten == old(gotten) + chunk && (prompt <==> PROMPT == gotten[|gotten| - 3..])
    {
      hide Encode, AllPlain, Carried;
      for i := 0 to |chunk|
        invariant gotten == old(gotten) && tail == Tail(old(gotten) + chunk[..i])
      {
        assert old(gotten) + chunk[..i + 1] == old(gotten) + chunk[..i] + [chunk[i]];
        tail := (tail.1, tail.2, chunk[i]);
      }
      assert chunk[..|chunk|] == chunk;
      gotten := gotten + chunk;
      prompt := tail.0 == NL && tail.1 == 0x23 && tail.2 == 0x20;
    }

    /** The first line of the buffer is sent. */
    method SendFirst(len: nat)
      requires inbuf.Length == BUF_SIZE && len < inlen <= BUF_SIZE && !done
      requires tidy ==> AllPlain(msgs) && Carried(wire.State(), answers, msgs)
      modifies this`inlen, this`msgs, this`tidy, this`prompt, this`done, inbuf, wire
      ensures (tidy ==> AllPlain(msgs) && Carried(wire.State(), answers, msgs)) && old(wire.sent) <= wire.sent
      ensures inlen == old(inlen) - (len + 1) && inbuf[..inlen] == old(inbuf[..inlen])[len + 1..]
      ensures var line := old(inbuf[..inlen])[..len];
        && done == (old(prompt) && CStr(line) == QUIT)
        && (done ==> msgs == old(msgs) && prompt == old(prompt) && tidy == old(tidy))
        && (!done ==> !prompt && msgs == old(msgs) + [(if old(prompt) then MSG_CMD else []) + line] && tidy == (old(tidy) && Typeable(line)))
    {
      hide CStr, Encode, Typeable, AllPlain, Carried;
      ghost var s := inbuf[..inlen];
      var line := inbuf[..len];
      assert line == s[..len];
      done := SendLine(line);
      MoveDown(inbuf, len + 1, inlen);
      inlen := inlen - (len + 1);
      assert inbuf[..inlen] == s[len + 1..];
    }

    /** The lines of the buffer are sent. */
    method SendLines()
      requires inbuf.Length == BUF_SIZE && inlen <= BUF_SIZE && !done
      requires tidy ==> AllPlain(msgs) && Carried(wire.State(), answers, msgs)
      modifies this`inlen, this`msgs, this`tidy, this`prompt, this`done, inbuf, wire
      ensures inlen <= BUF_SIZE && (tidy ==> AllPlain(msgs) && Carried(wire.State(), answers, msgs)) && old(wire.sent) <= wire.sent
      ensures !done ==> inbuf[..inlen] == Rest(old(inbuf[..inlen]))
      ensures done ==> inlen < BUF_SIZE
      ensures (msgs, prompt, done) == var (ms, p, d) := Messages(Lines(old(inbuf[..inlen])), old(prompt)); (old(msgs) + ms, p, d)
      ensures old(tidy) && AllTypeable(Lines(old(inbuf[..inlen]))) ==> tidy
    {
      hide CStr, Encode, Typeable, AllPlain, Carried, FirstNl, Lines, Rest, Messages, Onward, AllTypeable;
      ghost var s0 := inbuf[..inlen];
      ghost var ms := [];
      OnwardStart(Lines(s0), prompt);
      var len := FindNl(inbuf, inlen);
      while !done && len < inlen
        invariant inlen <= BUF_SIZE && (!done ==> len == FirstNl(inbuf[..inlen])) && (done ==> inlen < BUF_SIZE)
        invariant (tidy ==> AllPlain(msgs) && Carried(wire.State(), answers, msgs)) && old(wire.sent) <= wire.sent
        invariant Rest(s0) == Rest(inbuf[..inlen])
        invariant msgs == old(msgs) + ms
        invariant Messages(Lines(s0), old(prompt)) == if done then (ms, prompt, true) else Onward(ms, Lines(inbuf[..inlen]), prompt)
        invariant old(tidy) && AllTypeable(Lines(s0)) ==> tidy && (!done ==> AllTypeable(Lines(inbuf[..inlen])))
        decreases inlen
      {
        ghost var s := inbuf[..inlen];
        FirstStep(ms, s, len, prompt);
        ms := if prompt && CStr(s[..len]) == QUIT then ms else ms + [(if prompt then MSG_CMD else []) + s[..len]];
        SendFirst(len);
        len := FindNl(inbuf, inlen);
      }
      if !done { LastStep(ms, inbuf[..inlen], prompt); }
    }

    /** The client reads typed bytes: whole lines are sent, and a line that fills the buffer is dropped. */
    method OnStdin(chunk: seq<byte>)
      requires Valid() && !done && 0 < |chunk| <= BUF_SIZE - inlen
      modifies this`inlen, this`msgs, this`tidy, this`prompt, this`done, inbuf, wire
      ensures Valid() && old(wire.sent) <= wire.sent
      ensures (msgs, prompt, done) == var (ms, p, d) := Messages(Lines(old(inbuf[..inlen]) + chunk), old(prompt)); (old(msgs) + ms, p, d)
      ensures !done ==> inbuf[..inlen] == var r := Rest(old(inbuf[..inlen]) + chunk); if |r| == BUF_SIZE then [] else r
      ensures old(tidy) && AllTypeable(Lines(old(inbuf[..inlen]) + chunk)) ==> tidy
    {
      hide CStr, Encode, Typeable, AllPlain, Carried, FirstNl, Lines, Rest, Messages, AllTypeable;
      forall i | 0 <= i < |chunk| { inbuf[inlen + i] := chunk[i]; }
      inlen := inlen + |chunk|;
      assert inbuf[..inlen] == old(inbuf[..inlen]) + chunk;
      SendLines();
      if inlen == inbuf.Length { inlen := 0; }
    }

    /** The end of typed input, Ctrl-d: what was typed before it is sent first. */
    method OnEof(tty: bool)
      requires Valid() && !done
      modifies this`inlen, this`msgs, this`tidy, this`prompt, this`stdinOpen, this`done, wire
      ensures Valid() && old(wire.sent) <= wire.sent && inlen == 0
      ensures var line := old(inbuf[..inlen]);
        var (ms, p, d) := Messages(if line == [] then [] else [line], old(prompt));
        msgs == old(msgs) + ms + [MSG_CTL + [0x64]] && prompt == p && done == (d || p)
      ensures old(tidy) && Typeable(old(inbuf[..inlen])) ==> tidy
    {
      hide CStr, Encode, AllPlain, Carried;
      ghost var line := inbuf[..inlen];
      if inlen > 0 {
        OnwardStart([line], prompt);
        OnwardStep([], line, [], prompt);
        done := SendLine(inbuf[..inlen]);
        OnwardEnd([(if old(prompt) then MSG_CMD else []) + line], false);
        inlen := 0;
      }
      SendMsg(MSG_CTL, [0x64]);
      if prompt {
        done := true;
      } else if !tty {
        stdinOpen := false;
      }
    }

    /** A signal that the user typed, which becomes a CTL message. */
    method OnSignal(stop: bool)
      requires Valid()
      modifies this`msgs, this`tidy, wire
      ensures Valid() && old(wire.sent) <= wire.sent && tidy == old(tidy)
      ensures msgs == old(msgs) + [MSG_CTL + if stop then [0x7A] else [0x63]]
    {
      hide CStr, Encode, AllPlain, Carried;
      SendMsg(MSG_CTL, if stop then [0x7A] else [0x63]);
    }
  }

  /** The messages so far and those that lines to come will make. */
  ghost function Onward(ms: seq<seq<byte>>, ls: seq<seq<byte>>, prompt: bool): (seq<seq<byte>>, bool, bool) {
    var (more, p, done) := Messages(ls, prompt);
    (ms + more, p, done)
  }

  lemma OnwardStart(ls: seq<seq<byte>>, prompt: bool)
    ensures Onward([], ls, prompt) == Messages(ls, prompt)
  {
    assert [] + Messages(ls, prompt).0 == Messages(ls, prompt).0;
  }

  lemma OnwardStep(ms: seq<seq<byte>>, l: seq<byte>, ls: seq<seq<byte>>, prompt: bool)
    ensures Onward(ms, [l] + ls, prompt) ==
      if prompt && CStr(l) == QUIT then (ms, prompt, true)
      else Onward(ms + [(if prompt then MSG_CMD else []) + l], ls, false)
  {
    assert ([l] + ls)[1..] == ls;
    var m := (if prompt then MSG_CMD else []) + l;
    var more := Messages(ls, false).0;
    assert ms + ([m] + more) == ms + [m] + more && ms + [] == ms;
  }

  lemma OnwardEnd(ms: seq<seq<byte>>, prompt: bool)
    ensures Onward(ms, [], prompt) == (ms, prompt, false)
  {
    assert ms + [] == ms;
  }

  predicate AllTypeable(ls: seq<seq<byte>>) { forall i :: 0 <= i < |ls| ==> Typeable(ls[i]) }

  lemma TypeableStep(l: seq<byte>, ls: seq<seq<byte>>)
    ensures AllTypeable([l] + ls) <==> Typeable(l) && AllTypeable(ls)
  {
    hide Typeable;
    if AllTypeable([l] + ls) {
      assert Typeable(([l] + ls)[0]);
      forall i | 0 <= i < |ls| ensures Typeable(ls[i]) { assert Typeable(([l] + ls)[i + 1]); }
    }
  }

  /** The first line of the buffer is cut off. */
  lemma FirstStep(ms: seq<seq<byte>>, s: seq<byte>, len: nat, prompt: bool)
    requires len == FirstNl(s) < |s|
    ensures Rest(s) == Rest(s[len + 1..])
    ensures Onward(ms, Lines(s), prompt) ==
      if prompt && CStr(s[..len]) == QUIT then (ms, prompt, true)
      else Onward(ms + [(if prompt then MSG_CMD else []) + s[..len]], Lines(s[len + 1..]), false)
    ensures AllTypeable(Lines(s)) <==> Typeable(s[..len]) && AllTypeable(Lines(s[len + 1..]))
  {
    hide CStr, Typeable, FirstNl, Lines, Rest, Onward, AllTypeable;
    CutFirst(s);
    OnwardStep(ms, s[..len], Lines(s[len + 1..]), prompt);
    TypeableStep(s[..len], Lines(s[len + 1..]));
  }

  /** No line is left. */
  lemma LastStep(ms: seq<seq<byte>>, s: seq<byte>, prompt: bool)
    requires FirstNl(s) == |s|
    ensures Rest(s) == s && Onward(ms, Lines(s), prompt) == (ms, prompt, false)
  {
    NoLines(s);
    OnwardEnd(ms, prompt);
  }

  function Tail(s: seq<byte>): (byte, byte, byte)
    requires |s| >= 3
  {
    (s[|s| - 3], s[|s| - 2], s[|s| - 1])
  }

  /** The connection is as sending the messages leaves it. */
  ghost predicate Carried(c: Conn, answers: seq<Answer>, msgs: seq<seq<byte>>) { c == PutsAll(answers, msgs) }

  lemma PutsSnoc(answers: seq<Answer>, msgs: seq<seq<byte>>, m: seq<byte>)
    ensures PutsAll(answers, msgs + [m]) == Puts(PutsAll(answers, msgs), m + [NL])
  {
    assert (msgs + [m])[..|msgs|] == msgs;
  }

  // ------------------------------------------------------------------ end to end

  /**
   * Whatever was sent of plain messages, and whatever of that arrived: the
   * lines that the session took are the first of the messages, unchanged,
   * and all of them once all has arrived.
   */
  lemma EndToEnd(msgs: seq<seq<byte>>, received: seq<byte>, taken: seq<seq<byte>>, rest: seq<byte>)
    requires AllPlain(msgs) && Whole(taken) && received <= Encode(msgs) && received == Encode(taken) + rest
    ensures taken <= msgs && Seen(taken) == taken
    ensures received == Encode(msgs) && NL !in rest ==> taken == msgs
  {
    hide Encode, Seen, Plain;
    PlainWhole(msgs);
    LinesFirst(taken, rest, msgs);
    SeenPlain(taken);
    var c := msgs[|taken|..];
    assert msgs == taken + c;
    EncodePlus(taken, c);
    if received == Encode(msgs) {
      assert received[|Encode(taken)|..] == rest && Encode(msgs)[|Encode(taken)|..] == Encode(c);
      HasNl(c);
    }
  }

  lemma PlainWhole(msgs: seq<seq<byte>>)
    requires AllPlain(msgs)
    ensures Whole(msgs)
  {
    forall i | 0 <= i < |msgs| ensures NL !in msgs[i] { assert Plain(msgs[i]); }
  }

  lemma HasNl(c: seq<seq<byte>>)
    ensures c != [] ==> NL in Encode(c)
  {
    if c != [] { assert Encode(c)[|c[0]|] == NL; }
  }

  lemma {:induction false} SeenPlain(raws: seq<seq<byte>>)
    requires AllPlain(raws)
    ensures Seen(raws) == raws
  {
    if raws != [] {
      assert Plain(raws[0]);
      PlainDelivered(raws[0]);
      SeenPlain(raws[1..]);
    }
  }

  // ------------------------------------------------------- what the client makes of events

  /** One step of a conversation: the user types, the client reads, or the session reads, in the foreground or at the prompt. */
  datatype Event =
    | Typed(chunk: seq<byte>) | TypedEof(tty: bool) | Printed(chunk: seq<byte>) | Signal(stop: bool)
    | Pumped(n: nat) | Awaited(script: seq<Read>)

  /** The client without its buffers: what is typed of a line, the prompt flag, whether it is done, what it has read, and its messages. */
  datatype Typing = Typing(pending: seq<byte>, prompt: bool, done: bool, gotten: seq<byte>, msgs: seq<seq<byte>>)

  const IDLE := Typing([], true, false, PROMPT, [])

  function Sends(t: Typing, lines: seq<seq<byte>>): Typing {
    var (ms, p, d) := Messages(lines, t.prompt);
    t.(msgs := t.msgs + ms, prompt := p, done := d)
  }

  function Ctl(b: byte): seq<byte> { MSG_CTL + [b] }

  /** What an event makes of it: whole lines are sent as they are typed. */
  function Types(t: Typing, e: Event): Typing {
    if t.done then t
    else match e
      case Typed(c) => Sends(t, Lines(t.pending + c)).(pending := Rest(t.pending + c))
      case TypedEof(_) =>
        var t' := Sends(t, if t.pending == [] then [] else [t.pending]);
        t'.(pending := [], msgs := t'.msgs + [Ctl(0x64)], done := t'.done || t'.prompt)
      case Printed(c) => t.(gotten := t.gotten + c, prompt := PROMPT <= EndOf(t.gotten + c))
      case Signal(stop) => t.(msgs := t.msgs + [Ctl(if stop then 0x7A else 0x63)])
      case _ => t
  }

  /** The keys do what they should, whatever the session is at: ctrl-c interrupts, ctrl-z stops, and the end of input ends input. */
  lemma KeysAreHeard(t: Typing, e: Event, running: bool)
    requires !t.done && (e.Signal? || e.TypedEof?)
    ensures var ms := Types(t, e).msgs; ms != [] && var h := Dispatch(ms[|ms| - 1], running);
      h.Control? && Controls(h.arg) == if e.TypedEof? then EndsInput else if e.stop then Stops else Interrupts
  {
    var ms := Types(t, e).msgs;
    var m := ms[|ms| - 1];
    assert m[0] == 0x43 && m[1] == 0x54 && !(MSG_CMD <= m);
  }

  /** The last three bytes. */
  function EndOf(s: seq<byte>): seq<byte> { if |s| < 3 then s else s[|s| - 3..] }

  /** How reads cut what is typed does not matter. */
  lemma CutsDoNotMatter(t: Typing, a: seq<byte>, b: seq<byte>)
    ensures var t1 := Types(Types(t, Typed(a)), Typed(b)); var t2 := Types(t, Typed(a + b));
      && t1.msgs == t2.msgs && t1.prompt == t2.prompt && t1.done == t2.done && (!t1.done ==> t1 == t2)
  {
    hide Lines, Rest;
    if !t.done {
      assert t.pending + (a + b) == t.pending + a + b;
      LinesSplit(t.pending + a, b);
      MessagesPlus(Lines(t.pending + a), Lines(Rest(t.pending + a) + b), t.prompt);
    }
  }

  lemma {:induction false} MessagesPlus(a: seq<seq<byte>>, b: seq<seq<byte>>, prompt: bool)
    ensures var (ms, p, d) := Messages(a, prompt); var (ms', p', d') := Messages(b, p);
      Messages(a + b, prompt) == if d then (ms, p, d) else (ms + ms', p', d')
  {
    hide CStr;
    if a == [] {
      assert a + b == b;
      assert [] + Messages(b, prompt).0 == Messages(b, prompt).0;
    } else {
      assert (a + b)[1..] == a[1..] + b;
      if !(prompt && CStr(a[0]) == QUIT) {
        MessagesPlus(a[1..], b, false);
        var m := (if prompt then MSG_CMD else []) + a[0];
        var (ms, p, _) := Messages(a[1..], false);
        assert [m] + (ms + Messages(b, p).0) == [m] + ms + Messages(b, p).0;
      }
    }
  }

  /** What is typed is lines that may be typed, and no read of it is more than the buffer takes. */
  predicate Tame(t: Typing, e: Event) {
    t.done || match e
      case Typed(c) => 0 < |c| <= BUF_SIZE - |t.pending| && AllTypeable(Lines(t.pending + c)) && |Rest(t.pending + c)| <= 4090
      case TypedEof(_) => Typeable(t.pending)
      case Printed(c) => c != []
      case _ => true
  }

  function Typings(es: seq<Event>): Typing {
    if es == [] then IDLE else Types(Typings(es[..|es| - 1]), es[|es| - 1])
  }

  /** All of the events are such. */
  ghost predicate AllTame(es: seq<Event>) { forall i :: 0 <= i < |es| ==> Tame(Typings(es[..i]), es[i]) }

  /** The client stands where the events put it. */
  ghost predicate Stands(c: Client, t: Typing)
    reads c, c.wire, c.inbuf
  {
    && c.Valid() && c.tidy && c.msgs == t.msgs && c.prompt == t.prompt && c.done == t.done && c.gotten == t.gotten
    && (!t.done ==> c.inbuf[..c.inlen] == t.pending)
  }

  /** One step of the client; a client that is done does nothing. */
  method ClientStep(c: Client, e: Event, ghost t: Typing)
    requires Stands(c, t) && Tame(t, e)
    modifies c, c.inbuf, c.wire
    ensures Stands(c, Types(t, e)) && old(c.wire.sent) <= c.wire.sent
  {
    hide Messages, Encode, CStr, Lines, Rest, AllTypeable, AllPlain, Carried;
    if c.done { return; }
    match e {
      case Typed(chunk) => c.OnStdin(chunk);
      case TypedEof(tty) => c.OnEof(tty);
      case Printed(chunk) => c.OnSocket(chunk);
      case Signal(stop) => c.OnSignal(stop);
      case Pumped(_) =>
      case Awaited(_) =>
    }
  }

  // ------------------------------------------------------------------ conversations

  /** The connection, how much of what was sent has arrived, and how many lines the session has taken. */
  datatype Progress = Progress(conn: Conn, arrived: nat, count: nat)

  /** One event: the messages go out as the system answers, or some of what went out arrives and is taken. */
  ghost predicate Goes(answers: seq<Answer>, p: Progress, t: Typing, e: Event, p': Progress) {
    && p.arrived <= |p.conn.sent|
    && match e
       case Pumped(n) =>
         var k := Amount(p.conn.sent, p.arrived, n);
         p' == p.(arrived := p.arrived + k, count := |Lines(p.conn.sent[..p.arrived + k])|)
       case Awaited(script) =>
         var (arrived, count) := Prompted(p.conn.sent, p.arrived, p.count, script);
         p' == p.(arrived := arrived, count := count)
       case _ => p' == p.(conn := PutsAll(answers, Types(t, e).msgs))
  }

  /** A conversation, event by event: what was typed, how reads were cut and how writes were answered determine it. */
  ghost predicate IsConversation(answers: seq<Answer>, ps: seq<Progress>, es: seq<Event>) {
    && |ps| == |es| + 1 && ps[0] == Progress(Conn([], answers, false), 0, 0)
    && forall i :: 0 <= i < |es| ==> Goes(answers, ps[i], Typings(es[..i]), es[i], ps[i + 1])
  }

  /** The session reads in the foreground. */
  method Pumping(c: Client, s: Session, at: nat, n: nat) returns (lines: seq<seq<byte>>, at': nat)
    requires c.Valid() && c.tidy && s.Valid() && !s.dropped && at == |s.received| && s.received <= c.wire.sent
    modifies s, s.inbuf
    ensures s.Valid() && !s.dropped && at' == |s.received| && s.received <= c.wire.sent
    ensures old(s.taken) <= s.taken && lines == Seen(s.taken[|old(s.taken)|..])
    ensures at' == at + Amount(c.wire.sent, at, n) && Lines(s.received) == s.taken
  {
    hide Encode, AllPlain, Whole, Seen, FirstNl, Lines, Rest;
    var sent := c.wire.sent;
    PutsAllMeans(c.answers, c.msgs);
    var chunk := sent[at..at + Min(Min(n, BUF_SIZE), |sent| - at)];
    assert sent[..at] == s.received;
    assert sent[..at] + chunk <= sent;
    var open, ls, k := s.Pump(if chunk == [] then None else Some(chunk), c.msgs);
    return ls, at + if k < 0 then 0 else k;
  }

  /** The session reads at the prompt. */
  method Awaiting(c: Client, s: Session, at: nat, script: seq<Read>) returns (lines: seq<seq<byte>>, at': nat)
    requires c.Valid() && c.tidy && s.Valid() && !s.dropped && at == |s.received| && s.received <= c.wire.sent
    modifies s, s.inbuf
    ensures s.Valid() && !s.dropped && at' == |s.received| && s.received <= c.wire.sent
    ensures old(s.taken) <= s.taken && lines == Seen(s.taken[|old(s.taken)|..])
    ensures (at', |s.taken|) == Prompted(c.wire.sent, at, |old(s.taken)|, script)
  {
    hide Encode, AllPlain, Whole, FirstNl, Lines, Rest, Delivered;
    var sent := c.wire.sent;
    PutsAllMeans(c.answers, c.msgs);
    assert s.received + sent[at..] == sent;
    var r, line, k := s.ReadSocket(sent[at..], script, c.msgs);
    return if r == 1 then [line] else [], at + k;
  }

  /** Where the connection and the session stand. */
  ghost predicate At(p: Progress, w: Wire, s: Session)
    reads w, s, s.inbuf
  {
    && s.Valid() && !s.dropped && s.received <= w.sent
    && p == Progress(w.State(), |s.received|, |s.taken|)
  }

  /** The session's part of one event. */
  method SessionStep(c: Client, s: Session, at: nat, e: Event, ghost t: Typing, ghost p: Progress) returns (lines: seq<seq<byte>>, at': nat, ghost p': Progress)
    requires Stands(c, Types(t, e)) && At(p.(conn := c.wire.State()), c.wire, s) && at == |s.received|
    requires p.arrived <= |p.conn.sent| && (e.Pumped? || e.Awaited? ==> p.conn == c.wire.State())
    modifies s, s.inbuf
    ensures At(p', c.wire, s) && at' == |s.received| && Goes(c.answers, p, t, e, p')
    ensures old(s.taken) <= s.taken && lines == Seen(s.taken[|old(s.taken)|..])
  {
    hide Encode, AllPlain, Whole, FirstNl, Lines, Rest, Delivered, Messages, Amount, Prompted, Types;
    lines, at' := [], at;
    match e {
      case Pumped(n) => lines, at' := Pumping(c, s, at, n);
      case Awaited(script) => lines, at' := Awaiting(c, s, at, script);
      case _ =>
    }
    p' := Progress(c.wire.State(), |s.received|, |s.taken|);
    assert c.wire.sent[..|s.received|] == s.received;
  }

  /** A client event leaves the connection to go on carrying the messages; the others leave it alone. */
  method Happens(c: Client, e: Event, ghost t: Typing)
    requires Stands(c, t) && Tame(t, e)
    modifies c, c.inbuf, c.wire
    ensures Stands(c, Types(t, e)) && old(c.wire.sent) <= c.wire.sent
    ensures e.Pumped? || e.Awaited? ==> c.wire.State() == old(c.wire.State())
  {
    if !(e.Pumped? || e.Awaited?) { ClientStep(c, e, t); }
  }

  /**
   * Any conversation in which what is typed may be typed, whatever the
   * system answers to writes and however it cuts what is read: the client
   * sends the messages that the events make, byte for byte as far as the
   * answers let it, the session sees the first of them, as many as it
   * took, and once all has arrived there are no other lines in the stream
   * than all the messages. The connection breaks only by an answer that
   * says so, or for want of answers: not if as many of them make headway
   * as there are bytes.
   */
  method Conversation(es: seq<Event>, script: seq<Answer>) returns (c: Client, seen: seq<seq<byte>>, ghost ps: seq<Progress>)
    requires AllTame(es)
    ensures IsConversation(script, ps, es) && c.msgs == Typings(es).msgs && c.wire.State() == ps[|es|].conn
    ensures var p := ps[|es|];
      && p.count <= |c.msgs| && seen == c.msgs[..p.count]
      && p.conn == PutsAll(script, c.msgs) && p.conn.sent <= Encode(c.msgs) && Suffix(p.conn.script, script)
      && (p.conn.broken ==> p.conn.script == [] || p.conn.script[0].Failed?)
      && (Headway(script) >= |Encode(c.msgs)| ==> !p.conn.broken)
      && (!p.conn.broken && p.arrived == |p.conn.sent| ==> Lines(p.conn.sent) == c.msgs)
  {
    hide Encode, AllPlain, Carried, Whole, Seen, Typings, Goes, Lines, Types, Client.Valid, Session.Valid, Messages, Puts, PutsAll,
      IsConversation, Suffix, Headway;
    var w := new Wire(script);
    c := new Client(w);
    var s := new Session();
    seen := [];
    var at := 0;
    ghost var t, p := IDLE, Progress(Conn([], script, false), 0, 0);
    ps := [p];
    SeenPlain([]);
    NothingYet(script);
    assert es[..0] == [];
    for i := 0 to |es|
      invariant t == Typings(es[..i]) && Stands(c, t) && c.wire == w && c.answers == script
      invariant At(p, w, s) && at == |s.received| && seen == Seen(s.taken)
      invariant |ps| == i + 1 && ps[i] == p && IsConversation(script, ps, es[..i])
      invariant fresh(w) && fresh(c) && fresh(c.inbuf) && fresh(s) && fresh(s.inbuf) && c.inbuf != s.inbuf
    {
      assert Tame(t, es[i]);
      Happens(c, es[i], t);
      ghost var taken := s.taken;
      var lines, at';
      ghost var p';
      lines, at', p' := SessionStep(c, s, at, es[i], t, p);
      assert s.taken == taken + s.taken[|taken|..];
      SeenPlus(taken, s.taken[|taken|..]);
      Longer(script, ps, es, i, p');
      seen, at, t, p, ps := seen + lines, at', Types(t, es[i]), p', ps + [p'];
    }
    assert es[..|es|] == es;
    Finish(c, s);
  }

  lemma NothingYet(answers: seq<Answer>)
    ensures Typings([]) == IDLE && AllPlain([]) && IsConversation(answers, [Progress(Conn([], answers, false), 0, 0)], [])
  {}

  lemma Longer(answers: seq<Answer>, ps: seq<Progress>, es: seq<Event>, i: nat, p: Progress)
    requires i < |es| && |ps| == i + 1 && IsConversation(answers, ps, es[..i]) && Goes(answers, ps[i], Typings(es[..i]), es[i], p)
    ensures IsConversation(answers, ps + [p], es[..i + 1]) && Typings(es[..i + 1]) == Types(Typings(es[..i]), es[i])
  {
    hide Goes, Types;
    assert es[..i + 1][..i] == es[..i];
    forall k | 0 <= k < i ensures es[..i + 1][..k] == es[..i][..k] && es[..i + 1][k] == es[..i][k] {}
  }

  lemma Finish(c: Client, s: Session)
    requires c.Valid() && c.tidy && s.Valid() && !s.dropped && s.received <= c.wire.sent
    ensures |s.taken| <= |c.msgs| && Seen(s.taken) == c.msgs[..|s.taken|]
    ensures c.wire.State() == PutsAll(c.answers, c.msgs) && c.wire.sent <= Encode(c.msgs) && Suffix(c.wire.script, c.answers)
    ensures c.wire.broken ==> c.wire.script == [] || c.wire.script[0].Failed?
    ensures Headway(c.answers) >= |Encode(c.msgs)| ==> !c.wire.broken
    ensures !c.wire.broken && |s.received| == |c.wire.sent| ==> Lines(c.wire.sent) == c.msgs
  {
    hide Encode, PutsAll, AllPlain, Seen, Headway;
    PutsAllMeans(c.answers, c.msgs);
    if Headway(c.answers) >= |Encode(c.msgs)| { AllPut(c.answers, c.msgs); }
    EndToEnd(c.msgs, s.received, s.taken, s.inbuf[..s.inlen]);
    if !c.wire.broken {
      PlainWhole(c.msgs);
      LinesEncoded(c.msgs, []);
      NoLines([]);
      assert Encode(c.msgs) + [] == Encode(c.msgs) && c.msgs + [] == c.msgs;
    }
  }

  /** There is just one conversation for what was typed, cut and answered. */
  lemma {:induction false} OneConversation(answers: seq<Answer>, ps: seq<Progress>, qs: seq<Progress>, es: seq<Event>, n: nat)
    requires IsConversation(answers, ps, es) && IsConversation(answers, qs, es) && n <= |es|
    ensures ps[n] == qs[n]
  {
    hide Typings, Types, Lines, Amount, Prompted, PutsAll;
    if n > 0 {
      OneConversation(answers, ps, qs, es, n - 1);
      assert Goes(answers, ps[n - 1], Typings(es[..n - 1]), es[n - 1], ps[n]);
      assert Goes(answers, qs[n - 1], Typings(es[..n - 1]), es[n - 1], qs[n]);
    }
  }
}
