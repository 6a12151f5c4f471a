/** The parser of yashd (server/src/parse.c). */
module Parser {
  import opened Options
  import opened ShellGrammar

  /** strtok_r on blanks: the next word, and what is left behind the blank that ends it. */
  function Strtok(s: string): Option<(string, string)> {
    if s == "" then None
    else if Blank(s[0]) then Strtok(s[1..])
    else Some((Word(s), if |Word(s)| == |s| then "" else s[|Word(s)| + 1..]))
  }

  lemma {:induction false} StrtokNext(s: string)
    ensures Strtok(s).None? ==> Tokens(s) == []
    ensures Strtok(s).Some? ==> Tokens(s) == [Strtok(s).value.0] + Tokens(Strtok(s).value.1) && |Strtok(s).value.1| < |s|
  {
    if s != "" {
      if Blank(s[0]) {
        StrtokNext(s[1..]);
      } else {
        var w := Word(s);
        assert |w| < |s| ==> s[|w|..][1..] == s[|w| + 1..];
      }
    }
  }

  /** tokenize: None when there are more than max words. */
  method Tokenize(buf: string, max: nat) returns (r: Option<seq<string>>)
    ensures r.Some? <==> |Tokens(buf)| <= max
    ensures r.Some? ==> r.value == Tokens(buf)
  {
    hide Tokens, Strtok;
    var tokens := [];
    StrtokNext(buf);
    var tok := Strtok(buf);
    var rest := buf;
    while tok.Some?
      invariant tok == Strtok(rest) && Tokens(buf) == tokens + Tokens(rest) && |tokens| <= max
      invariant tok.None? ==> Tokens(rest) == []
      invariant tok.Some? ==> Tokens(rest) == [tok.value.0] + Tokens(tok.value.1) && |tok.value.1| < |rest|
      decreases |rest|
    {
      if |tokens| == max { return None; }
      tokens := tokens + [tok.value.0];
      rest := tok.value.1;
      StrtokNext(rest);
      tok := Strtok(rest);
    }
    return Some(tokens);
  }

  predicate Trimmable(c: char) { c == '&' || Blank(c) }

  datatype Result = Ok(job: Job, cmdline: string) | Empty | Malformed

  /** The loop over the tokens. */
  method Fill(tokens: seq<string>) returns (r: Option<Job>)
    ensures r == Parse(tokens, START)
  {
    var i, done, cur, redirectSeen, background := 0, [], NO_COMMAND, false, false;
    while i < |tokens|
      invariant 0 <= i <= |tokens| && |done| <= 1
      invariant Parse(tokens, START) == Parse(tokens[i..], State(done, cur, redirectSeen, background))
    {
      var tok := tokens[i];
      var rest := tokens[i..];
      assert rest[1..] == tokens[i + 1..] && (|rest| >= 2 ==> rest[2..] == tokens[i + 2..]);
      var slot := Redirects(tok);
      if slot.Some? {
        if cur.argv == [] { return None; }
        if Slot(slot.value, cur).Some? { return None; }
        if i + 1 >= |tokens| || IsOperator(tokens[i + 1]) { return None; }
        cur := WithSlot(slot.value, cur, tokens[i + 1]);
        redirectSeen := true;
        i := i + 2;
      } else if tok == "|" {
        if |done| + 1 >= 2 { return None; }
        if cur.argv == [] { return None; }
        done, cur := done + [cur], NO_COMMAND;
        redirectSeen := false;
        i := i + 1;
      } else if tok == "&" {
        if i != |tokens| - 1 { return None; }
        if |done| != 0 { return None; }
        background := true;
        i := i + 1;
      } else {
        if redirectSeen { return None; }
        if |cur.argv| == MAX_ARGS { return None; }
        cur := cur.(argv := cur.argv + [tok]);
        i := i + 1;
      }
    }
    if cur.argv == [] { return None; }
    return Some(Job(done + [cur], background));
  }

  /** Cuts the trailing '&', and every '&' and blank before it, from a line. */
  method Trim(line: string) returns (cmdline: string)
    ensures cmdline <= line && (forall i :: |cmdline| <= i < |line| ==> Trimmable(line[i]))
    ensures cmdline != "" ==> !Trimmable(cmdline[|cmdline| - 1])
  {
    var n := |line|;
    while n > 0 && Trimmable(line[n - 1])
      invariant 0 <= n <= |line| && forall i :: n <= i < |line| ==> Trimmable(line[i])
    {
      n := n - 1;
    }
    cmdline := line[..n];
  }

  /** parse_line accepts the lines of the grammar that keep the limits; a null line is None. */
  method ParseLine(line: Option<string>) returns (r: Result)
    ensures r.Ok? <==>
      && line.Some? && |line.value| <= MAX_LINE && 0 < |Tokens(line.value)| <= MAX_TOKENS
      && exists job :: Denotes(Tokens(line.value), job)
    ensures r.Ok? ==> Denotes(Tokens(line.value), r.job)
    ensures r.Ok? ==> r.cmdline == if r.job.background then Trimmed(line.value) else line.value
    ensures r.Empty? <==> line.Some? && |line.value| <= MAX_LINE && Tokens(line.value) == []
  {
    if line.None? || |line.value| > MAX_LINE { return Malformed; }
    var cmdline := line.value;
    var tokens := Tokenize(line.value, MAX_TOKENS);
    if tokens.None? { return Malformed; }
    if tokens.value == [] { return Empty; }
    var job := Fill(tokens.value);
    forall j ensures job == Some(j) <==> Denotes(tokens.value, j) { ParseIffGrammar(tokens.value, j); }
    if job.None? { return Malformed; }
    if job.value.background {
      cmdline := Trim(cmdline);
      TrimmedIs(line.value, cmdline);
    }
    return Ok(job.value, cmdline);
  }

  ghost function Trimmed(s: string): string {
    if s != "" && Trimmable(s[|s| - 1]) then Trimmed(s[..|s| - 1]) else s
  }

  lemma {:induction false} TrimmedIs(s: string, t: string)
    requires t <= s && (forall i :: |t| <= i < |s| ==> Trimmable(s[i])) && (t != "" ==> !Trimmable(t[|t| - 1]))
    ensures Trimmed(s) == t
  {
    if |t| < |s| { TrimmedIs(s[..|s| - 1], t); }
  }

  // ------------------------------------------------------- the line kept for `jobs`

  lemma {:induction false} BlankAtEnd(s: string, c: char)
    requires Blank(c)
    ensures Tokens(s + [c]) == Tokens(s)
    decreases |s|
  {
    if s != "" {
      if Blank(s[0]) {
        assert (s + [c])[1..] == s[1..] + [c];
        BlankAtEnd(s[1..], c);
      } else {
        var w := Word(s);
        WordThen(s, c);
        assert (s + [c])[|w|..] == s[|w|..] + [c];
        BlankAtEnd(s[|w|..], c);
      }
    } else {
      assert (s + [c])[1..] == "";
    }
  }

  lemma {:induction false} WordThen(s: string, c: char)
    requires Blank(c) || |Word(s)| < |s|
    ensures Word(s + [c]) == Word(s)
  {
    if s != "" && !Blank(s[0]) {
      assert (s + [c])[1..] == s[1..] + [c];
      WordThen(s[1..], c);
    }
  }

  /** A word of one character behind a blank. */
  lemma {:induction false} LoneAtEnd(s: string, c: char)
    requires !Blank(c) && (s == "" || Blank(s[|s| - 1]))
    ensures Tokens(s + [c]) == Tokens(s) + [[c]]
    decreases |s|
  {
    if s == "" {
      assert Word([c]) == [c] by { assert [c][1..] == ""; }
      assert (s + [c])[1..] == "" && s + [c] == [c];
    } else if Blank(s[0]) {
      assert (s + [c])[1..] == s[1..] + [c];
      LoneAtEnd(s[1..], c);
    } else {
      var w := Word(s);
      assert |w| < |s|;
      WordThen(s, c);
      assert (s + [c])[|w|..] == s[|w|..] + [c];
      LoneAtEnd(s[|w|..], c);
    }
  }

  /** The last character of a line that does not end in a blank ends its last word. */
  lemma {:induction false} LastWord(s: string)
    requires s != "" && !Blank(s[|s| - 1])
    ensures var ts := Tokens(s); ts != [] && ts[|ts| - 1] != "" && Last(ts[|ts| - 1]) == Last(s)
    ensures |s| >= 2 && !Blank(s[|s| - 2]) ==> |Tokens(s)[|Tokens(s)| - 1]| >= 2
    decreases |s|
  {
    if Blank(s[0]) {
      LastWord(s[1..]);
    } else {
      var w := Word(s);
      if |w| < |s| {
        assert |s[|w|..]| >= 2;
        LastWord(s[|w|..]);
      } else {
        assert s[|w|..] == "" && Tokens(s) == [w];
      }
    }
  }

  function Last<T>(s: seq<T>): T
    requires s != []
  {
    s[|s| - 1]
  }

  /** The line without its blanks at the end. */
  lemma {:induction false} NoBlanksAtEnd(s: string) returns (t: string)
    ensures t <= s && Tokens(t) == Tokens(s) && Trimmed(t) == Trimmed(s) && (t != "" ==> !Blank(Last(t)))
  {
    if s != "" && Blank(Last(s)) {
      assert s == s[..|s| - 1] + [Last(s)];
      BlankAtEnd(s[..|s| - 1], Last(s));
      t := NoBlanksAtEnd(s[..|s| - 1]);
    } else {
      t := s;
    }
  }

  lemma {:induction false} TrimmedEnd(s: string)
    ensures Trimmed(s) != "" ==> !Trimmable(Last(Trimmed(s)))
  {
    if s != "" && Trimmable(Last(s)) { TrimmedEnd(s[..|s| - 1]); }
  }

  /**
   * For a line that ends in the word &, what is kept has the other words
   * of the line just when the word before the & does not itself end in &.
   */
  lemma KeptWords(line: string)
    requires |Tokens(line)| >= 2 && Last(Tokens(line)) == "&"
    ensures var ts := Tokens(line); var n := |ts| - 1;
      ts[n - 1] != "" && (Tokens(Trimmed(line)) == ts[..n] <==> Last(ts[n - 1]) != '&')
  {
    hide Tokens, Trimmed, IsWord;
    var ts := Tokens(line);
    var n := |ts| - 1;
    var u := BeforeLone(line);
    assert ts[..n] != [] && Last(ts[..n]) == ts[n - 1];
    var v := NoBlanksAtEnd(u);
    NoTokens();
    LastWord(v);
    TrimmedEnd(line);
    NoTokens();
    if Trimmed(line) != "" { LastWord(Trimmed(line)); }
    if Last(v) != '&' { TrimStops(v); }
  }

  lemma NoTokens()
    ensures Tokens("") == []
  {}

  lemma TrimStops(v: string)
    requires v == "" || !Trimmable(Last(v))
    ensures Trimmed(v) == v
  {}

  /** What comes before the word & at the end of a line. */
  lemma BeforeLone(line: string) returns (u: string)
    requires Tokens(line) != [] && Last(Tokens(line)) == "&"
    ensures Tokens(u) == Tokens(line)[..|Tokens(line)| - 1] && Trimmed(u) == Trimmed(line)
  {
    var t := NoBlanksAtEnd(line);
    LastWord(t);
    u := t[..|t| - 1];
    assert t == u + ['&'];
    LoneAtEnd(u, '&');
  }

  /** So the kept line of a background job need not read as the job: a&, then &. */
  lemma KeptWordsDiffer()
    ensures Tokens("a& &") == ["a&", "&"] && Tokens(Trimmed("a& &")) != ["a&"]
  {
    TokensJoin(["a&", "&"]);
    assert Join(["&"]) == "&" && Join(["a&", "&"]) == "a&" + " " + "&" == "a& &";
    KeptWords("a& &");
  }

  /** Words are apart from each other, so a line that keeps MAX_LINE keeps MAX_TOKENS. */
  lemma {:induction false} FewTokens(s: string)
    ensures 2 * |Tokens(s)| <= |s| + 1
    decreases |s|
  {
    if s != "" {
      var w := Word(s);
      if Blank(s[0]) {
        FewTokens(s[1..]);
      } else if |w| < |s| {
        FewTokens(s[|w|..][1..]);
      }
    }
  }

  /** Reading what was printed gives the job back exactly when it keeps MAX_LINE. */
  method ReadPrinted(j: Job) returns (r: Result)
    requires JobOk(j)
    ensures r.Ok? <==> |Print(j)| <= MAX_LINE
    ensures r.Ok? ==> r.job == j
    ensures !r.Ok? ==> r.Malformed?
  {
    hide Tokens, Denotes, CommandOk, Print;
    forall k ensures Denotes(Tokens(Print(j)), k) <==> k == j { PrintedMeans(j, k); }
    assert Denotes(Tokens(Print(j)), j);
    FewTokens(Print(j));
    SomeTokens(j);
    r := ParseLine(Some(Print(j)));
  }

  lemma SomeTokens(j: Job)
    requires JobOk(j)
    ensures Tokens(Print(j)) != []
  {
    PrintParses(j);
    hide Tokens, Print;
  }
}
