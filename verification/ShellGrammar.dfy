/**
 * The command language of yashd: lines as words between blanks, a
 * grammar over the words, and what a line of the grammar means. A line
 * is a C string, so none of its characters is NUL.
 */
module ShellGrammar {
  import opened Options

  const MAX_LINE := 200
  const MAX_TOKENS := 128
  const MAX_ARGS := 64

  // ------------------------------------------------------------------- words

  predicate Blank(c: char) { c == ' ' || c == '\t' }

  /** The characters up to the first blank. */
  function Word(s: string): (w: string)
    ensures w <= s && (forall c :: c in w ==> !Blank(c)) && (|w| < |s| ==> Blank(s[|w|]))
  {
    if s == "" || Blank(s[0]) then "" else [s[0]] + Word(s[1..])
  }

  function Tokens(s: string): (ts: seq<string>)
    ensures forall t :: t in ts ==> IsWord(t)
    decreases |s|
  {
    if s == "" then [] else if Blank(s[0]) then Tokens(s[1..]) else [Word(s)] + Tokens(s[|Word(s)|..])
  }

  predicate IsWord(t: string) { t != "" && forall c :: c in t ==> !Blank(c) }

  function Join(ts: seq<string>): string {
    if ts == [] then "" else if |ts| == 1 then ts[0] else ts[0] + " " + Join(ts[1..])
  }

  lemma {:induction false} WordBefore(t: string, rest: string)
    requires IsWord(t) && (rest == "" || Blank(rest[0]))
    ensures Word(t + rest) == t
  {
    assert (t + rest)[1..] == t[1..] + rest;
    if |t| > 1 { WordBefore(t[1..], rest); }
  }

  /** Words with a blank between them are read back as they are. */
  lemma {:induction false} TokensJoin(ts: seq<string>)
    requires forall t :: t in ts ==> IsWord(t)
    ensures Tokens(Join(ts)) == ts
  {
    if ts != [] {
      var rest := if |ts| == 1 then "" else " " + Join(ts[1..]);
      assert Join(ts) == ts[0] + rest;
      WordBefore(ts[0], rest);
      assert (ts[0] + rest)[|ts[0]|..] == rest;
      if |ts| > 1 {
        assert rest[1..] == Join(ts[1..]);
        TokensJoin(ts[1..]);
      }
    }
  }

  // ---------------------------------------------------------------- the grammar

  datatype Direction = Input | Output | Error

  function Operator(d: Direction): string {
    match d
    case Input => "<"
    case Output => ">"
    case Error => "2>"
  }

  predicate IsOperator(t: string) { t == "<" || t == ">" || t == "2>" || t == "|" || t == "&" }

  datatype Redirection = Redirection(dir: Direction, target: string)

  /** A command as it is written: its words, then its redirections. */
  datatype Clause = Clause(args: seq<string>, redirs: seq<Redirection>)

  datatype Line = Simple(c: Clause, background: bool) | Piped(left: Clause, right: Clause)

  predicate ArgsOk(args: seq<string>) { |args| <= MAX_ARGS && forall a :: a in args ==> !IsOperator(a) }

  predicate RedirsOk(rs: seq<Redirection>) {
    && (forall i :: 0 <= i < |rs| ==> !IsOperator(rs[i].target))
    && forall i, j :: 0 <= i < j < |rs| ==> rs[i].dir != rs[j].dir
  }

  predicate ClauseOk(c: Clause) { c.args != [] && ArgsOk(c.args) && RedirsOk(c.redirs) }

  predicate LineOk(l: Line) {
    match l
    case Simple(c, _) => ClauseOk(c)
    case Piped(a, b) => ClauseOk(a) && ClauseOk(b)
  }

  function RedirTokens(rs: seq<Redirection>): seq<string> {
    if rs == [] then [] else [Operator(rs[0].dir), rs[0].target] + RedirTokens(rs[1..])
  }

  function ClauseTokens(c: Clause): seq<string> { c.args + RedirTokens(c.redirs) }

  function LineTokens(l: Line): seq<string> {
    match l
    case Simple(c, bg) => ClauseTokens(c) + if bg then ["&"] else []
    case Piped(a, b) => ClauseTokens(a) + ["|"] + ClauseTokens(b)
  }

  // ------------------------------------------------------------ what lines mean

  /** cmd_t, without the process. */
  datatype Command = Command(argv: seq<string>, infile: Option<string>, outfile: Option<string>, errfile: Option<string>)

  datatype Job = Job(cmds: seq<Command>, background: bool)

  function Target(rs: seq<Redirection>, d: Direction): Option<string> {
    if rs == [] then None else if rs[0].dir == d then Some(rs[0].target) else Target(rs[1..], d)
  }

  function ClauseMeans(c: Clause): Command {
    Command(c.args, Target(c.redirs, Input), Target(c.redirs, Output), Target(c.redirs, Error))
  }

  function Means(l: Line): Job {
    match l
    case Simple(c, bg) => Job([ClauseMeans(c)], bg)
    case Piped(a, b) => Job([ClauseMeans(a), ClauseMeans(b)], false)
  }

  /** The tokens are a line of the grammar that means job. */
  ghost predicate Denotes(ts: seq<string>, job: Job) { exists l :: LineOk(l) && LineTokens(l) == ts && Means(l) == job }

  // -------------------------------------------------- one pass over the tokens

  function Slot(d: Direction, c: Command): Option<string> {
    match d
    case Input => c.infile
    case Output => c.outfile
    case Error => c.errfile
  }

  function WithSlot(d: Direction, c: Command, target: string): Command {
    match d
    case Input => c.(infile := Some(target))
    case Output => c.(outfile := Some(target))
    case Error => c.(errfile := Some(target))
  }

  /** redirect_slot. */
  function Redirects(t: string): Option<Direction> {
    if t == "<" then Some(Input) else if t == ">" then Some(Output) else if t == "2>" then Some(Error) else None
  }

  const NO_COMMAND := Command([], None, None, None)

  /** The commands before the current one, the current one, and the flags of the loop. */
  datatype State = State(done: seq<Command>, cur: Command, redirectSeen: bool, background: bool)

  const START := State([], NO_COMMAND, false, false)

  /** The loop of parse_line from some token on. */
  function Parse(ts: seq<string>, s: State): Option<Job>
    decreases |ts|
  {
    if ts == [] then
      if s.cur.argv == [] then None else Some(Job(s.done + [s.cur], s.background))
    else if Redirects(ts[0]).Some? then
      var d := Redirects(ts[0]).value;
      if s.cur.argv == [] || Slot(d, s.cur).Some? || |ts| < 2 || IsOperator(ts[1]) then None
      else Parse(ts[2..], s.(cur := WithSlot(d, s.cur, ts[1]), redirectSeen := true))
    else if ts[0] == "|" then
      if |s.done| > 0 || s.cur.argv == [] then None
      else Parse(ts[1..], s.(done := s.done + [s.cur], cur := NO_COMMAND, redirectSeen := false))
    else if ts[0] == "&" then
      if |ts| != 1 || |s.done| > 0 then None else Parse(ts[1..], s.(background := true))
    else if s.redirectSeen || |s.cur.argv| == MAX_ARGS then None
    else Parse(ts[1..], s.(cur := s.cur.(argv := s.cur.argv + [ts[0]])))
  }

  // ----------------------------------------------- every line of the grammar is taken

  lemma {:induction false} ParseArgs(args: seq<string>, rest: seq<string>, s: State)
    requires !s.redirectSeen && ArgsOk(args) && |s.cur.argv| + |args| <= MAX_ARGS
    ensures Parse(args + rest, s) == Parse(rest, s.(cur := s.cur.(argv := s.cur.argv + args)))
  {
    if args == [] {
      assert args + rest == rest && s.cur.argv + args == s.cur.argv;
    } else {
      var s' := s.(cur := s.cur.(argv := s.cur.argv + [args[0]]));
      assert (args + rest)[1..] == args[1..] + rest;
      assert !IsOperator(args[0]);
      ParseArgs(args[1..], rest, s');
      assert s'.cur.argv + args[1..] == s.cur.argv + args;
    }
  }

  /** What the redirections make of a command. */
  function Redirected(c: Command, rs: seq<Redirection>): Command
    decreases |rs|
  {
    if rs == [] then c else Redirected(WithSlot(rs[0].dir, c, rs[0].target), rs[1..])
  }

  lemma {:induction false} ParseRedirs(rs: seq<Redirection>, rest: seq<string>, s: State)
    requires s.cur.argv != [] && RedirsOk(rs) && forall i :: 0 <= i < |rs| ==> Slot(rs[i].dir, s.cur).None?
    ensures Parse(RedirTokens(rs) + rest, s) == Parse(rest, s.(cur := Redirected(s.cur, rs), redirectSeen := s.redirectSeen || rs != []))
  {
    if rs == [] {
      assert RedirTokens(rs) + rest == rest;
    } else {
      var ts := RedirTokens(rs) + rest;
      assert ts[0] == Operator(rs[0].dir) && ts[1] == rs[0].target && ts[2..] == RedirTokens(rs[1..]) + rest;
      assert Redirects(ts[0]) == Some(rs[0].dir);
      ParseRedirs(rs[1..], rest, s.(cur := WithSlot(rs[0].dir, s.cur, rs[0].target), redirectSeen := true));
    }
  }

  lemma {:induction false} RedirectedIs(c: Command, rs: seq<Redirection>)
    requires RedirsOk(rs) && forall i :: 0 <= i < |rs| ==> Slot(rs[i].dir, c).None?
    ensures var r := Redirected(c, rs);
      r.argv == c.argv && forall d :: Slot(d, r) == if Target(rs, d).Some? then Target(rs, d) else Slot(d, c)
    decreases |rs|
  {
    if rs != [] {
      RedirectedIs(WithSlot(rs[0].dir, c, rs[0].target), rs[1..]);
      NoTarget(rs[1..], rs[0].dir);
    }
  }

  lemma {:induction false} NoTarget(rs: seq<Redirection>, d: Direction)
    requires forall i :: 0 <= i < |rs| ==> rs[i].dir != d
    ensures Target(rs, d).None?
  {
    if rs != [] { NoTarget(rs[1..], d); }
  }

  lemma ParseClause(c: Clause, rest: seq<string>, s: State)
    requires ClauseOk(c) && s.cur == NO_COMMAND && !s.redirectSeen
    ensures Parse(ClauseTokens(c) + rest, s) == Parse(rest, s.(cur := ClauseMeans(c), redirectSeen := c.redirs != []))
  {
    var s' := s.(cur := s.cur.(argv := c.args));
    assert ClauseTokens(c) + rest == c.args + (RedirTokens(c.redirs) + rest);
    assert [] + c.args == c.args;
    ParseArgs(c.args, RedirTokens(c.redirs) + rest, s);
    ParseRedirs(c.redirs, rest, s');
    RedirectedIs(s'.cur, c.redirs);
    var r := Redirected(s'.cur, c.redirs);
    assert Slot(Input, r) == r.infile && Slot(Output, r) == r.outfile && Slot(Error, r) == r.errfile;
  }

  /** A line of the grammar is parsed to what it means. */
  lemma Complete(l: Line)
    requires LineOk(l)
    ensures Parse(LineTokens(l), START) == Some(Means(l))
  {
    match l
    case Simple(c, bg) =>
      ParseClause(c, if bg then ["&"] else [], START);
      assert [] + [ClauseMeans(c)] == [ClauseMeans(c)];
    case Piped(a, b) =>
      var s := START.(cur := ClauseMeans(a), redirectSeen := a.redirs != []);
      var s' := State([ClauseMeans(a)], NO_COMMAND, false, false);
      assert LineTokens(l) == ClauseTokens(a) + (["|"] + ClauseTokens(b));
      ParseClause(a, ["|"] + ClauseTokens(b), START);
      assert (["|"] + ClauseTokens(b))[1..] == ClauseTokens(b) && [] + [ClauseMeans(a)] == [ClauseMeans(a)];
      assert ClauseTokens(b) + [] == ClauseTokens(b);
      ParseClause(b, [], s');
      assert [ClauseMeans(a)] + [ClauseMeans(b)] == [ClauseMeans(a), ClauseMeans(b)];
  }

  // -------------------------------------------------- and nothing else is taken

  /** What was read so far: the clause before the pipe, if there was one, and the current one. */
  ghost predicate Reading(s: State, left: Option<Clause>, c: Clause) {
    && ArgsOk(c.args) && RedirsOk(c.redirs) && s.cur == ClauseMeans(c) && !s.background
    && (s.redirectSeen <==> c.redirs != []) && (c.redirs != [] ==> c.args != [])
    && match left
       case None => s.done == []
       case Some(a) => ClauseOk(a) && s.done == [ClauseMeans(a)]
  }

  ghost function ReadTokens(left: Option<Clause>, c: Clause): seq<string> {
    match left
    case None => ClauseTokens(c)
    case Some(a) => ClauseTokens(a) + ["|"] + ClauseTokens(c)
  }

  lemma {:induction false} TokensSnoc(rs: seq<Redirection>, r: Redirection)
    ensures RedirTokens(rs + [r]) == RedirTokens(rs) + [Operator(r.dir), r.target]
  {
    if rs != [] {
      assert (rs + [r])[1..] == rs[1..] + [r];
      TokensSnoc(rs[1..], r);
    }
  }

  lemma {:induction false} TargetSnoc(rs: seq<Redirection>, r: Redirection, d: Direction)
    ensures Target(rs + [r], d) == if Target(rs, d).Some? then Target(rs, d) else if r.dir == d then Some(r.target) else None
    ensures Target(rs, d).None? ==> forall i :: 0 <= i < |rs| ==> rs[i].dir != d
  {
    if rs != [] {
      assert (rs + [r])[1..] == rs[1..] + [r];
      TargetSnoc(rs[1..], r, d);
    }
  }

  /** Whatever is parsed to the end was a line of the grammar. */
  lemma {:induction false} Sound(ts: seq<string>, s: State, left: Option<Clause>, c: Clause) returns (l: Line)
    requires Reading(s, left, c) && Parse(ts, s).Some?
    ensures LineOk(l) && LineTokens(l) == ReadTokens(left, c) + ts && Means(l) == Parse(ts, s).value
    decreases |ts|
  {
    hide ClauseTokens, IsOperator, RedirsOk, ArgsOk;
    var read := ReadTokens(left, c);
    if ts == [] {
      l := if left.None? then Simple(c, false) else Piped(left.value, c);
      assert read + ts == read;
    } else if Redirects(ts[0]).Some? {
      var r := Redirection(Redirects(ts[0]).value, ts[1]);
      var c' := c.(redirs := c.redirs + [r]);
      ReadRedir(s, left, c, r);
      assert read + ts == read + [ts[0], ts[1]] + ts[2..];
      l := Sound(ts[2..], s.(cur := WithSlot(r.dir, s.cur, r.target), redirectSeen := true), left, c');
    } else if ts[0] == "|" {
      var none := Clause([], []);
      NothingRead(c);
      assert ReadTokens(Some(c), none) == read + ["|"];
      assert read + ts == read + [ts[0]] + ts[1..];
      l := Sound(ts[1..], s.(done := s.done + [s.cur], cur := NO_COMMAND, redirectSeen := false), Some(c), none);
    } else if ts[0] == "&" {
      assert ts == ["&"];
      l := Simple(c, true);
    } else {
      var c' := c.(args := c.args + [ts[0]]);
      NotOperator(ts[0]);
      ArgsFew(c.args);
      ReadArg(s, left, c, ts[0]);
      assert read + ts == read + [ts[0]] + ts[1..];
      l := Sound(ts[1..], s.(cur := s.cur.(argv := s.cur.argv + [ts[0]])), left, c');
    }
  }

  lemma NothingRead(c: Clause)
    ensures var none := Clause([], []); ClauseTokens(none) == [] && ArgsOk(none.args) && RedirsOk(none.redirs)
  {}

  lemma ReadArg(s: State, left: Option<Clause>, c: Clause, a: string)
    requires Reading(s, left, c) && !s.redirectSeen && |c.args| < MAX_ARGS && !IsOperator(a)
    ensures var c' := c.(args := c.args + [a]);
      && Reading(s.(cur := s.cur.(argv := s.cur.argv + [a])), left, c') && ReadTokens(left, c') == ReadTokens(left, c) + [a]
  {}

  lemma ArgsFew(args: seq<string>)
    requires ArgsOk(args)
    ensures |args| <= MAX_ARGS
  {}

  lemma NotOperator(a: string)
    requires Redirects(a).None? && a != "|" && a != "&"
    ensures !IsOperator(a)
  {}

  lemma ReadRedir(s: State, left: Option<Clause>, c: Clause, r: Redirection)
    requires Reading(s, left, c) && c.args != [] && Slot(r.dir, s.cur).None? && !IsOperator(r.target)
    ensures var c' := c.(redirs := c.redirs + [r]);
      && Reading(s.(cur := WithSlot(r.dir, s.cur, r.target), redirectSeen := true), left, c')
      && ReadTokens(left, c') == ReadTokens(left, c) + [Operator(r.dir), r.target]
  {
    TokensSnoc(c.redirs, r);
    TargetSnoc(c.redirs, r, Input);
    TargetSnoc(c.redirs, r, Output);
    TargetSnoc(c.redirs, r, Error);
  }

  /** The single pass accepts exactly the grammar, and finds what the line means. */
  lemma ParseIffGrammar(ts: seq<string>, job: Job)
    ensures Parse(ts, START) == Some(job) <==> Denotes(ts, job)
  {
    if Parse(ts, START) == Some(job) {
      var l := Sound(ts, START, None, Clause([], []));
      assert LineTokens(l) == ts;
    }
    if Denotes(ts, job) {
      var l :| LineOk(l) && LineTokens(l) == ts && Means(l) == job;
      Complete(l);
    }
  }

  // ------------------------------------------------------------------ printing

  /** A job that can be typed: its words are words, none of them an operator. */
  predicate Typeable(t: string) { IsWord(t) && !IsOperator(t) }

  predicate CommandOk(c: Command) {
    && 0 < |c.argv| <= MAX_ARGS && (forall a :: a in c.argv ==> Typeable(a))
    && forall d :: Slot(d, c).Some? ==> Typeable(Slot(d, c).value)
  }

  predicate JobOk(j: Job) {
    1 <= |j.cmds| <= 2 && (|j.cmds| == 2 ==> !j.background) && forall i :: 0 <= i < |j.cmds| ==> CommandOk(j.cmds[i])
  }

  function Written(c: Command): Clause {
    Clause(c.argv, WrittenSlot(Input, c) + WrittenSlot(Output, c) + WrittenSlot(Error, c))
  }

  function WrittenSlot(d: Direction, c: Command): seq<Redirection> {
    if Slot(d, c).Some? then [Redirection(d, Slot(d, c).value)] else []
  }

  function WrittenJob(j: Job): Line
    requires 1 <= |j.cmds| <= 2
  {
    if |j.cmds| == 1 then Simple(Written(j.cmds[0]), j.background) else Piped(Written(j.cmds[0]), Written(j.cmds[1]))
  }

  /** The canonical way to type a job. */
  function Print(j: Job): string
    requires 1 <= |j.cmds| <= 2
  {
    Join(LineTokens(WrittenJob(j)))
  }

  lemma {:induction false} RedirWords(rs: seq<Redirection>)
    requires forall i :: 0 <= i < |rs| ==> Typeable(rs[i].target)
    ensures forall t :: t in RedirTokens(rs) ==> IsWord(t)
  {
    if rs != [] { RedirWords(rs[1..]); }
  }

  lemma WrittenOk(c: Command)
    requires CommandOk(c)
    ensures ClauseOk(Written(c)) && ClauseMeans(Written(c)) == c && forall t :: t in ClauseTokens(Written(c)) ==> IsWord(t)
  {
    var rs := Written(c).redirs;
    assert Slot(Input, c) == c.infile && Slot(Output, c) == c.outfile && Slot(Error, c) == c.errfile;
    RedirWords(rs);
    forall d: Direction ensures Target(rs, d) == Slot(d, c) {
      TargetPlus(WrittenSlot(Input, c) + WrittenSlot(Output, c), WrittenSlot(Error, c), d);
      TargetPlus(WrittenSlot(Input, c), WrittenSlot(Output, c), d);
      match d case Input => case Output => case Error =>
    }
  }

  lemma {:induction false} TargetPlus(a: seq<Redirection>, b: seq<Redirection>, d: Direction)
    ensures Target(a + b, d) == if Target(a, d).Some? then Target(a, d) else Target(b, d)
  {
    if a == [] {
      assert a + b == b;
    } else {
      assert (a + b)[1..] == a[1..] + b;
      TargetPlus(a[1..], b, d);
    }
  }

  /** Printing a job and reading it back gives the job. */
  lemma PrintParses(j: Job)
    requires JobOk(j)
    ensures Parse(Tokens(Print(j)), START) == Some(j)
  {
    var l := WrittenJob(j);
    WrittenOk(j.cmds[0]);
    if |j.cmds| == 2 { WrittenOk(j.cmds[1]); }
    TokensJoin(LineTokens(l));
    Complete(l);
    assert j.cmds == if |j.cmds| == 1 then [j.cmds[0]] else [j.cmds[0], j.cmds[1]];
  }

  /** The operators, as a user knows them: < is the input, > the output, 2> the errors, | a pipe, and & the background. */
  lemma OperatorsMean(a: string, i: string, o: string, e: string, b: string)
    requires !IsOperator(a) && !IsOperator(i) && !IsOperator(o) && !IsOperator(e) && !IsOperator(b)
    ensures Parse([a, "<", i, ">", o, "2>", e, "|", b], START) ==
      Some(Job([Command([a], Some(i), Some(o), Some(e)), Command([b], None, None, None)], false))
    ensures Parse([a, b, "&"], START) == Some(Job([Command([a, b], None, None, None)], true))
  {
    var p, q, r := Redirection(Input, i), Redirection(Output, o), Redirection(Error, e);
    var x, y := Clause([a], [p, q, r]), Clause([b], []);
    assert [p, q, r][1..] == [q, r] && [q, r][1..] == [r] && [r][1..] == [];
    assert RedirTokens([r]) == ["2>", e];
    assert RedirTokens([q, r]) == [">", o, "2>", e];
    assert RedirTokens([p, q, r]) == ["<", i, ">", o, "2>", e];
    assert Target([q, r], Error) == Target([r], Error) == Some(e) && Target([q, r], Output) == Some(o);
    assert ClauseMeans(x) == Command([a], Some(i), Some(o), Some(e)) && ClauseMeans(y) == Command([b], None, None, None);
    assert ClauseOk(x) && ClauseOk(y);
    hide Parse, ClauseMeans, RedirTokens;
    assert LineTokens(Piped(x, y)) == [a, "<", i, ">", o, "2>", e, "|", b];
    Complete(Piped(x, y));
    var z := Clause([a, b], []);
    assert LineTokens(Simple(z, true)) == [a, b, "&"];
    Complete(Simple(z, true));
  }

  /** Read back, what was printed means the job, and nothing but the job. */
  lemma PrintedMeans(j: Job, k: Job)
    requires JobOk(j)
    ensures Denotes(Tokens(Print(j)), k) <==> k == j
  {
    PrintParses(j);
    ParseIffGrammar(Tokens(Print(j)), k);
  }
}
