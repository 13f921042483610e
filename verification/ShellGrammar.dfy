/**
 The language of sh.c: its tokens, the trees it parses to, the parse of a token sequence, and a
 printer.  Shell.dfy has the parser itself, which works on the command buffer in place.
 */
module ShellGrammar {
  const MAXARGS := 10

  // ----- Command trees -----

  /** Words are W: positions in the buffer for the parser, strings for what they spell. */
  datatype Cmd<W> =
    | Exec(args: seq<W>)
    | Redir(cmd: Cmd<W>, file: W, mode: nat, fd: nat)
    | Pipe(left: Cmd<W>, right: Cmd<W>)
    | List(left: Cmd<W>, right: Cmd<W>)
    | Back(cmd: Cmd<W>)

  type Tree = Cmd<string>

  datatype Redirection<W> = Redirection(file: W, mode: nat, fd: nat)

  /** c with redirections around it, the last one outermost. */
  function Wrap<W>(c: Cmd<W>, rs: seq<Redirection<W>>): Cmd<W> {
    if rs == [] then c
    else var r := rs[|rs| - 1]; Redir(Wrap(c, rs[..|rs| - 1]), r.file, r.mode, r.fd)
  }

  function Size<W>(c: Cmd<W>): nat {
    match c
    case Exec(_) => 1
    case Redir(d, _, _, _) => Size(d) + 1
    case Pipe(l, r) => Size(l) + Size(r) + 1
    case List(l, r) => Size(l) + Size(r) + 1
    case Back(d) => Size(d) + 1
  }

  // ----- Tokens -----

  /** A word, or a symbol; '+' stands for >>. */
  datatype Lexeme = Word(w: string) | Sym(c: char)

  predicate White(c: char) {
    c == ' ' || c == '\t' || c == '\r' || c == '\n' || c as int == 11
  }

  predicate Symbol(c: char) {
    c == '<' || c == '|' || c == '>' || c == '&' || c == ';' || c == '(' || c == ')'
  }

  predicate WordChar(c: char) {
    !White(c) && !Symbol(c)
  }

  function SkipWhite(s: string): (r: string)
    ensures |r| <= |s| && r == s[|s| - |r|..]
    ensures r != "" ==> !White(r[0])
  {
    if s != "" && White(s[0]) then SkipWhite(s[1..]) else s
  }

  function WordLength(s: string): (n: nat)
    ensures n <= |s| && (forall i :: 0 <= i < n ==> WordChar(s[i])) && (n < |s| ==> !WordChar(s[n]))
  {
    if s != "" && WordChar(s[0]) then 1 + WordLength(s[1..]) else 0
  }

  /** The kind and the length of the first token of t, which begins with no white space. */
  function Kind(t: string): char {
    if t == "" then '\0'
    else if t[0] == '>' then (if |t| > 1 && t[1] == '>' then '+' else '>')
    else if Symbol(t[0]) then t[0] else 'a'
  }

  function Length(t: string): (n: nat)
    ensures n <= |t| && (t != "" && !White(t[0]) ==> n > 0)
  {
    if t == "" then 0
    else if t[0] == '>' then (if |t| > 1 && t[1] == '>' then 2 else 1)
    else if Symbol(t[0]) then 1 else WordLength(t)
  }

  function First(t: string): Lexeme {
    if Kind(t) == 'a' then Word(t[..Length(t)]) else Sym(Kind(t))
  }

  /** The tokens of a text. */
  function Lex(text: string): seq<Lexeme>
    decreases |text|
  {
    var s := SkipWhite(text);
    if s == "" then [] else [First(s)] + Lex(s[Length(s)..])
  }

  lemma SkipTwice(t: string)
    ensures SkipWhite(SkipWhite(t)) == SkipWhite(t)
  {
  }

  /** Leading white space does not count. */
  lemma LexSkip(t: string)
    ensures Lex(SkipWhite(t)) == Lex(t)
  {
    hide SkipWhite, First, Length;
    SkipTwice(t);
  }

  lemma LexOne(t: string)
    requires t != "" && !White(t[0])
    ensures Lex(t) == [First(t)] + Lex(t[Length(t)..]) && Length(t) > 0
  {
    hide First, White, Kind, WordLength;
    assert SkipWhite(t) == t;
  }

  // ----- Parsing a token sequence -----

  datatype Parse = Ok(cmd: Tree, rest: seq<Lexeme>) | Fail
  datatype RedirParse = RedirOk(rs: seq<Redirection<string>>, rest: seq<Lexeme>) | RedirFail
  datatype ArgParse = ArgOk(args: seq<string>, rs: seq<Redirection<string>>, rest: seq<Lexeme>) | ArgFail

  predicate Starts(ts: seq<Lexeme>, cs: string) {
    ts != [] && ts[0].Sym? && ts[0].c in cs
  }

  /** Where a redirection goes: descriptor 0 read only, or descriptor 1 write only and created. */
  function Redirect<W>(c: char, file: W): Redirection<W> {
    if c == '<' then Redirection(file, 0, 0) else Redirection(file, 0x201, 1)
  }

  function ParseRedirs(rs: seq<Redirection<string>>, ts: seq<Lexeme>): (r: RedirParse)
    ensures r.RedirOk? ==> |r.rest| <= |ts| && |r.rs| >= |rs|
    decreases |ts|
  {
    if !Starts(ts, "<>+") then RedirOk(rs, ts)
    else if |ts| > 1 && ts[1].Word? then ParseRedirs(rs + [Redirect(ts[0].c, ts[1].w)], ts[2..])
    else RedirFail
  }

  function ParseArgs(args: seq<string>, rs: seq<Redirection<string>>, ts: seq<Lexeme>): (r: ArgParse)
    ensures r.ArgOk? ==> |r.rest| <= |ts|
    decreases |ts|
  {
    if ts == [] || Starts(ts, "|)&;") then ArgOk(args, rs, ts)
    else if !ts[0].Word? || |args| + 1 >= MAXARGS then ArgFail
    else
      var p := ParseRedirs(rs, ts[1..]);
      if p.RedirFail? then ArgFail else ParseArgs(args + [ts[0].w], p.rs, p.rest)
  }

  function ParseExec(ts: seq<Lexeme>): (r: Parse)
    ensures r.Ok? ==> |r.rest| <= |ts|
    decreases |ts|, 1
  {
    if Starts(ts, "(") then ParseBlock(ts)
    else
      var p := ParseRedirs([], ts);
      if p.RedirFail? then Fail
      else
        var a := ParseArgs([], p.rs, p.rest);
        if a.ArgFail? then Fail else Ok(Wrap(Exec(a.args), a.rs), a.rest)
  }

  function ParseBlock(ts: seq<Lexeme>): (r: Parse)
    requires Starts(ts, "(")
    ensures r.Ok? ==> |r.rest| <= |ts|
    decreases |ts|, 0
  {
    var p := ParseLine(ts[1..]);
    if p.Fail? || !Starts(p.rest, ")") then Fail
    else
      var q := ParseRedirs([], p.rest[1..]);
      if q.RedirFail? then Fail else Ok(Wrap(p.cmd, q.rs), q.rest)
  }

  function ParsePipe(ts: seq<Lexeme>): (r: Parse)
    ensures r.Ok? ==> |r.rest| <= |ts|
    decreases |ts|, 2
  {
    var p := ParseExec(ts);
    if p.Fail? || !Starts(p.rest, "|") then p
    else
      var q := ParsePipe(p.rest[1..]);
      if q.Fail? then Fail else Ok(Pipe(p.cmd, q.cmd), q.rest)
  }

  function Backs(c: Tree, ts: seq<Lexeme>): (r: Parse)
    ensures r.Ok? && |r.rest| <= |ts|
    decreases |ts|
  {
    if Starts(ts, "&") then Backs(Back(c), ts[1..]) else Ok(c, ts)
  }

  function ParseLine(ts: seq<Lexeme>): (r: Parse)
    ensures r.Ok? ==> |r.rest| <= |ts|
    decreases |ts|, 3
  {
    var p := ParsePipe(ts);
    if p.Fail? then Fail
    else
      var b := Backs(p.cmd, p.rest);
      if !Starts(b.rest, ";") then b
      else
        var q := ParseLine(b.rest[1..]);
        if q.Fail? then Fail else Ok(List(b.cmd, q.cmd), q.rest)
  }

  // ----- Printing -----

  predicate Compound<W>(t: Cmd<W>) {
    t.Pipe? || t.List? || t.Back?
  }

  function LineTokens(t: Tree): seq<Lexeme>
    decreases Size(t), 9
  {
    if t.List? then BackTokens(t.left) + [Sym(';')] + LineTokens(t.right) else BackTokens(t)
  }

  function BackTokens(t: Tree): seq<Lexeme>
    decreases Size(t), if t.List? then 12 else 8
  {
    if t.Back? then BackTokens(t.cmd) + [Sym('&')] else PipeTokens(t)
  }

  function PipeTokens(t: Tree): seq<Lexeme>
    decreases Size(t), if t.List? || t.Back? then 11 else 7
  {
    if t.Pipe? then ExecTokens(t.left) + [Sym('|')] + PipeTokens(t.right) else ExecTokens(t)
  }

  /** A command without operators at its top: what has some goes in parentheses. */
  function ExecTokens(t: Tree): seq<Lexeme>
    decreases Size(t), if Compound(t) then 10 else 6
  {
    match t
    case Exec(args) => Words(args)
    case Redir(c, file, mode, fd) => ExecTokens(c) + [Sym(if fd == 0 then '<' else '>'), Word(file)]
    case _ => [Sym('(')] + LineTokens(t) + [Sym(')')]
  }

  function Words(args: seq<string>): (r: seq<Lexeme>)
    ensures |r| == |args|
  {
    if args == [] then [] else [Word(args[0])] + Words(args[1..])
  }

  /** What the parser can return: few enough arguments, and the two kinds of redirection. */
  predicate WellFormed(t: Tree) {
    match t
    case Exec(args) => |args| < MAXARGS
    case Redir(c, file, mode, fd) => WellFormed(c) && (mode, fd) in {(0, 0), (0x201, 1)}
    case Pipe(l, r) => WellFormed(l) && WellFormed(r)
    case List(l, r) => WellFormed(l) && WellFormed(r)
    case Back(c) => WellFormed(c)
  }

  // ----- Parsing inverts printing, on tokens -----

  function Core<W>(t: Cmd<W>): (c: Cmd<W>)
    ensures !c.Redir? && Size(c) <= Size(t) && (t.Redir? ==> Size(c) < Size(t))
  {
    if t.Redir? then Core(t.cmd) else t
  }

  function Redirections<W>(t: Cmd<W>): seq<Redirection<W>> {
    if t.Redir? then Redirections(t.cmd) + [Redirection(t.file, t.mode, t.fd)] else []
  }

  function RedirTokens(rs: seq<Redirection<string>>): seq<Lexeme> {
    if rs == [] then []
    else [Sym(if rs[0].fd == 0 then '<' else '>'), Word(rs[0].file)] + RedirTokens(rs[1..])
  }

  predicate Kinds(rs: seq<Redirection<string>>) {
    forall i :: 0 <= i < |rs| ==> (rs[i].mode, rs[i].fd) in {(0, 0), (0x201, 1)}
  }

  lemma {:induction false} RedirTokensSnoc(rs: seq<Redirection<string>>, r: Redirection<string>)
    ensures RedirTokens(rs + [r]) == RedirTokens(rs) + [Sym(if r.fd == 0 then '<' else '>'), Word(r.file)]
  {
    if rs == [] {
      assert RedirTokens([r]) == [Sym(if r.fd == 0 then '<' else '>'), Word(r.file)] + RedirTokens([r][1..]);
    } else {
      RedirTokensSnoc(rs[1..], r);
      assert (rs + [r])[1..] == rs[1..] + [r];
    }
  }

  lemma {:induction false} PeelTree(t: Tree)
    requires WellFormed(t)
    ensures t == Wrap(Core(t), Redirections(t)) && Kinds(Redirections(t)) && WellFormed(Core(t))
    decreases t
  {
    if t.Redir? {
      PeelTree(t.cmd);
      assert Redirections(t)[..|Redirections(t)| - 1] == Redirections(t.cmd);
    }
  }

  lemma {:induction false} PeelTokens(t: Tree)
    requires WellFormed(t)
    ensures ExecTokens(t) == ExecTokens(Core(t)) + RedirTokens(Redirections(t))
    decreases t
  {
    hide RedirTokens;
    if t.Redir? {
      PeelTokens(t.cmd);
      RedirTokensSnoc(Redirections(t.cmd), Redirection(t.file, t.mode, t.fd));
    } else {
      NoRedirTokens();
    }
  }

  lemma NoRedirTokens()
    ensures RedirTokens([]) == []
  {
  }

  /** A command is its core in its redirections, and is printed so. */
  lemma Peel(t: Tree)
    requires WellFormed(t)
    ensures t == Wrap(Core(t), Redirections(t)) && Kinds(Redirections(t)) && WellFormed(Core(t))
    ensures ExecTokens(t) == ExecTokens(Core(t)) + RedirTokens(Redirections(t))
  {
    hide WellFormed, Wrap, Core, Redirections, Kinds, ExecTokens, RedirTokens;
    PeelTree(t);
    PeelTokens(t);
  }

  lemma {:induction false} RedirsBack(rs0: seq<Redirection<string>>, rs: seq<Redirection<string>>, rest: seq<Lexeme>)
    requires Kinds(rs) && !Starts(rest, "<>+")
    ensures ParseRedirs(rs0, RedirTokens(rs) + rest) == RedirOk(rs0 + rs, rest)
    decreases |rs|
  {
    if rs == [] {
      assert RedirTokens(rs) + rest == rest && rs0 + rs == rs0;
    } else {
      var ts := RedirTokens(rs) + rest;
      assert ts[2..] == RedirTokens(rs[1..]) + rest;
      assert Redirect(ts[0].c, ts[1].w) == rs[0];
      RedirsBack(rs0 + [rs[0]], rs[1..], rest);
      assert rs0 + [rs[0]] + rs[1..] == rs0 + rs;
    }
  }

  lemma NoRedirs(rs: seq<Redirection<string>>, ts: seq<Lexeme>)
    requires ts != [] && ts[0].Word?
    ensures ParseRedirs(rs, ts) == RedirOk(rs, ts) && !Starts(ts, "(")
  {
  }

  lemma EndsFacts(rest: seq<Lexeme>)
    requires Ends(rest, "|)&;")
    ensures !Starts(rest, "<>+") && !Starts(rest, "(")
    ensures forall args, rs :: ParseArgs(args, rs, rest) == ArgOk(args, rs, rest)
  {
  }

  predicate Ends(rest: seq<Lexeme>, cs: string) {
    rest == [] || Starts(rest, cs)
  }

  lemma ArgsOne(args: seq<string>, rs: seq<Redirection<string>>, ts: seq<Lexeme>)
    requires ts != [] && ts[0].Word? && |args| + 1 < MAXARGS && ParseRedirs(rs, ts[1..]).RedirOk?
    ensures var p := ParseRedirs(rs, ts[1..]);
            ParseArgs(args, rs, ts) == ParseArgs(args + [ts[0].w], p.rs, p.rest)
  {
    hide ParseRedirs;
  }

  lemma {:induction false} WordsCons(args: seq<string>)
    ensures args != [] ==> Words(args) == [Word(args[0])] + Words(args[1..])
    ensures args == [] ==> Words(args) == []
  {
  }

  lemma WordsFirst(args: seq<string>, rest: seq<Lexeme>)
    ensures args != [] ==> var ts := Words(args) + rest; ts[0] == Word(args[0]) && ts[1..] == Words(args[1..]) + rest
    ensures args == [] ==> Words(args) + rest == rest
  {
    hide Words;
    WordsCons(args);
  }

  /** The last word, with the redirections behind it. */
  lemma LastArg(args: seq<string>, ts: seq<Lexeme>, rs: seq<Redirection<string>>, rest: seq<Lexeme>)
    requires ts != [] && ts[0].Word? && ts[1..] == RedirTokens(rs) + rest
    requires |args| + 1 < MAXARGS && Kinds(rs) && Ends(rest, "|)&;")
    ensures ParseArgs(args, [], ts) == ArgOk(args + [ts[0].w], rs, rest)
  {
    hide ParseRedirs, ParseArgs, RedirTokens, Kinds, Ends, Starts;
    EndsFacts(rest);
    RedirsBack([], rs, rest);
    assert [] + rs == rs;
    ArgsOne(args, [], ts);
  }

  lemma {:induction false} ArgsBack(args0: seq<string>, args: seq<string>, rs: seq<Redirection<string>>,
                                    rest: seq<Lexeme>)
    requires args != [] && |args0| + |args| < MAXARGS && Kinds(rs) && Ends(rest, "|)&;")
    ensures ParseArgs(args0, [], Words(args) + (RedirTokens(rs) + rest)) == ArgOk(args0 + args, rs, rest)
    decreases |args|
  {
    hide ParseRedirs, ParseArgs, RedirTokens, Kinds, Ends, Starts, Words;
    var tail := RedirTokens(rs) + rest;
    var ts, next := Words(args) + tail, args0 + [args[0]];
    WordsFirst(args, tail);
    if |args| == 1 {
      assert args[1..] == [] && next == args0 + args;
      LastArg(args0, ts, rs, rest);
    } else {
      assert next + args[1..] == args0 + args;
      WordsFirst(args[1..], tail);
      NoRedirs([], ts[1..]);
      ArgsOne(args0, [], ts);
      ArgsBack(next, args[1..], rs, rest);
    }
  }

  lemma SimpleBack(args: seq<string>, rs: seq<Redirection<string>>, rest: seq<Lexeme>)
    requires |args| < MAXARGS && Kinds(rs) && Ends(rest, "|)&;")
    ensures ParseExec(Words(args) + RedirTokens(rs) + rest) == Ok(Wrap(Exec(args), rs), rest)
  {
    hide RedirTokens, Words, ParseRedirs, ParseArgs, Starts, Kinds, Ends, Wrap;
    var tail := RedirTokens(rs) + rest;
    var ts := Words(args) + tail;
    assert Words(args) + RedirTokens(rs) + rest == ts;
    WordsFirst(args, tail);
    if args == [] {
      EndsFacts(rest);
      RedirsBack([], rs, rest);
      assert [] + rs == rs;
      NotBlock(rs, rest);
    } else {
      NoRedirs([], ts);
      ArgsBack([], args, rs, rest);
      assert [] + args == args;
    }
  }

  lemma NotBlock(rs: seq<Redirection<string>>, rest: seq<Lexeme>)
    requires !Starts(rest, "(")
    ensures !Starts(RedirTokens(rs) + rest, "(")
  {
    if rs == [] {
      assert RedirTokens(rs) + rest == rest;
    } else {
      assert (RedirTokens(rs) + rest)[0].c in "<>";
    }
  }

  lemma {:induction false} ExecBack(t: Tree, rest: seq<Lexeme>)
    requires WellFormed(t) && Ends(rest, "|)&;")
    ensures ParseExec(ExecTokens(t) + rest) == Ok(t, rest)
    decreases Size(t), if Compound(t) then 10 else 6
  {
    hide ParseExec, RedirTokens, Words, LineTokens, Wrap, Kinds, Redirections, Ends, Starts, WellFormed;
    Peel(t);
    var c, rs := Core(t), Redirections(t);
    if c.Exec? {
      FewArgs(c);
      SimpleBack(c.args, rs, rest);
    } else {
      BlockBack(c, rs, rest);
      Regroup([Sym('(')], LineTokens(c), [Sym(')')], RedirTokens(rs), rest);
    }
  }

  lemma FewArgs(c: Tree)
    requires WellFormed(c) && c.Exec?
    ensures |c.args| < MAXARGS
  {
  }

  lemma Regroup<T>(a: seq<T>, b: seq<T>, c: seq<T>, d: seq<T>, e: seq<T>)
    ensures a + b + c + d + e == a + (b + (c + (d + e)))
  {
  }

  lemma BlockBack(c: Tree, rs: seq<Redirection<string>>, rest: seq<Lexeme>)
    requires WellFormed(c) && Kinds(rs) && Ends(rest, "|)&;")
    ensures var ts := [Sym('(')] + (LineTokens(c) + ([Sym(')')] + (RedirTokens(rs) + rest)));
            ParseExec(ts) == Ok(Wrap(c, rs), rest)
    decreases Size(c), 9, 1
  {
    EndsFacts(rest);
    hide ParseRedirs, ParseArgs, RedirTokens, Words, LineTokens, Wrap, Kinds, ParseLine, ParsePipe, Backs;
    var tail := [Sym(')')] + (RedirTokens(rs) + rest);
    var ts := [Sym('(')] + (LineTokens(c) + tail);
    LineBack(c, tail);
    assert ts[1..] == LineTokens(c) + tail;
    assert tail[1..] == RedirTokens(rs) + rest;
    RedirsBack([], rs, rest);
    assert [] + rs == rs;
  }

  lemma {:induction false} PipeBack(t: Tree, rest: seq<Lexeme>)
    requires WellFormed(t) && Ends(rest, ")&;")
    ensures ParsePipe(PipeTokens(t) + rest) == Ok(t, rest)
    decreases Size(t), if t.List? || t.Back? then 11 else 7
  {
    hide ExecTokens, ParseExec;
    if t.Pipe? {
      var tail := [Sym('|')] + (PipeTokens(t.right) + rest);
      ExecBack(t.left, tail);
      PipeBack(t.right, rest);
      assert PipeTokens(t) + rest == ExecTokens(t.left) + tail;
      assert tail[1..] == PipeTokens(t.right) + rest;
    } else {
      ExecBack(t, rest);
    }
  }

  lemma {:induction false} BackBack(t: Tree, rest: seq<Lexeme>)
    requires WellFormed(t) && Ends(rest, ")&;")
    ensures var p := ParsePipe(BackTokens(t) + rest); p.Ok? && Backs(p.cmd, p.rest) == Backs(t, rest)
    decreases Size(t), if t.List? then 12 else 8
  {
    if t.Back? {
      var tail := [Sym('&')] + rest;
      BackBack(t.cmd, tail);
      assert BackTokens(t) + rest == BackTokens(t.cmd) + tail;
      assert tail[1..] == rest;
    } else {
      PipeBack(t, rest);
    }
  }

  lemma {:induction false} LineBack(t: Tree, rest: seq<Lexeme>)
    requires WellFormed(t) && Ends(rest, ")")
    ensures ParseLine(LineTokens(t) + rest) == Ok(t, rest)
    decreases Size(t), 9, 0
  {
    if t.List? {
      var tail := [Sym(';')] + (LineTokens(t.right) + rest);
      BackBack(t.left, tail);
      LineBack(t.right, rest);
      assert LineTokens(t) + rest == BackTokens(t.left) + tail;
      assert tail[1..] == LineTokens(t.right) + rest;
    } else {
      BackBack(t, rest);
    }
  }

  // ----- Any layout of a token sequence lexes to it -----

  function Spell(x: Lexeme): string {
    match x
    case Word(w) => w
    case Sym(c) => if c == '+' then ">>" else [c]
  }

  /** The tokens with gaps[0], gaps[1], ... before, between and behind them. */
  function Layout(ts: seq<Lexeme>, gaps: seq<string>): string
    requires |gaps| == |ts| + 1
  {
    if ts == [] then gaps[0] else gaps[0] + (Spell(ts[0]) + Layout(ts[1..], gaps[1..]))
  }

  predicate Blank(g: string) {
    forall i :: 0 <= i < |g| ==> White(g[i])
  }

  predicate Plain(x: Lexeme) {
    match x
    case Word(w) => w != "" && forall i :: 0 <= i < |w| ==> WordChar(w[i])
    case Sym(c) => Symbol(c) || c == '+'
  }

  /** Tokens that run together when nothing is between them. */
  predicate Sticky(x: Lexeme, y: Lexeme) {
    (x.Word? && y.Word?) || (x == Sym('>') && y in {Sym('>'), Sym('+')})
  }

  predicate Spaced(ts: seq<Lexeme>, gaps: seq<string>) {
    && |gaps| == |ts| + 1 && (forall i :: 0 <= i < |gaps| ==> Blank(gaps[i]))
    && (forall i :: 0 <= i < |ts| ==> Plain(ts[i]))
    && (forall i :: 0 <= i < |ts| - 1 && Sticky(ts[i], ts[i + 1]) ==> gaps[i + 1] != "")
  }

  lemma {:induction false} SkipBlank(g: string, s: string)
    requires Blank(g)
    ensures SkipWhite(g + s) == SkipWhite(s)
  {
    if g == "" {
      assert g + s == s;
    } else {
      assert (g + s)[1..] == g[1..] + s;
      SkipBlank(g[1..], s);
    }
  }

  lemma {:induction false} WordStops(w: string, s: string)
    requires (forall i :: 0 <= i < |w| ==> WordChar(w[i])) && (s != "" ==> !WordChar(s[0]))
    ensures WordLength(w + s) == |w|
  {
    if w == "" {
      assert w + s == s;
    } else {
      assert (w + s)[1..] == w[1..] + s;
      WordStops(w[1..], s);
    }
  }

  /** What can stand right behind token x in a layout. */
  lemma LayoutStart(x: Lexeme, ts: seq<Lexeme>, gaps: seq<string>)
    requires Spaced([x] + ts, gaps)
    ensures var s := Layout(ts, gaps[1..]);
            && (x.Word? && s != "" ==> !WordChar(s[0])) && (x == Sym('>') && s != "" ==> s[0] != '>')
  {
    var g := gaps[1..];
    assert Blank(g[0]);
    if ts != [] {
      var all := [x] + ts;
      assert Plain(all[1]) && all[1] == ts[0];
      assert Sticky(all[0], all[1]) ==> g[0] != "";
      assert Spell(ts[0]) != "";
    }
  }

  /** The text begins with token x, and s is behind it. */
  predicate Begins(t: string, x: Lexeme, s: string) {
    t != "" && !White(t[0]) && First(t) == x && t[Length(t)..] == s
  }

  lemma WordFirst(w: string, s: string)
    requires Plain(Word(w)) && (s != "" ==> !WordChar(s[0]))
    ensures Begins(w + s, Word(w), s)
  {
    var t := w + s;
    assert t[0] == w[0] && WordChar(w[0]);
    assert t[0] != '>' && !White(t[0]) && !Symbol(t[0]);
    WordStops(w, s);
    assert t[..|w|] == w && t[|w|..] == s;
  }

  lemma SymFirst(c: char, s: string)
    requires Plain(Sym(c)) && (c == '>' && s != "" ==> s[0] != '>')
    ensures Begins(Spell(Sym(c)) + s, Sym(c), s)
  {
    var t := Spell(Sym(c)) + s;
    assert c == '+' ==> t[0] == '>' && t[1] == '>' && t[2..] == s;
    assert c != '+' ==> t[0] == c && t[1..] == s;
    assert c == '>' && s != "" ==> t[1] == s[0];
  }

  lemma TokenFirst(x: Lexeme, s: string)
    requires Plain(x) && (x.Word? && s != "" ==> !WordChar(s[0])) && (x == Sym('>') && s != "" ==> s[0] != '>')
    ensures Begins(Spell(x) + s, x, s)
  {
    hide WordChar, Plain, Begins;
    match x {
      case Word(w) => WordFirst(w, s);
      case Sym(c) => SymFirst(c, s);
    }
  }

  lemma LexBegins(t: string, x: Lexeme, s: string)
    requires Begins(t, x, s)
    ensures Lex(t) == [x] + Lex(s)
  {
    hide First, Length, White, Lex;
    LexOne(t);
  }

  lemma {:induction false} LexLayout(ts: seq<Lexeme>, gaps: seq<string>)
    requires Spaced(ts, gaps)
    ensures Lex(Layout(ts, gaps)) == ts
    decreases |ts|
  {
    assert Blank(gaps[0]);
    if ts == [] {
      SkipBlank(gaps[0], "");
      assert gaps[0] + "" == gaps[0];
    } else {
      var rest, g := ts[1..], gaps[1..];
      assert ts == [ts[0]] + rest;
      LayoutStart(ts[0], rest, gaps);
      assert Spaced(rest, g) by {
        forall i | 0 <= i < |rest| - 1 && Sticky(rest[i], rest[i + 1]) ensures g[i + 1] != "" {
          assert Sticky(ts[i + 1], ts[i + 2]);
        }
      }
      LexLayout(rest, g);
      TokenFirst(ts[0], Layout(rest, g));
      LexBegins(Spell(ts[0]) + Layout(rest, g), ts[0], Layout(rest, g));
      LexGap(gaps[0], Spell(ts[0]) + Layout(rest, g));
    }
  }

  lemma LexGap(g: string, s: string)
    requires Blank(g)
    ensures Lex(g + s) == Lex(s)
  {
    hide SkipWhite, First, Length, Blank;
    SkipBlank(g, s);
  }

  /** Parsing inverts printing, whatever white space the tokens are laid out with. */
  lemma RoundTrip(t: Tree, gaps: seq<string>)
    requires WellFormed(t) && Spaced(LineTokens(t), gaps)
    ensures ParseLine(Lex(Layout(LineTokens(t), gaps))) == Ok(t, [])
  {
    hide ParseLine, Lex, Layout, LineTokens, Spaced, WellFormed;
    LexLayout(LineTokens(t), gaps);
    LineBack(t, []);
    assert LineTokens(t) + [] == LineTokens(t);
  }

  // ----- Everything the parser returns can be printed -----

  lemma {:induction false} WrapWellFormed(c: Tree, rs: seq<Redirection<string>>)
    requires WellFormed(c) && Kinds(rs)
    ensures WellFormed(Wrap(c, rs))
  {
    if rs != [] { WrapWellFormed(c, rs[..|rs| - 1]); }
  }

  lemma {:induction false} RedirKinds(rs: seq<Redirection<string>>, ts: seq<Lexeme>)
    requires Kinds(rs)
    ensures var p := ParseRedirs(rs, ts); p.RedirOk? ==> Kinds(p.rs)
    decreases |ts|
  {
    if Starts(ts, "<>+") && |ts| > 1 && ts[1].Word? {
      RedirKinds(rs + [Redirect(ts[0].c, ts[1].w)], ts[2..]);
    }
  }

  lemma {:induction false} ArgKinds(args: seq<string>, rs: seq<Redirection<string>>, ts: seq<Lexeme>)
    requires Kinds(rs) && |args| < MAXARGS
    ensures var p := ParseArgs(args, rs, ts); p.ArgOk? ==> Kinds(p.rs) && |p.args| < MAXARGS
    decreases |ts|
  {
    hide Kinds;
    if ts != [] && !Starts(ts, "|)&;") && ts[0].Word? && |args| + 1 < MAXARGS {
      RedirKinds(rs, ts[1..]);
      var p := ParseRedirs(rs, ts[1..]);
      if p.RedirOk? { ArgKinds(args + [ts[0].w], p.rs, p.rest); }
    }
  }

  lemma {:induction false} ExecPrintable(ts: seq<Lexeme>)
    ensures var p := ParseExec(ts); p.Ok? ==> WellFormed(p.cmd)
    decreases |ts|, 1
  {
    if Starts(ts, "(") {
      LinePrintable(ts[1..]);
      var p := ParseLine(ts[1..]);
      if p.Ok? && Starts(p.rest, ")") {
        RedirKinds([], p.rest[1..]);
        var q := ParseRedirs([], p.rest[1..]);
        if q.RedirOk? { WrapWellFormed(p.cmd, q.rs); }
      }
    } else {
      RedirKinds([], ts);
      var p := ParseRedirs([], ts);
      if p.RedirOk? {
        ArgKinds([], p.rs, p.rest);
        var a := ParseArgs([], p.rs, p.rest);
        if a.ArgOk? { WrapWellFormed(Exec(a.args), a.rs); }
      }
    }
  }

  lemma {:induction false} PipePrintable(ts: seq<Lexeme>)
    ensures var p := ParsePipe(ts); p.Ok? ==> WellFormed(p.cmd)
    decreases |ts|, 2
  {
    hide ParseExec;
    ExecPrintable(ts);
    var p := ParseExec(ts);
    if p.Ok? && Starts(p.rest, "|") { PipePrintable(p.rest[1..]); }
  }

  lemma {:induction false} BacksPrintable(c: Tree, ts: seq<Lexeme>)
    requires WellFormed(c)
    ensures WellFormed(Backs(c, ts).cmd)
    decreases |ts|
  {
    if Starts(ts, "&") { BacksPrintable(Back(c), ts[1..]); }
  }

  lemma {:induction false} LinePrintable(ts: seq<Lexeme>)
    ensures var p := ParseLine(ts); p.Ok? ==> WellFormed(p.cmd)
    decreases |ts|, 3
  {
    hide ParsePipe;
    PipePrintable(ts);
    var p := ParsePipe(ts);
    if p.Ok? {
      BacksPrintable(p.cmd, p.rest);
      var b := Backs(p.cmd, p.rest);
      if Starts(b.rest, ";") { LinePrintable(b.rest[1..]); }
    }
  }

  /** The trees the parser returns are exactly the well-formed ones: each is what its own printing parses to. */
  lemma Reparses(ts: seq<Lexeme>)
    requires ParseLine(ts).Ok?
    ensures var t := ParseLine(ts).cmd; WellFormed(t) && ParseLine(LineTokens(t)) == Ok(t, [])
  {
    hide ParseLine, LineTokens, WellFormed;
    LinePrintable(ts);
    var t := ParseLine(ts).cmd;
    LineBack(t, []);
    assert LineTokens(t) + [] == LineTokens(t);
  }
}
