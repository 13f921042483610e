/**
 The parser of sh.c: a cursor moving over a NUL-terminated buffer, and the pass that terminates
 every word in place.  A panic ends the shell's child process; here it is the outcome Panic.
 */
module Shell {
  import opened ShellGrammar

  /** A word in the buffer: its first character, and the position behind its last. */
  datatype Span = Span(q: nat, eq: nat)

  datatype Outcome<T> = Parsed(value: T) | Panic

  // ----- What a tree of positions spells -----

  function ReadSpan(text: string, w: Span): string {
    if w.q <= w.eq <= |text| then text[w.q..w.eq] else ""
  }

  function ReadAll(text: string, args: seq<Span>): seq<string> {
    if args == [] then [] else ReadAll(text, args[..|args| - 1]) + [ReadSpan(text, args[|args| - 1])]
  }

  function ReadRedirs(text: string, rs: seq<Redirection<Span>>): seq<Redirection<string>> {
    if rs == [] then []
    else
      var r := rs[|rs| - 1];
      ReadRedirs(text, rs[..|rs| - 1]) + [Redirection(ReadSpan(text, r.file), r.mode, r.fd)]
  }

  function Read(text: string, c: Cmd<Span>): Tree {
    match c
    case Exec(args) => Exec(ReadAll(text, args))
    case Redir(d, file, mode, fd) => Redir(Read(text, d), ReadSpan(text, file), mode, fd)
    case Pipe(l, r) => Pipe(Read(text, l), Read(text, r))
    case List(l, r) => List(Read(text, l), Read(text, r))
    case Back(d) => Back(Read(text, d))
  }

  lemma {:induction false} ReadWrap(text: string, c: Cmd<Span>, rs: seq<Redirection<Span>>)
    ensures Read(text, Wrap(c, rs)) == Wrap(Read(text, c), ReadRedirs(text, rs))
    ensures |ReadRedirs(text, rs)| == |rs|
  {
    if rs != [] {
      ReadWrap(text, c, rs[..|rs| - 1]);
      assert ReadRedirs(text, rs)[..|rs| - 1] == ReadRedirs(text, rs[..|rs| - 1]);
    }
  }

  lemma {:induction false} ReadSnoc(text: string, args: seq<Span>, w: Span)
    ensures ReadAll(text, args + [w]) == ReadAll(text, args) + [ReadSpan(text, w)]
    ensures |ReadAll(text, args)| == |args|
  {
    assert (args + [w])[..|args|] == args;
    if args != [] { ReadSnoc(text, args[..|args| - 1], w); }
  }

  lemma ReadRedirsSnoc(text: string, rs: seq<Redirection<Span>>, r: Redirection<Span>)
    ensures ReadRedirs(text, rs + [r]) == ReadRedirs(text, rs) + [Redirection(ReadSpan(text, r.file), r.mode, r.fd)]
  {
    assert (rs + [r])[..|rs|] == rs;
  }

  // ----- Words of the text -----

  /** A longest stretch of word characters. */
  predicate IsWord(text: string, w: Span) {
    && w.q < w.eq <= |text| && (forall i :: w.q <= i < w.eq ==> WordChar(text[i]))
    && (w.eq < |text| ==> !WordChar(text[w.eq]))
  }

  function Elements(args: seq<Span>): set<Span> {
    set w | w in args
  }

  function Spans(c: Cmd<Span>): set<Span> {
    match c
    case Exec(args) => Elements(args)
    case Redir(d, file, _, _) => Spans(d) + {file}
    case Pipe(l, r) => Spans(l) + Spans(r)
    case List(l, r) => Spans(l) + Spans(r)
    case Back(d) => Spans(d)
  }

  ghost predicate AllWords(text: string, ws: set<Span>) {
    forall w :: w in ws ==> IsWord(text, w)
  }

  function Files(rs: seq<Redirection<Span>>): set<Span> {
    set r | r in rs :: r.file
  }

  lemma {:induction false} SpansWrap(c: Cmd<Span>, rs: seq<Redirection<Span>>)
    ensures Spans(Wrap(c, rs)) == Spans(c) + Files(rs)
  {
    if rs != [] {
      SpansWrap(c, rs[..|rs| - 1]);
      assert rs == rs[..|rs| - 1] + [rs[|rs| - 1]];
    }
  }

  /** The token gettoken reports: a word for 'a', else the symbol. */
  function Token(text: string, ret: char, q: nat, eq: nat): Lexeme {
    if ret == 'a' then Word(ReadSpan(text, Span(q, eq))) else Sym(ret)
  }

  class Parser {
    const buf: array<char>
    const es: nat
    var s: nat

    ghost predicate Valid()
      reads this, buf
    {
      s <= es < buf.Length && buf[es] == '\0' && forall i :: 0 <= i < es ==> buf[i] != '\0'
    }

    ghost function Text(): string
      requires Valid()
      reads this, buf
    {
      buf[..es]
    }

    /** The tokens from the cursor on. */
    ghost function Ahead(): seq<Lexeme>
      requires Valid()
      reads this, buf
    {
      Lex(buf[s..es])
    }

    constructor (buf: array<char>, es: nat)
      requires es < buf.Length && buf[es] == '\0' && forall i :: 0 <= i < es ==> buf[i] != '\0'
      ensures Valid() && this.buf == buf && this.es == es && s == 0
    {
      this.buf, this.es, s := buf, es, 0;
    }

    method SkipBlanks(i: nat) returns (j: nat)
      requires Valid() && i <= es
      ensures i <= j <= es && buf[j..es] == SkipWhite(buf[i..es])
    {
      j := i;
      while j < es && White(buf[j])
        invariant i <= j <= es && SkipWhite(buf[j..es]) == SkipWhite(buf[i..es])
      {
        assert buf[j..es][1..] == buf[j + 1..es];
        j := j + 1;
      }
    }

    method SkipWord(i: nat) returns (j: nat)
      requires Valid() && i <= es
      ensures j == i + WordLength(buf[i..es])
    {
      j := i;
      while j < es && !White(buf[j]) && !Symbol(buf[j])
        invariant i <= j <= es && j + WordLength(buf[j..es]) == i + WordLength(buf[i..es])
      {
        assert buf[j..es][1..] == buf[j + 1..es];
        j := j + 1;
      }
    }

    /** The switch of gettoken. */
    method Scan(q: nat) returns (ret: char, eq: nat)
      requires Valid() && q <= es && (q < es ==> !White(buf[q]))
      ensures ret == Kind(buf[q..es]) && eq == q + Length(buf[q..es])
    {
      hide WordLength;
      var p := q;
      ret := buf[p];
      match buf[p] {
        case '\0' =>
        case '|' => p := p + 1;
        case '(' => p := p + 1;
        case ')' => p := p + 1;
        case ';' => p := p + 1;
        case '&' => p := p + 1;
        case '<' => p := p + 1;
        case '>' =>
          p := p + 1;
          if buf[p] == '>' {
            ret := '+';
            p := p + 1;
          }
        case _ =>
          ret := 'a';
          p := SkipWord(p);
      }
      eq := p;
    }

    method GetToken() returns (ret: char, q: nat, eq: nat)
      requires Valid()
      modifies this`s
      ensures Valid() && old(s) <= s
      ensures ret == '\0' <==> old(Ahead()) == []
      ensures ret == '\0' ==> Ahead() == []
      ensures ret != '\0' ==> old(Ahead()) == [Token(Text(), ret, q, eq)] + Ahead() && old(s) < s
      ensures ret == 'a' ==> IsWord(Text(), Span(q, eq))
      ensures ret in "a<|>&;()+" || ret == '\0'
    {
      hide Lex, SkipWhite, Kind, Length, Token, IsWord;
      ghost var text := buf[..es];
      q := SkipBlanks(s);
      assert text[s..] == buf[s..es] && text[q..] == buf[q..es];
      WhiteGone(text, s, q);
      ret, eq := Scan(q);
      TokenAt(text, s, q, ret, eq);
      assert text[eq..] == buf[eq..es];
      s := SkipBlanks(eq);
      LexSkip(text[eq..]);
    }

    /** Whether the next token begins with one of toks, which are symbols. */
    method Peek(toks: string) returns (r: bool)
      requires Valid() && forall c :: c in toks ==> Symbol(c)
      modifies this`s
      ensures Valid() && old(s) <= s && Ahead() == old(Ahead())
      ensures r <==> Starts(Ahead(), toks) || ('>' in toks && Starts(Ahead(), "+"))
      ensures s == es <==> Ahead() == []
    {
      hide Lex, SkipWhite, Kind, Length, Token, Starts, Symbol;
      ghost var text := buf[..es];
      ghost var s0 := s;
      s := SkipBlanks(s);
      assert text[s0..] == buf[s0..es] && text[s..] == buf[s..es];
      LexSkip(text[s0..]);
      WhiteGone(text, s0, s);
      NextStarts(text[s..], toks);
      assert s < es ==> text[s..][0] == buf[s];
      r := buf[s] != '\0' && buf[s] in toks;
    }

    method ParseRedirs(rs: seq<Redirection<Span>>) returns (r: Outcome<seq<Redirection<Span>>>)
      requires Valid() && AllWords(Text(), Files(rs))
      modifies this`s
      ensures Valid() && old(s) <= s
      ensures r.Parsed? ==> AllWords(Text(), Files(r.value))
      ensures RedirsRead(Text(), ShellGrammar.ParseRedirs(ReadRedirs(Text(), rs), old(Ahead())), r, Ahead())
    {
      hide Lex, SkipWhite, IsWord, ReadRedirs, ReadSpan;
      ghost var text, want := buf[..es], ShellGrammar.ParseRedirs(ReadRedirs(buf[..es], rs), Ahead());
      var acc := rs;
      var more := Peek("<>");
      while more
        invariant Valid() && old(s) <= s && AllWords(text, Files(acc))
        invariant more <==> Starts(Ahead(), "<>+")
        invariant ShellGrammar.ParseRedirs(ReadRedirs(text, acc), Ahead()) == want
        decreases es - s
      {
        ghost var ts := Ahead();
        var tok, _, _ := GetToken();
        ghost var ts1 := Ahead();
        assert ts[1..] == ts1;
        var ret, q, eq := GetToken();
        if ret != 'a' {
          return Panic;
        }
        var file := Redirect(tok, Span(q, eq));
        assert ts1[1..] == Ahead() && ts[2..] == Ahead();
        ReadRedirsSnoc(text, acc, file);
        FilesSnoc(acc, file);
        acc := acc + [file];
        more := Peek("<>");
      }
      r := Parsed(acc);
    }

    /** The loop of parseexec over the words of a simple command. */
    method ParseArgs(rs: seq<Redirection<Span>>) returns (r: Outcome<Cmd<Span>>)
      requires Valid() && AllWords(Text(), Files(rs))
      modifies this`s
      ensures Valid() && old(s) <= s
      ensures ArgsRead(Text(), ShellGrammar.ParseArgs([], ReadRedirs(Text(), rs), old(Ahead())), r, Ahead())
    {
      hide Lex, SkipWhite, IsWord, ReadRedirs, ReadSpan, ReadAll, Files, Spans, Read, Wrap;
      ghost var text, want := buf[..es], ShellGrammar.ParseArgs([], ReadRedirs(buf[..es], rs), Ahead());
      var args: seq<Span>, acc := [], rs;
      ReadNone(text);
      var stop := Peek("|)&;");
      while !stop
        invariant Valid() && old(s) <= s && AllWords(text, Files(acc)) && |args| < MAXARGS
        invariant forall w :: w in args ==> IsWord(text, w)
        invariant stop <==> Starts(Ahead(), "|)&;")
        invariant ShellGrammar.ParseArgs(ReadAll(text, args), ReadRedirs(text, acc), Ahead()) == want
        decreases es - s
      {
        ghost var ts := Ahead();
        var tok, q, eq := GetToken();
        if tok == '\0' {
          break;
        }
        assert ts[1..] == Ahead();
        ReadSnoc(text, args, Span(q, eq));
        if tok != 'a' {
          return Panic;
        }
        args := args + [Span(q, eq)];
        if |args| >= MAXARGS {
          return Panic;
        }
        var more := ParseRedirs(acc);
        if more.Panic? {
          return Panic;
        }
        acc := more.value;
        stop := Peek("|)&;");
      }
      WrapRead(text, args, acc);
      r := Parsed(Wrap(Exec(args), acc));
    }

    method ParseExec() returns (r: Outcome<Cmd<Span>>)
      requires Valid()
      modifies this`s
      ensures Valid() && old(s) <= s && CmdRead(Text(), ShellGrammar.ParseExec(old(Ahead())), r, Ahead())
      decreases es - s, 1
    {
      hide Lex, SkipWhite, IsWord, ReadRedirs, ReadSpan, ReadAll, Files, Spans, Read, Wrap;
      var block := Peek("(");
      if block {
        r := ParseBlock();
        return;
      }
      ReadNone(buf[..es]);
      var rs := ParseRedirs([]);
      if rs.Panic? {
        return Panic;
      }
      r := ParseArgs(rs.value);
    }

    /** Called where parseexec has seen the opening parenthesis, so that the first panic cannot happen. */
    method ParseBlock() returns (r: Outcome<Cmd<Span>>)
      requires Valid() && Starts(Ahead(), "(")
      modifies this`s
      ensures Valid() && old(s) <= s && CmdRead(Text(), ShellGrammar.ParseBlock(old(Ahead())), r, Ahead())
      decreases es - s, 0
    {
      hide Lex, SkipWhite, IsWord, ReadRedirs, ReadSpan, ReadAll, Files, Spans, Read, Wrap;
      ghost var text, ts := buf[..es], Ahead();
      var open := Peek("(");
      if !open {
        return Panic;
      }
      var _, _, _ := GetToken();
      assert ts[1..] == Ahead();
      var c := ParseLine();
      if c.Panic? {
        return Panic;
      }
      ts := Ahead();
      var close := Peek(")");
      if !close {
        return Panic;
      }
      var _, _, _ := GetToken();
      assert ts[1..] == Ahead();
      ReadNone(text);
      var rs := ParseRedirs([]);
      if rs.Panic? {
        return Panic;
      }
      WrapWords(text, c.value, rs.value);
      r := Parsed(Wrap(c.value, rs.value));
    }

    method ParsePipe() returns (r: Outcome<Cmd<Span>>)
      requires Valid()
      modifies this`s
      ensures Valid() && old(s) <= s && CmdRead(Text(), ShellGrammar.ParsePipe(old(Ahead())), r, Ahead())
      decreases es - s, 2
    {
      hide Lex, SkipWhite, IsWord, ReadSpan, ReadAll, ShellGrammar.ParseExec;
      r := ParseExec();
      if r.Panic? {
        return;
      }
      ghost var ts := Ahead();
      var bar := Peek("|");
      if bar {
        var _, _, _ := GetToken();
        assert ts[1..] == Ahead();
        var right := ParsePipe();
        if right.Panic? {
          return Panic;
        }
        r := Parsed(Pipe(r.value, right.value));
      }
    }

    method ParseLine() returns (r: Outcome<Cmd<Span>>)
      requires Valid()
      modifies this`s
      ensures Valid() && old(s) <= s && CmdRead(Text(), ShellGrammar.ParseLine(old(Ahead())), r, Ahead())
      decreases es - s, 3
    {
      hide Lex, SkipWhite, IsWord, ReadSpan, ReadAll, ShellGrammar.ParsePipe;
      ghost var text, ts0 := buf[..es], Ahead();
      r := ParsePipe();
      if r.Panic? {
        return;
      }
      var c := r.value;
      ghost var want := Backs(Read(text, c), Ahead());
      var amp := Peek("&");
      while amp
        invariant Valid() && old(s) <= s && AllWords(text, Spans(c))
        invariant amp <==> Starts(Ahead(), "&")
        invariant Backs(Read(text, c), Ahead()) == want
        decreases es - s
      {
        ghost var ts := Ahead();
        var _, _, _ := GetToken();
        assert ts[1..] == Ahead();
        c := Back(c);
        amp := Peek("&");
      }
      ghost var ts := Ahead();
      var semi := Peek(";");
      if semi {
        var _, _, _ := GetToken();
        assert ts[1..] == Ahead();
        var right := ParseLine();
        if right.Panic? {
          return Panic;
        }
        c := List(c, right.value);
      }
      r := Parsed(c);
    }
  }

  ghost predicate ArgsRead(text: string, want: ArgParse, r: Outcome<Cmd<Span>>, ahead: seq<Lexeme>) {
    match r
    case Panic => want.ArgFail?
    case Parsed(c) =>
      && want.ArgOk? && Read(text, c) == Wrap(Exec(want.args), want.rs)
      && want.rest == ahead && AllWords(text, Spans(c))
  }

  /** What the command found should be, given the parse of the tokens; its words are words of the text. */
  ghost predicate CmdRead(text: string, want: Parse, r: Outcome<Cmd<Span>>, ahead: seq<Lexeme>) {
    match r
    case Panic => want.Fail?
    case Parsed(c) => want == Ok(Read(text, c), ahead) && AllWords(text, Spans(c))
  }

  lemma ReadNone(text: string)
    ensures ReadAll(text, []) == [] && ReadRedirs(text, []) == [] && Files([]) == {}
  {
  }

  lemma WrapRead(text: string, args: seq<Span>, rs: seq<Redirection<Span>>)
    requires (forall w :: w in args ==> IsWord(text, w)) && AllWords(text, Files(rs))
    ensures Read(text, Wrap(Exec(args), rs)) == Wrap(Exec(ReadAll(text, args)), ReadRedirs(text, rs))
    ensures AllWords(text, Spans(Wrap(Exec(args), rs)))
  {
    ReadWrap(text, Exec(args), rs);
    SpansWrap(Exec(args), rs);
  }

  lemma WrapWords(text: string, c: Cmd<Span>, rs: seq<Redirection<Span>>)
    requires AllWords(text, Spans(c)) && AllWords(text, Files(rs))
    ensures Read(text, Wrap(c, rs)) == Wrap(Read(text, c), ReadRedirs(text, rs))
    ensures AllWords(text, Spans(Wrap(c, rs)))
  {
    ReadWrap(text, c, rs);
    SpansWrap(c, rs);
  }

  /** What the redirections found should be, given the parse of the tokens. */
  ghost predicate RedirsRead(text: string, want: RedirParse, r: Outcome<seq<Redirection<Span>>>, ahead: seq<Lexeme>) {
    match r
    case Panic => want.RedirFail?
    case Parsed(rs) => want == RedirOk(ReadRedirs(text, rs), ahead)
  }

  lemma FilesSnoc(rs: seq<Redirection<Span>>, r: Redirection<Span>)
    ensures Files(rs + [r]) == Files(rs) + {r.file}
  {
    assert forall x :: x in rs + [r] <==> x in rs || x == r;
    assert Files(rs + [r]) >= Files(rs) + {r.file} by { assert r in rs + [r]; }
  }

  lemma KindStarts(t: string, toks: string)
    requires t != "" && forall c :: c in toks ==> Symbol(c)
    ensures t[0] in toks <==> (Kind(t) != 'a' && Kind(t) in toks) || ('>' in toks && Kind(t) == '+')
  {
  }

  lemma NextStarts(t: string, toks: string)
    requires (t != "" ==> !White(t[0])) && forall c :: c in toks ==> Symbol(c)
    ensures t == "" <==> Lex(t) == []
    ensures t != "" && t[0] in toks <==> Starts(Lex(t), toks) || ('>' in toks && Starts(Lex(t), "+"))
  {
    hide Lex, White, WordLength, Length, Kind, Symbol;
    if t != "" {
      LexOne(t);
      KindStarts(t, toks);
    } else {
      LexEmpty();
    }
  }

  lemma WhiteGone(text: string, s: nat, q: nat)
    requires s <= q <= |text| && text[q..] == SkipWhite(text[s..])
    ensures q < |text| ==> !White(text[q])
  {
    assert q < |text| ==> text[q] == text[q..][0];
  }

  lemma TokenAt(text: string, s: nat, q: nat, ret: char, eq: nat)
    requires s <= q <= |text| && text[q..] == SkipWhite(text[s..]) && '\0' !in text
    requires ret == Kind(text[q..]) && eq == q + Length(text[q..])
    ensures ret == '\0' <==> Lex(text[s..]) == []
    ensures ret == '\0' ==> Lex(text[eq..]) == []
    ensures ret != '\0' ==> Lex(text[s..]) == [Token(text, ret, q, eq)] + Lex(text[eq..]) && q < eq
    ensures ret == 'a' ==> IsWord(text, Span(q, eq))
    ensures ret in "a<|>&;()+" || ret == '\0'
    ensures eq <= |text|
  {
    hide Lex, SkipWhite, Kind, Length, WordLength, White, Symbol, WordChar, IsWord;
    var t := text[q..];
    assert q < |text| ==> t[0] == text[q];
    WhiteGone(text, s, q);
    KindFacts(t);
    if q < |text| && ret == 'a' {
      WordAt(text, q);
    }
    LexSkip(text[s..]);
    if q < |text| {
      LexOne(t);
      assert t[Length(t)..] == text[eq..] && t[..Length(t)] == text[q..eq];
    } else {
      assert t == "";
      LexEmpty();
    }
  }

  lemma LexEmpty()
    ensures Lex("") == []
  {
  }

  lemma KindFacts(t: string)
    ensures Kind(t) in "a<|>&;()+" || Kind(t) == '\0'
    ensures Kind(t) == 'a' ==> t != ""
    ensures t == "" <==> Kind(t) == '\0'
    ensures Length(t) <= |t| && (t == "" ==> Length(t) == 0)
  {
  }

  lemma WordAt(text: string, q: nat)
    requires q < |text| && Kind(text[q..]) == 'a' && !White(text[q])
    ensures IsWord(text, Span(q, q + Length(text[q..])))
  {
    var t := text[q..];
    var n := WordLength(t);
    assert Length(t) == n && WordChar(t[0]);
    assert forall i :: q <= i < |text| ==> text[i] == t[i - q];
    hide WordLength;
  }

  // ----- Terminating the words in place -----

  function Marks(ws: set<Span>): set<nat> {
    set w | w in ws :: w.eq
  }

  lemma MarksUnion(a: set<Span>, b: set<Span>)
    ensures Marks(a + b) == Marks(a) + Marks(b)
  {
    forall e | e in Marks(a) + Marks(b)
      ensures e in Marks(a + b)
    {
      var w :| (w in a || w in b) && w.eq == e;
      assert w in a + b;
    }
  }

  predicate InBuffer(ws: set<Span>, n: nat) {
    forall w :: w in ws ==> w.eq < n
  }

  method NulTerminate(buf: array<char>, cmd: Cmd<Span>)
    requires InBuffer(Spans(cmd), buf.Length)
    modifies buf
    ensures forall i :: 0 <= i < buf.Length ==> buf[i] == if i in Marks(Spans(cmd)) then '\0' else old(buf[i])
    decreases cmd
  {
    match cmd
    case Exec(args) =>
      var i := 0;
      while i < |args|
        invariant i <= |args|
        invariant forall j :: 0 <= j < buf.Length ==>
                    buf[j] == if j in Marks(Elements(args[..i])) then '\0' else old(buf[j])
      {
        assert args[i] in Spans(cmd);
        assert args[..i + 1] == args[..i] + [args[i]];
        assert Elements(args[..i + 1]) == Elements(args[..i]) + {args[i]};
        MarksUnion(Elements(args[..i]), {args[i]});
        assert Marks({args[i]}) == {args[i].eq};
        buf[args[i].eq] := '\0';
        i := i + 1;
      }
      assert args[..|args|] == args;
    case Redir(c, file, _, _) =>
      MarksUnion(Spans(c), {file});
      assert Marks({file}) == {file.eq} && file in Spans(cmd);
      NulTerminate(buf, c);
      buf[file.eq] := '\0';
    case Pipe(l, r) =>
      MarksUnion(Spans(l), Spans(r));
      NulTerminate(buf, l);
      NulTerminate(buf, r);
    case List(l, r) =>
      MarksUnion(Spans(l), Spans(r));
      NulTerminate(buf, l);
      NulTerminate(buf, r);
    case Back(c) =>
      NulTerminate(buf, c);
  }

  /** The C string at position i of a buffer. */
  function CString(b: seq<char>, i: nat): string
    decreases |b| - i
  {
    if i < |b| && b[i] != '\0' then [b[i]] + CString(b, i + 1) else ""
  }

  lemma {:induction false} CStringIs(b: seq<char>, i: nat, e: nat)
    requires i <= e < |b| && b[e] == '\0' && forall j :: i <= j < e ==> b[j] != '\0'
    ensures CString(b, i) == b[i..e]
    decreases e - i
  {
    if i < e {
      CStringIs(b, i + 1, e);
      assert b[i..e] == [b[i]] + b[i + 1..e];
    }
  }

  method StrLen(buf: array<char>) returns (n: nat)
    requires '\0' in buf[..]
    ensures n < buf.Length && buf[n] == '\0' && (forall i :: 0 <= i < n ==> buf[i] != '\0')
    ensures buf[..n] == CString(buf[..], 0)
  {
    n := 0;
    while n < buf.Length && buf[n] != '\0'
      invariant n <= buf.Length && forall i :: 0 <= i < n ==> buf[i] != '\0'
    {
      n := n + 1;
    }
    CStringIs(buf[..], 0, n);
    assert buf[..n] == buf[..][0..n];
  }

  /** Each word of the command is now a C string of its own, and no character of a word is lost. */
  ghost predicate Terminated(text: string, b: seq<char>, c: Cmd<Span>) {
    && (forall w :: w in Spans(c) ==> IsWord(text, w) && CString(b, w.q) == ReadSpan(text, w))
    && |text| < |b| && (forall i :: 0 <= i < |text| && WordChar(text[i]) ==> b[i] == text[i])
  }

  lemma WordsKept(text: string, b: seq<char>, c: Cmd<Span>)
    requires |text| < |b| && '\0' !in text && AllWords(text, Spans(c))
    requires forall i :: 0 <= i < |text| ==> b[i] == if i in Marks(Spans(c)) then '\0' else text[i]
    requires b[|text|] == '\0'
    ensures Terminated(text, b, c)
  {
    forall w | w in Spans(c)
      ensures CString(b, w.q) == ReadSpan(text, w)
    {
      assert IsWord(text, w) && w.eq in Marks(Spans(c));
      MarksApart(text, Spans(c), w);
      CStringIs(b, w.q, w.eq);
      assert b[w.q..w.eq] == text[w.q..w.eq];
    }
    forall i | 0 <= i < |text| && WordChar(text[i])
      ensures b[i] == text[i]
    {
      assert i !in Marks(Spans(c));
    }
  }

  /** No word ends inside another. */
  lemma MarksApart(text: string, ws: set<Span>, w: Span)
    requires AllWords(text, ws) && w in ws
    ensures forall i :: w.q <= i < w.eq ==> i !in Marks(ws)
  {
    forall i | w.q <= i < w.eq
      ensures i !in Marks(ws)
    {
      assert WordChar(text[i]);
      forall v | v in ws ensures v.eq != i { assert IsWord(text, v); }
    }
  }

  /** parsecmd: the tree of the command line, its words terminated in place, or a panic. */
  method ParseCmd(buf: array<char>) returns (r: Outcome<Cmd<Span>>)
    requires '\0' in buf[..]
    modifies buf
    ensures r.Parsed? ==> ParseLine(Lex(CString(old(buf[..]), 0))) == Ok(Read(CString(old(buf[..]), 0), r.value), [])
    ensures r.Parsed? ==> Terminated(CString(old(buf[..]), 0), buf[..], r.value)
    ensures r.Panic? ==> var p := ParseLine(Lex(CString(old(buf[..]), 0))); p.Ok? ==> p.rest != []
    ensures r.Panic? ==> buf[..] == old(buf[..])
  {
    hide Lex, ParseLine, Terminated, Spans, Marks;
    var es := StrLen(buf);
    ghost var text := buf[..es];
    var parser := new Parser(buf, es);
    assert buf[0..es] == text;
    r := parser.ParseLine();
    if r.Panic? {
      return;
    }
    var _ := parser.Peek("");
    if parser.s != es {
      return Panic;
    }
    InsideText(text, Spans(r.value), buf.Length);
    NulTerminate(buf, r.value);
    WordsKept(text, buf[..], r.value);
  }

  lemma InsideText(text: string, ws: set<Span>, n: nat)
    requires AllWords(text, ws) && |text| < n
    ensures InBuffer(ws, n)
  {
    forall w | w in ws ensures w.eq < n { assert IsWord(text, w); }
  }

  /** A command printed in any layout into a buffer: what parsecmd reads there is the command, so by its
      contract it returns the command and does not panic. */
  lemma {:induction false} PrintedParses(t: Tree, gaps: seq<string>, b: seq<char>)
    requires WellFormed(t) && Spaced(LineTokens(t), gaps) && CString(b, 0) == Layout(LineTokens(t), gaps)
    ensures ParseLine(Lex(CString(b, 0))) == Ok(t, [])
  {
    hide ParseLine, Lex, Layout, Spaced, LineTokens, WellFormed, CString;
    RoundTrip(t, gaps);
  }
}
