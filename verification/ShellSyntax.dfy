/**
 The grammar of sh.c, said without a parser: command lines as they are written, with words and
 redirections in any order, > or >>, and parentheses where the writer put them.  A token sequence
 parses to a tree exactly when it is a way of writing that tree.
 */
module ShellSyntax {
  import opened ShellGrammar

  /** What a simple command is a sequence of: arguments and redirections. */
  datatype Item = Arg(w: string) | In(w: string) | Out(w: string) | Append(w: string)

  datatype Simple =
    | Items(items: seq<Item>)
    | Block(line: Line, redirs: seq<Item>)

  datatype Pipeline = Last(cmd: Simple) | Through(cmd: Simple, rest: Pipeline)

  /** A pipeline with some & behind it, and perhaps more after a semicolon. */
  datatype Line = End(pipe: Pipeline, amps: nat) | Then(pipe: Pipeline, amps: nat, rest: Line)

  // ----- How it is written -----

  function ItemToken(item: Item): seq<Lexeme> {
    match item
    case Arg(w) => [Word(w)]
    case In(w) => [Sym('<'), Word(w)]
    case Out(w) => [Sym('>'), Word(w)]
    case Append(w) => [Sym('+'), Word(w)]
  }

  function ItemTokens(items: seq<Item>): seq<Lexeme> {
    if items == [] then [] else ItemToken(items[0]) + ItemTokens(items[1..])
  }

  function SimpleTokens(c: Simple): seq<Lexeme> {
    match c
    case Items(items) => ItemTokens(items)
    case Block(line, redirs) => [Sym('(')] + (Tokens(line) + ([Sym(')')] + ItemTokens(redirs)))
  }

  function PipeTokens(p: Pipeline): seq<Lexeme> {
    match p
    case Last(c) => SimpleTokens(c)
    case Through(c, rest) => SimpleTokens(c) + ([Sym('|')] + PipeTokens(rest))
  }

  function Amps(n: nat): seq<Lexeme> {
    if n == 0 then [] else [Sym('&')] + Amps(n - 1)
  }

  function Tokens(l: Line): seq<Lexeme> {
    match l
    case End(p, n) => PipeTokens(p) + Amps(n)
    case Then(p, n, rest) => PipeTokens(p) + (Amps(n) + ([Sym(';')] + Tokens(rest)))
  }

  // ----- What it means -----

  function ItemArg(item: Item): seq<string> {
    if item.Arg? then [item.w] else []
  }

  /** Input is opened read only as descriptor 0; output write only, and created, as descriptor 1. */
  function ItemRedir(item: Item): seq<Redirection<string>> {
    match item
    case Arg(_) => []
    case In(w) => [Redirection(w, 0, 0)]
    case Out(w) => [Redirection(w, 0x200 + 0x001, 1)]
    case Append(w) => [Redirection(w, 0x200 + 0x001, 1)]
  }

  function Args(items: seq<Item>): seq<string> {
    if items == [] then [] else ItemArg(items[0]) + Args(items[1..])
  }

  function Redirs(items: seq<Item>): seq<Redirection<string>> {
    if items == [] then [] else ItemRedir(items[0]) + Redirs(items[1..])
  }

  function SimpleTree(c: Simple): Tree {
    match c
    case Items(items) => Wrap(Exec(Args(items)), Redirs(items))
    case Block(line, redirs) => Wrap(TreeOf(line), Redirs(redirs))
  }

  function PipeTree(p: Pipeline): Tree {
    match p
    case Last(c) => SimpleTree(c)
    case Through(c, rest) => Pipe(SimpleTree(c), PipeTree(rest))
  }

  function InBack(t: Tree, n: nat): Tree
    decreases n
  {
    if n == 0 then t else InBack(Back(t), n - 1)
  }

  function TreeOf(l: Line): Tree {
    match l
    case End(p, n) => InBack(PipeTree(p), n)
    case Then(p, n, rest) => List(InBack(PipeTree(p), n), TreeOf(rest))
  }

  // ----- What may be written -----

  predicate NoArgs(items: seq<Item>) {
    forall i :: 0 <= i < |items| ==> !items[i].Arg?
  }

  predicate SimpleOk(c: Simple) {
    match c
    case Items(items) => |Args(items)| < MAXARGS
    case Block(line, redirs) => LineOk(line) && NoArgs(redirs)
  }

  predicate PipeOk(p: Pipeline) {
    SimpleOk(p.cmd) && (p.Through? ==> PipeOk(p.rest))
  }

  predicate LineOk(l: Line) {
    PipeOk(l.pipe) && (l.Then? ==> LineOk(l.rest))
  }

  // ----- What is written so is parsed so -----

  /** One redirection, and one argument. */
  lemma OneRedir(rs: seq<Redirection<string>>, item: Item, ts: seq<Lexeme>)
    requires !item.Arg?
    ensures ParseRedirs(rs, ItemToken(item) + ts) == ParseRedirs(rs + ItemRedir(item), ts)
  {
    var all := ItemToken(item) + ts;
    assert all[1] == Word(item.w) && all[2..] == ts;
    assert [Redirect(all[0].c, all[1].w)] == ItemRedir(item);
  }

  lemma OneArg(args: seq<string>, rs: seq<Redirection<string>>, w: string, ts: seq<Lexeme>)
    requires |args| + 1 < MAXARGS
    ensures ParseRedirs(rs, ItemToken(Arg(w)) + ts) == RedirOk(rs, ItemToken(Arg(w)) + ts)
    ensures ParseArgs(args, rs, ItemToken(Arg(w)) + ts) ==
            var p := ParseRedirs(rs, ts); if p.RedirFail? then ArgFail else ParseArgs(args + [w], p.rs, p.rest)
  {
    var all := ItemToken(Arg(w)) + ts;
    assert all[0] == Word(w) && all[1..] == ts;
    assert !Starts(all, "<>+") && !Starts(all, "|)&;");
  }

  lemma NoMore(args: seq<string>, rs: seq<Redirection<string>>, rest: seq<Lexeme>)
    ensures !Starts(rest, "<>+") ==> ParseRedirs(rs, rest) == RedirOk(rs, rest)
    ensures Ends(rest, "|)&;") ==> ParseRedirs(rs, rest) == RedirOk(rs, rest)
    ensures Ends(rest, "|)&;") ==> ParseArgs(args, rs, rest) == ArgOk(args, rs, rest)
  {
  }

  lemma NoItems(rest: seq<Lexeme>)
    ensures ItemTokens([]) + rest == rest && Args([]) == [] && Redirs([]) == []
  {
  }

  lemma FirstItem(items: seq<Item>, rest: seq<Lexeme>)
    requires items != []
    ensures ItemTokens(items) + rest == ItemToken(items[0]) + (ItemTokens(items[1..]) + rest)
    ensures Args(items) == ItemArg(items[0]) + Args(items[1..])
    ensures Redirs(items) == ItemRedir(items[0]) + Redirs(items[1..])
  {
  }

  lemma {:induction false} RedirsParse(rs: seq<Redirection<string>>, items: seq<Item>, rest: seq<Lexeme>)
    requires NoArgs(items) && !Starts(rest, "<>+")
    ensures ParseRedirs(rs, ItemTokens(items) + rest) == RedirOk(rs + Redirs(items), rest)
    decreases |items|
  {
    hide ParseRedirs, ItemToken, ItemRedir, Starts, ItemTokens, Redirs;
    if items == [] {
      NoItems(rest);
      NoMore([], rs, rest);
      assert rs + [] == rs;
    } else {
      var item, more := items[0], items[1..];
      FirstItem(items, rest);
      OneRedir(rs, item, ItemTokens(more) + rest);
      RedirsParse(rs + ItemRedir(item), more, rest);
      assert rs + ItemRedir(item) + Redirs(more) == rs + (ItemRedir(item) + Redirs(more));
    }
  }

  /** Redirections, and then the loop over words. */
  lemma {:induction false} ItemsParse(args: seq<string>, rs: seq<Redirection<string>>, items: seq<Item>,
                                      rest: seq<Lexeme>)
    requires |args| + |Args(items)| < MAXARGS && Ends(rest, "|)&;")
    ensures var p := ParseRedirs(rs, ItemTokens(items) + rest);
            p.RedirOk? && ParseArgs(args, p.rs, p.rest) == ArgOk(args + Args(items), rs + Redirs(items), rest)
    decreases |items|
  {
    hide ParseRedirs, ParseArgs, ItemToken, ItemRedir, Starts, Ends, ItemTokens, Redirs, Args;
    if items == [] {
      NoItems(rest);
      NoMore(args, rs, rest);
      assert args + [] == args && rs + [] == rs;
    } else {
      var item, more := items[0], items[1..];
      FirstItem(items, rest);
      NoRedir(item);
      if item.Arg? {
        OneArg(args, rs, item.w, ItemTokens(more) + rest);
        ItemsParse(args + [item.w], rs, more, rest);
        assert args + [item.w] + Args(more) == args + ([item.w] + Args(more)) && [] + Redirs(more) == Redirs(more);
      } else {
        OneRedir(rs, item, ItemTokens(more) + rest);
        ItemsParse(args, rs + ItemRedir(item), more, rest);
        assert rs + ItemRedir(item) + Redirs(more) == rs + (ItemRedir(item) + Redirs(more));
        assert [] + Args(more) == Args(more);
      }
    }
  }

  lemma NoRedir(item: Item)
    ensures item.Arg? ==> ItemRedir(item) == []
  {
  }

  lemma ItemsStart(items: seq<Item>, rest: seq<Lexeme>)
    requires Ends(rest, "|)&;")
    ensures !Starts(ItemTokens(items) + rest, "(")
  {
    if items == [] { assert ItemTokens(items) + rest == rest; }
  }

  lemma {:induction false} SimpleParse(c: Simple, rest: seq<Lexeme>)
    requires SimpleOk(c) && Ends(rest, "|)&;")
    ensures ParseExec(SimpleTokens(c) + rest) == Ok(SimpleTree(c), rest)
    decreases c, 0
  {
    hide ParseRedirs, ParseArgs, ItemTokens, Args, Redirs, ParseLine, NoArgs;
    var ts := SimpleTokens(c) + rest;
    match c
    case Items(items) =>
      ItemsStart(items, rest);
      ItemsParse([], [], items, rest);
      assert [] + Args(items) == Args(items) && [] + Redirs(items) == Redirs(items);
    case Block(line, redirs) =>
      var tail := [Sym(')')] + (ItemTokens(redirs) + rest);
      LineParse(line, tail);
      assert ts == [Sym('(')] + (Tokens(line) + tail);
      assert ts[1..] == Tokens(line) + tail && tail[1..] == ItemTokens(redirs) + rest;
      EndsFacts(rest);
      RedirsParse([], redirs, rest);
      assert [] + Redirs(redirs) == Redirs(redirs);
  }

  lemma {:induction false} PipeParse(p: Pipeline, rest: seq<Lexeme>)
    requires PipeOk(p) && Ends(rest, ")&;")
    ensures ParsePipe(PipeTokens(p) + rest) == Ok(PipeTree(p), rest)
    decreases p, 1
  {
    hide ParseExec, SimpleTokens, SimpleTree, SimpleOk;
    if p.Through? {
      var tail := [Sym('|')] + (PipeTokens(p.rest) + rest);
      SimpleParse(p.cmd, tail);
      PipeParse(p.rest, rest);
      assert PipeTokens(p) + rest == SimpleTokens(p.cmd) + tail && tail[1..] == PipeTokens(p.rest) + rest;
    } else {
      SimpleParse(p.cmd, rest);
    }
  }

  lemma {:induction false} AmpsParse(t: Tree, n: nat, rest: seq<Lexeme>)
    requires !Starts(rest, "&")
    ensures Backs(t, Amps(n) + rest) == Ok(InBack(t, n), rest)
    decreases n
  {
    var ts := Amps(n) + rest;
    if n == 0 {
      assert ts == rest;
    } else {
      assert ts[1..] == Amps(n - 1) + rest;
      AmpsParse(Back(t), n - 1, rest);
    }
  }

  lemma AmpsEnd(n: nat, rest: seq<Lexeme>)
    requires Ends(rest, ");")
    ensures Ends(Amps(n) + rest, ")&;") && !Starts(rest, "&")
  {
    if n == 0 { assert Amps(n) + rest == rest; }
  }

  lemma {:induction false} LineParse(l: Line, rest: seq<Lexeme>)
    requires LineOk(l) && Ends(rest, ")")
    ensures ParseLine(Tokens(l) + rest) == Ok(TreeOf(l), rest)
    decreases l, 2
  {
    hide ParsePipe, PipeTokens, PipeTree, PipeOk, Amps, Backs, InBack;
    if l.Then? {
      var tail := [Sym(';')] + (Tokens(l.rest) + rest);
      AmpsEnd(l.amps, tail);
      PipeParse(l.pipe, Amps(l.amps) + tail);
      AmpsParse(PipeTree(l.pipe), l.amps, tail);
      LineParse(l.rest, rest);
      assert Tokens(l) + rest == PipeTokens(l.pipe) + (Amps(l.amps) + tail);
      assert tail[1..] == Tokens(l.rest) + rest;
    } else {
      AmpsEnd(l.amps, rest);
      PipeParse(l.pipe, Amps(l.amps) + rest);
      AmpsParse(PipeTree(l.pipe), l.amps, rest);
      assert Tokens(l) + rest == PipeTokens(l.pipe) + (Amps(l.amps) + rest);
    }
  }

  // ----- What is parsed was written so -----

  function ItemOf(c: char, w: string): Item {
    if c == '<' then In(w) else if c == '>' then Out(w) else Append(w)
  }

  lemma SymbolItem(c: char, w: string)
    requires c in "<>+"
    ensures var item := ItemOf(c, w);
            !item.Arg? && ItemToken(item) == [Sym(c), Word(w)] && ItemRedir(item) == [Redirect(c, w)]
  {
  }

  /** One step of the two loops. */
  lemma RedirsNext(rs: seq<Redirection<string>>, ts: seq<Lexeme>)
    requires ParseRedirs(rs, ts).RedirOk?
    ensures !Starts(ts, "<>+") ==> ParseRedirs(rs, ts) == RedirOk(rs, ts)
    ensures Starts(ts, "<>+") ==>
              && ts[0].Sym? && ts[0].c in "<>+" && |ts| > 1 && ts[1].Word? && ts == [ts[0], ts[1]] + ts[2..]
              && ParseRedirs(rs, ts) == ParseRedirs(rs + [Redirect(ts[0].c, ts[1].w)], ts[2..])
  {
  }

  lemma ArgsNext(args: seq<string>, rs: seq<Redirection<string>>, ts: seq<Lexeme>)
    requires ParseArgs(args, rs, ts).ArgOk?
    ensures ts == [] || Starts(ts, "|)&;") ==> ParseArgs(args, rs, ts) == ArgOk(args, rs, ts)
    ensures ts != [] && !Starts(ts, "|)&;") ==>
              && ts[0].Word? && |args| + 1 < MAXARGS && ts == [ts[0]] + ts[1..]
              && var p := ParseRedirs(rs, ts[1..]);
              && p.RedirOk? && ParseArgs(args, rs, ts) == ParseArgs(args + [ts[0].w], p.rs, p.rest)
  {
  }

  lemma {:induction false} RedirsWritten(rs: seq<Redirection<string>>, ts: seq<Lexeme>) returns (items: seq<Item>)
    requires ParseRedirs(rs, ts).RedirOk?
    ensures var p := ParseRedirs(rs, ts);
            NoArgs(items) && ts == ItemTokens(items) + p.rest && p.rs == rs + Redirs(items) && Args(items) == []
    decreases |ts|
  {
    hide ItemOf, ItemToken, ItemRedir, Redirect, ParseRedirs, Starts, ItemTokens, Args, Redirs;
    RedirsNext(rs, ts);
    if Starts(ts, "<>+") {
      var item, r := ItemOf(ts[0].c, ts[1].w), Redirect(ts[0].c, ts[1].w);
      var more := RedirsWritten(rs + [r], ts[2..]);
      SymbolItem(ts[0].c, ts[1].w);
      items := [item] + more;
      assert items[1..] == more;
      FirstItem(items, ParseRedirs(rs, ts).rest);
      assert rs + [r] + Redirs(more) == rs + ([r] + Redirs(more));
    } else {
      items := [];
      NoItems(ts);
      assert rs + [] == rs;
    }
  }

  lemma {:induction false} ItemsJoin(a: seq<Item>, b: seq<Item>)
    ensures ItemTokens(a + b) == ItemTokens(a) + ItemTokens(b)
    ensures Args(a + b) == Args(a) + Args(b) && Redirs(a + b) == Redirs(a) + Redirs(b)
    decreases |a|
  {
    hide ItemToken, ItemArg, ItemRedir, ItemTokens, Args, Redirs;
    if a == [] {
      assert a + b == b;
      NoItems([]);
    } else {
      assert (a + b)[1..] == a[1..] + b && (a + b)[0] == a[0];
      ItemsJoin(a[1..], b);
      FirstItem(a + b, []);
      FirstItem(a, ItemTokens(b));
      JoinFirst(ItemToken(a[0]), ItemTokens(a[1..]), ItemTokens(b));
      JoinFirst(ItemArg(a[0]), Args(a[1..]), Args(b));
      JoinFirst(ItemRedir(a[0]), Redirs(a[1..]), Redirs(b));
      assert ItemTokens(a + b) + [] == ItemTokens(a + b);
    }
  }

  lemma JoinFirst<T>(a: seq<T>, b: seq<T>, c: seq<T>)
    ensures a + (b + c) == a + b + c && a + (b + c + []) == a + (b + c)
  {
  }

  lemma {:induction false} ArgsWritten(args: seq<string>, rs: seq<Redirection<string>>, ts: seq<Lexeme>)
      returns (items: seq<Item>)
    requires ParseArgs(args, rs, ts).ArgOk? && |args| < MAXARGS
    ensures var p := ParseArgs(args, rs, ts);
            && ts == ItemTokens(items) + p.rest && p.args == args + Args(items) && p.rs == rs + Redirs(items)
            && |p.args| < MAXARGS
    decreases |ts|
  {
    hide ParseArgs, ParseRedirs, Starts, ItemTokens, Args, Redirs;
    ArgsNext(args, rs, ts);
    if ts == [] || Starts(ts, "|)&;") {
      items := [];
      NoItems(ts);
      assert args + [] == args && rs + [] == rs;
    } else {
      var w, p := ts[0].w, ParseRedirs(rs, ts[1..]);
      var more := RedirsWritten(rs, ts[1..]);
      var last := ArgsWritten(args + [w], p.rs, p.rest);
      items := [Arg(w)] + (more + last);
      AllJoin(w, more, last);
      assert args + [w] + Args(last) == args + ([w] + ([] + Args(last)));
      assert rs + Redirs(more) + Redirs(last) == rs + (Redirs(more) + Redirs(last));
    }
  }

  lemma AllJoin(w: string, more: seq<Item>, last: seq<Item>)
    ensures var items := [Arg(w)] + (more + last);
            && ItemTokens(items) == [Word(w)] + (ItemTokens(more) + ItemTokens(last))
            && Args(items) == [w] + (Args(more) + Args(last)) && Redirs(items) == Redirs(more) + Redirs(last)
  {
    ItemsJoin(more, last);
    assert ([Arg(w)] + (more + last))[1..] == more + last;
  }

  lemma {:induction false} SimpleWritten(ts: seq<Lexeme>) returns (c: Simple)
    requires ParseExec(ts).Ok?
    ensures SimpleOk(c) && ts == SimpleTokens(c) + ParseExec(ts).rest && ParseExec(ts).cmd == SimpleTree(c)
    decreases |ts|, 1
  {
    hide ParseRedirs, ParseArgs, ItemTokens, Args, Redirs, ParseLine, NoArgs, LineOk, Tokens;
    if Starts(ts, "(") {
      var p := ParseLine(ts[1..]);
      var line := LineWritten(ts[1..]);
      var redirs := RedirsWritten([], p.rest[1..]);
      c := Block(line, redirs);
      assert [] + Redirs(redirs) == Redirs(redirs);
      assert ts == [Sym('(')] + ts[1..] && p.rest == [Sym(')')] + p.rest[1..];
    } else {
      var p := ParseRedirs([], ts);
      var first := RedirsWritten([], ts);
      var more := ArgsWritten([], p.rs, p.rest);
      ItemsJoin(first, more);
      c := Items(first + more);
      assert [] + Redirs(first) == Redirs(first) && [] + Args(more) == Args(more);
      assert Args(first + more) == Args(more);
    }
  }

  lemma {:induction false} PipeWritten(ts: seq<Lexeme>) returns (p: Pipeline)
    requires ParsePipe(ts).Ok?
    ensures PipeOk(p) && ts == PipeTokens(p) + ParsePipe(ts).rest && ParsePipe(ts).cmd == PipeTree(p)
    decreases |ts|, 2
  {
    hide ParseExec, SimpleTokens, SimpleTree, SimpleOk;
    var c := SimpleWritten(ts);
    var rest := ParseExec(ts).rest;
    if Starts(rest, "|") {
      var more := PipeWritten(rest[1..]);
      p := Through(c, more);
      assert rest == [Sym('|')] + rest[1..];
    } else {
      p := Last(c);
    }
  }

  lemma {:induction false} AmpsWritten(t: Tree, ts: seq<Lexeme>) returns (n: nat)
    ensures ts == Amps(n) + Backs(t, ts).rest && Backs(t, ts).cmd == InBack(t, n)
    decreases |ts|
  {
    if Starts(ts, "&") {
      n := AmpsWritten(Back(t), ts[1..]);
      n := n + 1;
      assert ts == [Sym('&')] + ts[1..];
    } else {
      n := 0;
    }
  }

  lemma {:induction false} LineWritten(ts: seq<Lexeme>) returns (l: Line)
    requires ParseLine(ts).Ok?
    ensures LineOk(l) && ts == Tokens(l) + ParseLine(ts).rest && ParseLine(ts).cmd == TreeOf(l)
    decreases |ts|, 3
  {
    hide ParsePipe, PipeTokens, PipeTree, PipeOk, Amps, Backs, InBack;
    var p := PipeWritten(ts);
    var q := ParsePipe(ts);
    var n := AmpsWritten(q.cmd, q.rest);
    var rest := Backs(q.cmd, q.rest).rest;
    if Starts(rest, ";") {
      var more := LineWritten(rest[1..]);
      l := Then(p, n, more);
      assert rest == [Sym(';')] + rest[1..];
    } else {
      l := End(p, n);
    }
  }

  /** A token sequence parses to a tree, with nothing left over, if and only if it is a way of writing it. */
  lemma ParsesExactly(ts: seq<Lexeme>, t: Tree)
    ensures ParseLine(ts) == Ok(t, []) <==> exists l :: LineOk(l) && Tokens(l) == ts && TreeOf(l) == t
  {
    hide ParseLine, Tokens, TreeOf, LineOk;
    if ParseLine(ts) == Ok(t, []) {
      var l := LineWritten(ts);
      assert Tokens(l) + [] == Tokens(l);
      assert LineOk(l) && Tokens(l) == ts && TreeOf(l) == t;
    }
    if l :| LineOk(l) && Tokens(l) == ts && TreeOf(l) == t {
      LineParse(l, []);
      assert Tokens(l) + [] == Tokens(l);
    }
  }

  // ----- Down to characters -----

  predicate PlainItems(items: seq<Item>) {
    forall i :: 0 <= i < |items| ==> Plain(Word(items[i].w))
  }

  predicate PlainSimple(c: Simple) {
    match c
    case Items(items) => PlainItems(items)
    case Block(line, redirs) => PlainLine(line) && PlainItems(redirs)
  }

  predicate PlainPipe(p: Pipeline) {
    PlainSimple(p.cmd) && (p.Through? ==> PlainPipe(p.rest))
  }

  /** Its words are words: not empty, and without white space and symbols. */
  predicate PlainLine(l: Line) {
    PlainPipe(l.pipe) && (l.Then? ==> PlainLine(l.rest))
  }

  predicate AllPlain(ts: seq<Lexeme>) {
    forall i :: 0 <= i < |ts| ==> Plain(ts[i])
  }

  lemma {:induction false} ItemsPlain(items: seq<Item>)
    requires PlainItems(items)
    ensures AllPlain(ItemTokens(items))
  {
    if items != [] { ItemsPlain(items[1..]); }
  }

  lemma {:induction false} SimplePlain(c: Simple)
    requires PlainSimple(c)
    ensures AllPlain(SimpleTokens(c))
    decreases c, 0
  {
    match c
    case Items(items) => ItemsPlain(items);
    case Block(line, redirs) =>
      LinePlain(line);
      ItemsPlain(redirs);
  }

  lemma {:induction false} PipePlain(p: Pipeline)
    requires PlainPipe(p)
    ensures AllPlain(PipeTokens(p))
    decreases p, 1
  {
    SimplePlain(p.cmd);
    if p.Through? { PipePlain(p.rest); }
  }

  lemma {:induction false} AmpsPlain(n: nat)
    ensures AllPlain(Amps(n))
  {
    if n > 0 { AmpsPlain(n - 1); }
  }

  lemma {:induction false} LinePlain(l: Line)
    requires PlainLine(l)
    ensures AllPlain(Tokens(l))
    decreases l, 2
  {
    PipePlain(l.pipe);
    AmpsPlain(l.amps);
    if l.Then? { LinePlain(l.rest); }
  }

  /** A space before, between and behind n tokens. */
  function Spaces(n: nat): (gaps: seq<string>)
    ensures |gaps| == n + 1 && forall i :: 0 <= i <= n ==> gaps[i] == " "
  {
    seq(n + 1, _ => " ")
  }

  lemma SpacesSpaced(ts: seq<Lexeme>)
    requires AllPlain(ts)
    ensures Spaced(ts, Spaces(|ts|))
  {
  }

  /** Every command line of plain words, written with white space as Spaced demands, parses to its tree;
      in particular when all tokens are set apart by spaces. */
  lemma WrittenParses(l: Line, gaps: seq<string>)
    requires LineOk(l) && PlainLine(l)
    ensures Spaced(Tokens(l), Spaces(|Tokens(l)|))
    ensures Spaced(Tokens(l), gaps) ==> ParseLine(Lex(Layout(Tokens(l), gaps))) == Ok(TreeOf(l), [])
  {
    hide ParseLine, Lex, Layout, Tokens, TreeOf, LineOk, PlainLine, Spaced;
    LinePlain(l);
    SpacesSpaced(Tokens(l));
    if Spaced(Tokens(l), gaps) {
      LexLayout(Tokens(l), gaps);
      LineParse(l, []);
      assert Tokens(l) + [] == Tokens(l);
    }
  }

  /** The characters of sh.c's two tables. */
  lemma Characters(c: char)
    ensures White(c) <==> c in " \t\r\n" || c == 11 as char
    ensures Symbol(c) <==> c in "<|>&;()"
  {
  }
}
