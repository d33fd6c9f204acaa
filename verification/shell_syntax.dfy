/** The syntax of command lines (user/sh.c), as people write them, and its meaning: a line is a list of pipelines,
    a pipeline a row of commands, and a command either words and redirections in any order, or a line in
    parentheses and redirections.  The parser accepts exactly these, and gives each its meaning. */
module ShellSyntax {
  import opened ShellGrammar
  import opened ShellWords

  // Commands with their words written out

  datatype Tree =
    | Simple(words: seq<string>)
    | Redirected(t: Tree, file: string, mode: nat, fd: nat)
    | Piped(l: Tree, r: Tree)
    | Listed(l: Tree, r: Tree)
    | Background(t: Tree)

  function TextOf(x: string, w: Span): string {
    if w.q <= w.eq <= |x| then x[w.q..w.eq] else ""
  }

  function WordsOf(x: string, argv: seq<Span>): (r: seq<string>)
    ensures |r| == |argv|
  {
    if argv == [] then [] else WordsOf(x, argv[..|argv| - 1]) + [TextOf(x, argv[|argv| - 1])]
  }

  /** The command that a parse result stands for. */
  function Resolve(x: string, c: Cmd): Tree {
    match c
    case Exec(argv) => Simple(WordsOf(x, argv))
    case Redir(d, r) => Redirected(Resolve(x, d), TextOf(x, r.file), r.mode, r.fd)
    case Pipe(l, r) => Piped(Resolve(x, l), Resolve(x, r))
    case List(l, r) => Listed(Resolve(x, l), Resolve(x, r))
    case Back(d) => Background(Resolve(x, d))
  }

  // Tokens

  /** A word, or a symbol; '+' stands for `>>`. */
  datatype Tok = Word(w: string) | Sym(c: char)

  function AsTok(x: string, k: Token): Tok {
    if k.kind == 'a' then Word(TextOf(x, k.span)) else Sym(k.kind)
  }

  /** The tokens of a text from a position on. */
  function Toks(x: string, s: nat): seq<Tok>
    requires s <= |x| && NulFree(x)
    decreases |x| - s
  {
    var k := GetToken(x, s);
    if k.kind == NUL then [] else [AsTok(x, k)] + Toks(x, k.next)
  }

  function Tokens(x: string): seq<Tok>
    requires NulFree(x)
  {
    Toks(x, 0)
  }

  // Syntax

  datatype Item = Arg(w: string) | To(op: char, file: string)
  datatype Command = Plain(items: seq<Item>) | Group(line: Line, after: seq<Item>)
  datatype Pipeline = Last(c: Command) | Into(c: Command, rest: Pipeline)

  /** A pipeline, the number of `&` behind it, and the rest of the line. */
  datatype Line = End(p: Pipeline, amps: nat) | Next(p: Pipeline, amps: nat, rest: Line)

  function ItemToks(i: Item): seq<Tok> {
    match i
    case Arg(w) => [Word(w)]
    case To(op, file) => [Sym(op), Word(file)]
  }

  function ItemsToks(items: seq<Item>): seq<Tok> {
    if items == [] then [] else ItemToks(items[0]) + ItemsToks(items[1..])
  }

  function CommandToks(c: Command): seq<Tok> {
    match c
    case Plain(items) => ItemsToks(items)
    case Group(line, after) => [Sym('(')] + (LineToks(line) + ([Sym(')')] + ItemsToks(after)))
  }

  function PipeToks(p: Pipeline): seq<Tok> {
    match p
    case Last(c) => CommandToks(c)
    case Into(c, rest) => CommandToks(c) + ([Sym('|')] + PipeToks(rest))
  }

  function Amps(n: nat): seq<Tok> {
    if n == 0 then [] else [Sym('&')] + Amps(n - 1)
  }

  function LineToks(l: Line): seq<Tok> {
    match l
    case End(p, n) => PipeToks(p) + Amps(n)
    case Next(p, n, rest) => PipeToks(p) + (Amps(n) + ([Sym(';')] + LineToks(rest)))
  }

  ghost predicate IsWord(w: string) {
    |w| > 0 && forall i :: 0 <= i < |w| ==> WordChar(w[i])
  }

  ghost predicate ItemOk(i: Item) {
    match i
    case Arg(w) => IsWord(w)
    case To(op, file) => op in {'<', '>', '+'} && IsWord(file)
  }

  ghost predicate ItemsOk(items: seq<Item>) {
    forall i :: 0 <= i < |items| ==> ItemOk(items[i])
  }

  ghost predicate OnlyTos(items: seq<Item>) {
    ItemsOk(items) && forall i :: 0 <= i < |items| ==> items[i].To?
  }

  function Args(items: seq<Item>): seq<string> {
    if items == [] then []
    else (if items[0].Arg? then [items[0].w] else []) + Args(items[1..])
  }

  function Tos(items: seq<Item>): seq<Item> {
    if items == [] then []
    else (if items[0].To? then [items[0]] else []) + Tos(items[1..])
  }

  /** A command has at most nine words. */
  ghost predicate CommandOk(c: Command) {
    match c
    case Plain(items) => ItemsOk(items) && |Args(items)| <= 9
    case Group(line, after) => LineOk(line) && OnlyTos(after)
  }

  ghost predicate PipeOk(p: Pipeline) {
    match p
    case Last(c) => CommandOk(c)
    case Into(c, rest) => CommandOk(c) && PipeOk(rest)
  }

  ghost predicate LineOk(l: Line) {
    match l
    case End(p, n) => PipeOk(p)
    case Next(p, n, rest) => PipeOk(p) && LineOk(rest)
  }

  // Meaning

  function OpenMode(op: char): nat {
    if op == '<' then 0x000 else if op == '>' then 0x601 else 0x201
  }

  function Descriptor(op: char): nat {
    if op == '<' then 0 else 1
  }

  /** The first redirection is the innermost. */
  function Under(t: Tree, tos: seq<Item>): Tree
    decreases |tos|
  {
    if tos == [] then t
    else if tos[0].To? then
      Under(Redirected(t, tos[0].file, OpenMode(tos[0].op), Descriptor(tos[0].op)), tos[1..])
    else Under(t, tos[1..])
  }

  function CommandMeans(c: Command): Tree {
    match c
    case Plain(items) => Under(Simple(Args(items)), Tos(items))
    case Group(line, after) => Under(LineMeans(line), after)
  }

  function PipeMeans(p: Pipeline): Tree {
    match p
    case Last(c) => CommandMeans(c)
    case Into(c, rest) => Piped(CommandMeans(c), PipeMeans(rest))
  }

  function InBackground(t: Tree, n: nat): Tree
    decreases n
  {
    if n == 0 then t else InBackground(Background(t), n - 1)
  }

  function LineMeans(l: Line): Tree {
    match l
    case End(p, n) => InBackground(PipeMeans(p), n)
    case Next(p, n, rest) => Listed(InBackground(PipeMeans(p), n), LineMeans(rest))
  }

  // Sequences

  lemma {:induction false} Assoc<T>(a: seq<T>, b: seq<T>, c: seq<T>)
    ensures (a + b) + c == a + (b + c)
  {
  }

  lemma {:induction false} Chained(a: seq<Tok>, t: Tok, b: seq<Tok>, c: seq<Tok>)
    ensures a + ([t] + (b + c)) == (a + ([t] + b)) + c
  {
  }

  lemma {:induction false} TwoFirst(t: Tok, u: Tok, a: seq<Tok>, b: seq<Tok>)
    ensures ([t, u] + a) + b == [t] + ([u] + (a + b))
  {
  }

  // The next token

  lemma {:induction false} SkipStays(x: string, s: nat)
    requires s <= |x| && !White(At(x, s))
    ensures Skip(x, s) == s
  {
  }

  lemma {:induction false} WordText(x: string, s: nat)
    requires NulFree(x) && s <= |x| && GetToken(x, s).kind == 'a'
    ensures IsWord(TextOf(x, GetToken(x, s).span))
  {
    var w := GetToken(x, s).span;
    TokenWord(x, s);
    forall i | 0 <= i < w.eq - w.q ensures WordChar(TextOf(x, w)[i]) {
      assert TextOf(x, w)[i] == x[w.q + i];
    }
  }

  ghost predicate Starts(ts: seq<Tok>, c: char) {
    ts != [] && ts[0] == Sym(c)
  }

  /** What the parser sees at `s`, by the tokens from there on. */
  lemma {:induction false} First(x: string, s: nat)
    requires NulFree(x) && s <= |x|
    ensures Skip(x, Skip(x, s)) == Skip(x, s) && GetToken(x, Skip(x, s)) == GetToken(x, s)
    ensures Toks(x, Skip(x, s)) == Toks(x, s)
    ensures Toks(x, s) == [] <==> GetToken(x, s).kind == NUL
    ensures Toks(x, s) != [] ==>
      Toks(x, s) == [AsTok(x, GetToken(x, s))] + Toks(x, GetToken(x, s).next) && s < GetToken(x, s).next
    ensures forall c :: c in {'|', '(', ')', ';', '&', '<'} ==> (At(x, Skip(x, s)) == c <==> Starts(Toks(x, s), c))
    ensures At(x, Skip(x, s)) == '>' <==> Starts(Toks(x, s), '>') || Starts(Toks(x, s), '+')
  {
    SkipStays(x, Skip(x, s));
  }

  /** The token at `s` is `t`, and `rest` follows. */
  lemma {:induction false} Take(x: string, s: nat, t: Tok, rest: seq<Tok>)
    requires NulFree(x) && s <= |x| && Toks(x, s) == [t] + rest
    ensures var k := GetToken(x, s);
      && k.kind != NUL && k.next <= |x| && Toks(x, k.next) == rest && GetToken(x, Skip(x, s)) == k
      && (t.Word? ==> k.kind == 'a' && TextOf(x, k.span) == t.w) && (t.Sym? ==> k.kind == t.c && k.kind != 'a')
  {
    First(x, s);
    var k := GetToken(x, s);
    assert Toks(x, k.next) == ([AsTok(x, k)] + Toks(x, k.next))[1..] == ([t] + rest)[1..] == rest;
  }

  lemma {:induction false} Finished(x: string, s: nat)
    requires NulFree(x) && s <= |x| && Toks(x, s) == []
    ensures Skip(x, s) == |x| && GetToken(x, s).next == |x| && Toks(x, |x|) == []
  {
  }

  ghost predicate OpNext(ts: seq<Tok>) {
    Starts(ts, '<') || Starts(ts, '>') || Starts(ts, '+')
  }

  /** What can follow a command. */
  ghost predicate Ender(ts: seq<Tok>) {
    ts == [] || Starts(ts, '|') || Starts(ts, ')') || Starts(ts, '&') || Starts(ts, ';')
  }

  // Redirections

  ghost predicate SameTo(x: string, r: Redirect, i: Item) {
    i.To? && TextOf(x, r.file) == i.file && r.mode == OpenMode(i.op) && r.fd == Descriptor(i.op)
  }

  ghost predicate SameTos(x: string, rs: seq<Redirect>, tos: seq<Item>) {
    |rs| == |tos| && forall i :: 0 <= i < |rs| ==> SameTo(x, rs[i], tos[i])
  }

  lemma {:induction false} WrapMeans(x: string, c: Cmd, rs: seq<Redirect>, tos: seq<Item>)
    requires SameTos(x, rs, tos)
    ensures Resolve(x, Wrap(c, rs)) == Under(Resolve(x, c), tos)
    decreases |rs|
  {
    if rs != [] {
      assert SameTo(x, rs[0], tos[0]);
      WrapMeans(x, Redir(c, rs[0]), rs[1..], tos[1..]);
    }
  }

  lemma {:induction false} NoRedir(x: string, s: nat)
    requires NulFree(x) && s <= |x| && !OpNext(Toks(x, s))
    ensures ParseRedirs(x, s) == Redirects([], Skip(x, s)) && Toks(x, Skip(x, s)) == Toks(x, s)
  {
    First(x, s);
  }

  lemma {:induction false} OneRedir(x: string, s: nat, k: Token, f: Token)
    requires NulFree(x) && s <= |x| && OpNext(Toks(x, s)) && k == GetToken(x, s) && f == GetToken(x, k.next)
    ensures s < k.next <= f.next <= |x| && k.kind in {'<', '>', '+'}
    ensures ParseRedirs(x, s).Redirects? <==> f.kind == 'a' && ParseRedirs(x, f.next).Redirects?
    ensures ParseRedirs(x, s).Redirects? ==>
      && ParseRedirs(x, s).s == ParseRedirs(x, f.next).s
      && ParseRedirs(x, s).rs == [Redirect(f.span, OpenMode(k.kind), Descriptor(k.kind))] + ParseRedirs(x, f.next).rs
  {
    First(x, s);
  }

  lemma {:induction false} OneMore(x: string, r: Redirect, rs: seq<Redirect>, i: Item, tos: seq<Item>)
    requires SameTo(x, r, i) && SameTos(x, rs, tos)
    ensures SameTos(x, [r] + rs, [i] + tos)
  {
  }

  lemma {:induction false} RedirsRead(x: string, s: nat, tos: seq<Item>, rest: seq<Tok>)
    requires NulFree(x) && s <= |x| && OnlyTos(tos) && Toks(x, s) == ItemsToks(tos) + rest && !OpNext(rest)
    ensures var r := ParseRedirs(x, s); r.Redirects? && Toks(x, r.s) == rest && SameTos(x, r.rs, tos)
    decreases |tos|
  {
    if tos == [] {
      NoRedir(x, s);
    } else {
      var k, f := RedirToks(x, s, tos, rest);
      OneRedir(x, s, k, f);
      RedirsRead(x, f.next, tos[1..], rest);
      OneMore(x, Redirect(f.span, OpenMode(k.kind), Descriptor(k.kind)), ParseRedirs(x, f.next).rs, tos[0], tos[1..]);
      assert tos == [tos[0]] + tos[1..];
    }
  }

  lemma {:induction false} RedirToks(x: string, s: nat, tos: seq<Item>, rest: seq<Tok>) returns (k: Token, f: Token)
    requires NulFree(x) && s <= |x| && OnlyTos(tos) && tos != [] && Toks(x, s) == ItemsToks(tos) + rest
    ensures k == GetToken(x, s) && f == GetToken(x, k.next) && k.kind == tos[0].op && OpNext(Toks(x, s))
    ensures f.kind == 'a' && TextOf(x, f.span) == tos[0].file && Toks(x, f.next) == ItemsToks(tos[1..]) + rest
  {
    var op, file, more := Sym(tos[0].op), Word(tos[0].file), ItemsToks(tos[1..]) + rest;
    TwoFirst(op, file, ItemsToks(tos[1..]), rest);
    Take(x, s, op, [file] + more);
    k := GetToken(x, s);
    Take(x, k.next, file, more);
    f := GetToken(x, k.next);
  }

  lemma {:induction false} RedirsFrom(x: string, s: nat) returns (tos: seq<Item>)
    requires NulFree(x) && s <= |x| && ParseRedirs(x, s).Redirects?
    ensures OnlyTos(tos) && Toks(x, s) == ItemsToks(tos) + Toks(x, ParseRedirs(x, s).s)
    ensures SameTos(x, ParseRedirs(x, s).rs, tos)
    decreases |x| - s
  {
    tos := [];
    if OpNext(Toks(x, s)) {
      var k := GetToken(x, s);
      var f := GetToken(x, k.next);
      OneRedir(x, s, k, f);
      WordText(x, k.next);
      var more := RedirsFrom(x, f.next);
      var to := To(k.kind, TextOf(x, f.span));
      tos := [to] + more;
      OneMore(x, Redirect(f.span, OpenMode(k.kind), Descriptor(k.kind)), ParseRedirs(x, f.next).rs, to, more);
      RedirsToks(x, s, to, more, Toks(x, ParseRedirs(x, s).s));
    } else {
      NoRedir(x, s);
    }
  }

  lemma {:induction false} RedirsToks(x: string, s: nat, to: Item, tos: seq<Item>, rest: seq<Tok>)
    requires NulFree(x) && s <= |x| && OpNext(Toks(x, s)) && OnlyTos(tos) && ItemOk(to) && to.To?
    requires var k := GetToken(x, s);
      var f := GetToken(x, k.next);
      f.kind == 'a' && to == To(k.kind, TextOf(x, f.span)) && Toks(x, f.next) == ItemsToks(tos) + rest
    ensures OnlyTos([to] + tos) && Toks(x, s) == ItemsToks([to] + tos) + rest
  {
    First(x, s);
    First(x, GetToken(x, s).next);
    assert ([to] + tos)[1..] == tos;
    TwoFirst(Sym(to.op), Word(to.file), ItemsToks(tos), rest);
  }

  // Words and redirections

  /** The redirections up to the next word. */
  function Run(items: seq<Item>): (n: nat)
    ensures n <= |items| && (forall i :: 0 <= i < n ==> items[i].To?) && (n < |items| ==> items[n].Arg?)
  {
    if items == [] || items[0].Arg? then 0 else Run(items[1..]) + 1
  }

  lemma {:induction false} SplitToks(a: seq<Item>, b: seq<Item>)
    ensures ItemsToks(a + b) == ItemsToks(a) + ItemsToks(b)
  {
    if a == [] {
      assert a + b == b;
    } else {
      assert (a + b)[1..] == a[1..] + b;
      SplitToks(a[1..], b);
      Assoc(ItemToks(a[0]), ItemsToks(a[1..]), ItemsToks(b));
    }
  }

  lemma {:induction false} SplitArgs(a: seq<Item>, b: seq<Item>)
    ensures Args(a + b) == Args(a) + Args(b)
  {
    if a == [] {
      assert a + b == b;
    } else {
      assert (a + b)[1..] == a[1..] + b;
      SplitArgs(a[1..], b);
      Assoc(if a[0].Arg? then [a[0].w] else [], Args(a[1..]), Args(b));
    }
  }

  lemma {:induction false} SplitTos(a: seq<Item>, b: seq<Item>)
    ensures Tos(a + b) == Tos(a) + Tos(b)
  {
    if a == [] {
      assert a + b == b;
    } else {
      assert (a + b)[1..] == a[1..] + b;
      SplitTos(a[1..], b);
      Assoc(if a[0].To? then [a[0]] else [], Tos(a[1..]), Tos(b));
    }
  }

  lemma {:induction false} Split(a: seq<Item>, b: seq<Item>)
    ensures ItemsToks(a + b) == ItemsToks(a) + ItemsToks(b)
    ensures Args(a + b) == Args(a) + Args(b) && Tos(a + b) == Tos(a) + Tos(b)
  {
    SplitToks(a, b);
    SplitArgs(a, b);
    SplitTos(a, b);
  }

  lemma {:induction false} AllTos(tos: seq<Item>)
    requires forall i :: 0 <= i < |tos| ==> tos[i].To?
    ensures Args(tos) == [] && Tos(tos) == tos
  {
    if tos != [] {
      AllTos(tos[1..]);
    }
  }

  lemma {:induction false} NoOp(items: seq<Item>, rest: seq<Tok>)
    requires (items != [] ==> items[0].Arg?) && Ender(rest)
    ensures !OpNext(ItemsToks(items) + rest)
  {
    if items == [] {
      assert ItemsToks(items) + rest == rest;
    } else {
      assert (ItemsToks(items) + rest)[0] == Word(items[0].w);
    }
  }

  /** The redirections in front, and the rest. */
  lemma {:induction false} Front(items: seq<Item>, rest: seq<Tok>) returns (tos: seq<Item>, more: seq<Item>)
    requires ItemsOk(items) && Ender(rest)
    ensures OnlyTos(tos) && ItemsOk(more) && (more != [] ==> more[0].Arg?)
    ensures ItemsToks(items) + rest == ItemsToks(tos) + (ItemsToks(more) + rest) && !OpNext(ItemsToks(more) + rest)
    ensures Args(items) == Args(more) && Tos(items) == tos + Tos(more) && |more| <= |items|
  {
    var n := Run(items);
    tos, more := items[..n], items[n..];
    assert items == tos + more;
    Split(tos, more);
    AllTos(tos);
    NoOp(more, rest);
    Assoc(ItemsToks(tos), ItemsToks(more), rest);
  }

  lemma {:induction false} WordsOfPush(x: string, argv: seq<Span>, w: Span)
    ensures WordsOf(x, argv + [w]) == WordsOf(x, argv) + [TextOf(x, w)]
  {
    assert (argv + [w])[..|argv|] == argv;
  }

  /** A parse result stands for `t` and ends where `rest` begins. */
  ghost predicate Reads(x: string, r: Parsed, t: Tree, rest: seq<Tok>)
    requires NulFree(x)
  {
    r.Ok? && r.s <= |x| && Toks(x, r.s) == rest && Resolve(x, r.cmd) == t
  }

  /** One word and the redirections behind it. */
  lemma {:induction false} ArgsStep(x: string, s: nat, argv: seq<Span>, rs: seq<Redirect>, k: Token)
    requires NulFree(x) && s <= |x| && !Ender(Toks(x, s)) && k == GetToken(x, s)
    ensures s < k.next <= |x| && Toks(x, s) == [AsTok(x, k)] + Toks(x, k.next)
    ensures ParseArgs(x, s, argv, rs).Ok? ==> k.kind == 'a' && |argv| <= 8 && ParseRedirs(x, k.next).Redirects?
    ensures k.kind == 'a' && |argv| <= 8 && ParseRedirs(x, k.next).Redirects? ==>
      var r := ParseRedirs(x, k.next); ParseArgs(x, s, argv, rs) == ParseArgs(x, r.s, argv + [k.span], rs + r.rs)
  {
    First(x, s);
  }

  /** Words and redirections still to be read, and what has been read: `words` and `tos` in all. */
  ghost predicate Left(x: string, items: seq<Item>, argv: seq<Span>, rs: seq<Redirect>, done: seq<Item>,
      words: seq<string>, tos: seq<Item>) {
    && |words| <= 9 && words == WordsOf(x, argv) + Args(items)
    && SameTos(x, rs, done) && tos == done + Tos(items)
  }

  lemma {:induction false} LeftNext(x: string, items: seq<Item>, argv: seq<Span>, rs: seq<Redirect>, done: seq<Item>,
      words: seq<string>, tos: seq<Item>, w: Span, some: seq<Redirect>, front: seq<Item>, more: seq<Item>)
    requires Args(items) == [TextOf(x, w)] + Args(more) && Tos(items) == front + Tos(more) && SameTos(x, some, front)
    requires Left(x, items, argv, rs, done, words, tos)
    ensures Left(x, more, argv + [w], rs + some, done + front, words, tos)
  {
    WordsOfPush(x, argv, w);
    Assoc(WordsOf(x, argv), [TextOf(x, w)], Args(more));
    Assoc(done, front, Tos(more));
    SameTosOn(x, rs, done, some, front);
  }

  lemma {:induction false} ArgsRead(x: string, s: nat, items: seq<Item>, argv: seq<Span>, rs: seq<Redirect>,
      done: seq<Item>, words: seq<string>, tos: seq<Item>, rest: seq<Tok>, r: Parsed)
    requires NulFree(x) && s <= |x| && ItemsOk(items) && (items != [] ==> items[0].Arg?) && Ender(rest)
    requires Left(x, items, argv, rs, done, words, tos) && Toks(x, s) == ItemsToks(items) + rest
    requires r == ParseArgs(x, s, argv, rs)
    ensures Reads(x, r, Under(Simple(words), tos), rest)
    decreases |items|
  {
    if items == [] {
      assert Toks(x, s) == rest;
      assert done + [] == done && WordsOf(x, argv) + [] == WordsOf(x, argv);
      ArgsDone(x, s, argv, rs, tos, r);
    } else {
      var k := ArgTok(x, s, items, rest);
      var front, more := ArgToks(x, k.next, items, rest);
      var some := ParseRedirs(x, k.next);
      LeftNext(x, items, argv, rs, done, words, tos, k.span, some.rs, front, more);
      ArgsStep(x, s, argv, rs, k);
      ArgsRead(x, some.s, more, argv + [k.span], rs + some.rs, done + front, words, tos, rest, r);
    }
  }

  lemma {:induction false} ArgTok(x: string, s: nat, items: seq<Item>, rest: seq<Tok>) returns (k: Token)
    requires NulFree(x) && s <= |x| && items != [] && items[0].Arg? && Toks(x, s) == ItemsToks(items) + rest
    ensures k == GetToken(x, s) && k.kind == 'a' && !Ender(Toks(x, s)) && TextOf(x, k.span) == items[0].w
    ensures Toks(x, k.next) == ItemsToks(items[1..]) + rest
  {
    var w, others := Word(items[0].w), ItemsToks(items[1..]) + rest;
    Assoc([w], ItemsToks(items[1..]), rest);
    Take(x, s, w, others);
    k := GetToken(x, s);
  }

  lemma {:induction false} ArgToks(x: string, s: nat, items: seq<Item>, rest: seq<Tok>)
    returns (front: seq<Item>, more: seq<Item>)
    requires NulFree(x) && s <= |x| && ItemsOk(items) && items != [] && items[0].Arg? && Ender(rest)
    requires Toks(x, s) == ItemsToks(items[1..]) + rest
    ensures var r := ParseRedirs(x, s);
      r.Redirects? && r.s <= |x| && Toks(x, r.s) == ItemsToks(more) + rest && SameTos(x, r.rs, front)
    ensures ItemsOk(more) && |more| < |items| && (more != [] ==> more[0].Arg?)
    ensures Args(items) == [items[0].w] + Args(more) && Tos(items) == front + Tos(more)
  {
    front, more := Front(items[1..], rest);
    RedirsRead(x, s, front, ItemsToks(more) + rest);
  }

  lemma {:induction false} ArgsDone(x: string, s: nat, argv: seq<Span>, rs: seq<Redirect>, tos: seq<Item>, r: Parsed)
    requires NulFree(x) && s <= |x| && Ender(Toks(x, s)) && SameTos(x, rs, tos) && r == ParseArgs(x, s, argv, rs)
    ensures Reads(x, r, Under(Simple(WordsOf(x, argv)), tos), Toks(x, s))
  {
    First(x, s);
    WrapMeans(x, Exec(argv), rs, tos);
    if Toks(x, s) == [] {
      Finished(x, s);
    }
  }

  /** What has been read, in terms of the words and redirections found. */
  ghost predicate Found(x: string, s: nat, items: seq<Item>, argv: seq<Span>, rs: seq<Redirect>, tos: seq<Item>,
      r: Parsed)
    requires NulFree(x) && s <= |x|
  {
    && ItemsOk(items) && |argv| + |Args(items)| <= 9
    && r.Ok? && r.s <= |x| && Toks(x, s) == ItemsToks(items) + Toks(x, r.s)
    && Resolve(x, r.cmd) == Under(Simple(WordsOf(x, argv) + Args(items)), tos + Tos(items))
  }

  lemma {:induction false} ArgsFrom(x: string, s: nat, argv: seq<Span>, rs: seq<Redirect>, tos: seq<Item>, r: Parsed)
    returns (items: seq<Item>)
    requires NulFree(x) && s <= |x| && |argv| <= 9 && SameTos(x, rs, tos) && r == ParseArgs(x, s, argv, rs) && r.Ok?
    ensures Found(x, s, items, argv, rs, tos, r)
    decreases |x| - s
  {
    if Ender(Toks(x, s)) {
      items := [];
      assert WordsOf(x, argv) + [] == WordsOf(x, argv) && tos + [] == tos;
      ArgsDone(x, s, argv, rs, tos, r);
    } else {
      var k := GetToken(x, s);
      ArgsStep(x, s, argv, rs, k);
      WordText(x, s);
      var front := RedirsFrom(x, k.next);
      var some := ParseRedirs(x, k.next);
      SameTosOn(x, rs, tos, some.rs, front);
      var more := ArgsFrom(x, some.s, argv + [k.span], rs + some.rs, tos + front, r);
      items := [Arg(TextOf(x, k.span))] + (front + more);
      FoundOn(x, s, argv, rs, tos, k, front, more, r);
    }
  }

  lemma {:induction false} SameTosOn(x: string, rs: seq<Redirect>, tos: seq<Item>, more: seq<Redirect>,
      others: seq<Item>)
    requires SameTos(x, rs, tos) && SameTos(x, more, others)
    ensures SameTos(x, rs + more, tos + others)
  {
  }

  lemma {:induction false} FoundOn(x: string, s: nat, argv: seq<Span>, rs: seq<Redirect>, tos: seq<Item>, k: Token,
      front: seq<Item>, more: seq<Item>, r: Parsed)
    requires NulFree(x) && s <= |x| && k.next <= |x| && ParseRedirs(x, k.next).Redirects? && IsWord(TextOf(x, k.span))
    requires Toks(x, s) == [Word(TextOf(x, k.span))] + Toks(x, k.next) && OnlyTos(front)
    requires Toks(x, k.next) == ItemsToks(front) + Toks(x, ParseRedirs(x, k.next).s)
    requires var some := ParseRedirs(x, k.next);
      Found(x, some.s, more, argv + [k.span], rs + some.rs, tos + front, r)
    ensures Found(x, s, [Arg(TextOf(x, k.span))] + (front + more), argv, rs, tos, r)
  {
    var w := TextOf(x, k.span);
    var items := [Arg(w)] + (front + more);
    Joined(w, front, more);
    WordsOfPush(x, argv, k.span);
    Assoc(WordsOf(x, argv), [w], Args(more));
    Assoc(tos, front, Tos(more));
    Assoc([Word(w)], ItemsToks(front) + ItemsToks(more), Toks(x, r.s));
    Assoc(ItemsToks(front), ItemsToks(more), Toks(x, r.s));
  }

  lemma {:induction false} Joined(w: string, tos: seq<Item>, more: seq<Item>)
    requires OnlyTos(tos) && ItemsOk(more) && IsWord(w)
    ensures var items := [Arg(w)] + (tos + more);
      && ItemsOk(items) && ItemsToks(items) == [Word(w)] + (ItemsToks(tos) + ItemsToks(more))
      && Args(items) == [w] + Args(more) && Tos(items) == tos + Tos(more)
  {
    var items := [Arg(w)] + (tos + more);
    assert items[1..] == tos + more;
    Split(tos, more);
    AllTos(tos);
    assert [] + Args(more) == Args(more) && [] + Tos(tos + more) == Tos(tos + more);
  }

  // One step of each parser

  lemma {:induction false} PlainStep(x: string, s: nat)
    requires NulFree(x) && s <= |x| && !Starts(Toks(x, s), '(')
    ensures Toks(x, Skip(x, s)) == Toks(x, s)
    ensures var r := ParseRedirs(x, Skip(x, s));
      ParseExec(x, s) == if r.Redirects? then ParseArgs(x, r.s, [], r.rs) else Panic
  {
    First(x, s);
  }

  /** `l` is what is between the parentheses, and `b` comes behind them. */
  lemma {:induction false} BlockStep(x: string, s: nat, l: Parsed, b: nat)
    requires NulFree(x) && s <= |x| && Starts(Toks(x, s), '(') && l == ParseLine(x, GetToken(x, s).next)
    requires l.Ok? ==> b == GetToken(x, l.s).next
    ensures ParseExec(x, s).Ok? <==> l.Ok? && Starts(Toks(x, l.s), ')') && ParseRedirs(x, b).Redirects?
    ensures ParseExec(x, s).Ok? ==>
      ParseExec(x, s) == Ok(Wrap(l.cmd, ParseRedirs(x, b).rs), ParseRedirs(x, b).s) && s < GetToken(x, s).next
  {
    First(x, s);
    GroupStep(x, Skip(x, s), l, b);
    assert ParseExec(x, s) == ParseBlock(x, Skip(x, s));
  }

  lemma {:induction false} GroupStep(x: string, s: nat, l: Parsed, b: nat)
    requires NulFree(x) && s <= |x| && At(x, s) == '(' && l == ParseLine(x, GetToken(x, s).next)
    requires l.Ok? ==> b == GetToken(x, l.s).next
    ensures ParseGroup(x, s) == if l.Ok? && Starts(Toks(x, l.s), ')') then Ok(l.cmd, b) else Panic
  {
    if l.Ok? {
      First(x, l.s);
    }
  }

  lemma {:induction false} PipeStep(x: string, s: nat, c: Parsed)
    requires NulFree(x) && s <= |x| && c == ParseExec(x, s) && c.Ok?
    ensures !Starts(Toks(x, c.s), '|') ==> ParsePipe(x, s) == Ok(c.cmd, Skip(x, c.s))
    ensures Toks(x, Skip(x, c.s)) == Toks(x, c.s)
    ensures Starts(Toks(x, c.s), '|') ==>
      var d := ParsePipe(x, GetToken(x, c.s).next);
      ParsePipe(x, s) == (if d.Ok? then Ok(Pipe(c.cmd, d.cmd), d.s) else Panic) && c.s < GetToken(x, c.s).next
  {
    First(x, c.s);
  }

  lemma {:induction false} BacksStep(x: string, s: nat, c: Cmd)
    requires NulFree(x) && s <= |x|
    ensures !Starts(Toks(x, s), '&') ==> ParseBacks(x, s, c) == Ok(c, Skip(x, s)) && Toks(x, Skip(x, s)) == Toks(x, s)
    ensures Starts(Toks(x, s), '&') ==>
      ParseBacks(x, s, c) == ParseBacks(x, GetToken(x, s).next, Back(c)) && s < GetToken(x, s).next
  {
    First(x, s);
  }

  lemma {:induction false} LineStep(x: string, s: nat, c: Parsed, b: Parsed)
    requires NulFree(x) && s <= |x| && c == ParsePipe(x, s) && c.Ok? && b == ParseBacks(x, c.s, c.cmd)
    ensures !Starts(Toks(x, b.s), ';') ==> ParseLine(x, s) == Ok(b.cmd, Skip(x, b.s))
    ensures Toks(x, Skip(x, b.s)) == Toks(x, b.s)
    ensures Starts(Toks(x, b.s), ';') ==>
      var d := ParseLine(x, GetToken(x, b.s).next);
      ParseLine(x, s) == (if d.Ok? then Ok(List(b.cmd, d.cmd), d.s) else Panic) && b.s < GetToken(x, b.s).next
  {
    First(x, b.s);
  }

  // Every line of the syntax is accepted

  lemma {:induction false} PlainRead(x: string, s: nat, items: seq<Item>, rest: seq<Tok>)
    requires NulFree(x) && s <= |x| && ItemsOk(items) && |Args(items)| <= 9 && Ender(rest)
    requires Toks(x, s) == ItemsToks(items) + rest
    ensures Reads(x, ParseExec(x, s), Under(Simple(Args(items)), Tos(items)), rest)
  {
    NoParen(items, rest);
    PlainStep(x, s);
    var front, more := Front(items, rest);
    RedirsRead(x, Skip(x, s), front, ItemsToks(more) + rest);
    var r := ParseRedirs(x, Skip(x, s));
    assert WordsOf(x, []) + Args(more) == Args(items);
    ArgsRead(x, r.s, more, [], r.rs, front, Args(items), Tos(items), rest, ParseArgs(x, r.s, [], r.rs));
  }

  lemma {:induction false} NoParen(items: seq<Item>, rest: seq<Tok>)
    requires ItemsOk(items) && Ender(rest)
    ensures !Starts(ItemsToks(items) + rest, '(')
  {
    if items == [] {
      assert ItemsToks(items) + rest == rest;
    } else {
      assert (ItemsToks(items) + rest)[0] == ItemToks(items[0])[0];
    }
  }

  lemma {:induction false} CommandRead(x: string, s: nat, c: Command, rest: seq<Tok>)
    requires NulFree(x) && s <= |x| && CommandOk(c) && Ender(rest) && Toks(x, s) == CommandToks(c) + rest
    ensures Reads(x, ParseExec(x, s), CommandMeans(c), rest)
    decreases c
  {
    match c
    case Plain(items) => PlainRead(x, s, items, rest);
    case Group(line, after) =>
      var closed := [Sym(')')] + (ItemsToks(after) + rest);
      GroupToks(line, after, rest);
      Take(x, s, Sym('('), LineToks(line) + closed);
      LineRead(x, GetToken(x, s).next, line, closed);
      GroupRead(x, s, ParseLine(x, GetToken(x, s).next), line, after, rest);
  }

  lemma {:induction false} GroupToks(line: Line, after: seq<Item>, rest: seq<Tok>)
    ensures CommandToks(Group(line, after)) + rest ==
      [Sym('(')] + (LineToks(line) + ([Sym(')')] + (ItemsToks(after) + rest)))
  {
  }

  lemma {:induction false} GroupRead(x: string, s: nat, l: Parsed, line: Line, after: seq<Item>, rest: seq<Tok>)
    requires NulFree(x) && s <= |x| && Starts(Toks(x, s), '(') && l == ParseLine(x, GetToken(x, s).next)
    requires OnlyTos(after) && Ender(rest) && Reads(x, l, LineMeans(line), [Sym(')')] + (ItemsToks(after) + rest))
    ensures Reads(x, ParseExec(x, s), Under(LineMeans(line), after), rest)
  {
    Take(x, l.s, Sym(')'), ItemsToks(after) + rest);
    var b := GetToken(x, l.s).next;
    RedirsRead(x, b, after, rest);
    BlockStep(x, s, l, b);
    WrapMeans(x, l.cmd, ParseRedirs(x, b).rs, after);
  }

  lemma {:induction false} PipeRead(x: string, s: nat, p: Pipeline, rest: seq<Tok>)
    requires NulFree(x) && s <= |x| && PipeOk(p) && Ender(rest) && !Starts(rest, '|')
    requires Toks(x, s) == PipeToks(p) + rest
    ensures Reads(x, ParsePipe(x, s), PipeMeans(p), rest)
    decreases p, 0
  {
    match p
    case Last(c) =>
      CommandRead(x, s, c, rest);
      PipeStep(x, s, ParseExec(x, s));
    case Into(c, more) =>
      var others := [Sym('|')] + (PipeToks(more) + rest);
      Chained(CommandToks(c), Sym('|'), PipeToks(more), rest);
      CommandRead(x, s, c, others);
      var r := ParseExec(x, s);
      Take(x, r.s, Sym('|'), PipeToks(more) + rest);
      PipeRead(x, GetToken(x, r.s).next, more, rest);
      PipeStep(x, s, r);
  }

  lemma {:induction false} BacksRead(x: string, s: nat, c: Cmd, n: nat, rest: seq<Tok>)
    requires NulFree(x) && s <= |x| && !Starts(rest, '&') && Toks(x, s) == Amps(n) + rest
    ensures Reads(x, ParseBacks(x, s, c), InBackground(Resolve(x, c), n), rest)
    decreases n
  {
    BacksStep(x, s, c);
    if n == 0 {
      assert Toks(x, s) == rest;
    } else {
      assert Toks(x, s) == [Sym('&')] + (Amps(n - 1) + rest);
      Take(x, s, Sym('&'), Amps(n - 1) + rest);
      BacksRead(x, GetToken(x, s).next, Back(c), n - 1, rest);
    }
  }

  lemma {:induction false} AmpsEnd(n: nat, rest: seq<Tok>)
    requires Ender(rest) && !Starts(rest, '|')
    ensures Ender(Amps(n) + rest) && !Starts(Amps(n) + rest, '|')
  {
    if n == 0 {
      assert Amps(n) + rest == rest;
    } else {
      assert (Amps(n) + rest)[0] == Sym('&');
    }
  }

  /** A pipeline and its ampersands. */
  lemma {:induction false} BackedRead(x: string, s: nat, p: Pipeline, n: nat, rest: seq<Tok>)
    requires NulFree(x) && s <= |x| && PipeOk(p) && Ender(rest) && !Starts(rest, '|') && !Starts(rest, '&')
    requires Toks(x, s) == PipeToks(p) + (Amps(n) + rest)
    ensures var c := ParsePipe(x, s);
      c.Ok? && Reads(x, ParseBacks(x, c.s, c.cmd), InBackground(PipeMeans(p), n), rest)
    decreases p, 1
  {
    AmpsEnd(n, rest);
    PipeRead(x, s, p, Amps(n) + rest);
    var c := ParsePipe(x, s);
    BacksRead(x, c.s, c.cmd, n, rest);
  }

  lemma {:induction false} LineRead(x: string, s: nat, l: Line, rest: seq<Tok>)
    requires NulFree(x) && s <= |x| && LineOk(l) && (rest == [] || Starts(rest, ')'))
    requires Toks(x, s) == LineToks(l) + rest
    ensures Reads(x, ParseLine(x, s), LineMeans(l), rest)
    decreases l
  {
    var after := Behind(l, rest);
    BackedRead(x, s, l.p, l.amps, after);
    var c := ParsePipe(x, s);
    var b := ParseBacks(x, c.s, c.cmd);
    if l.Next? {
      Take(x, b.s, Sym(';'), LineToks(l.rest) + rest);
      LineRead(x, GetToken(x, b.s).next, l.rest, rest);
      NextRead(x, s, c, b, ParseLine(x, GetToken(x, b.s).next), LineMeans(l.rest), rest);
    } else {
      LineStep(x, s, c, b);
    }
  }

  lemma {:induction false} NextRead(x: string, s: nat, c: Parsed, b: Parsed, d: Parsed, t: Tree, rest: seq<Tok>)
    requires NulFree(x) && s <= |x| && c == ParsePipe(x, s) && c.Ok? && b == ParseBacks(x, c.s, c.cmd)
    requires Starts(Toks(x, b.s), ';') && d == ParseLine(x, GetToken(x, b.s).next) && Reads(x, d, t, rest)
    ensures Reads(x, ParseLine(x, s), Listed(Resolve(x, b.cmd), t), rest)
  {
    LineStep(x, s, c, b);
  }

  /** What follows the pipeline of a line and its ampersands. */
  lemma {:induction false} Behind(l: Line, rest: seq<Tok>) returns (after: seq<Tok>)
    requires rest == [] || Starts(rest, ')')
    ensures after == if l.End? then rest else [Sym(';')] + (LineToks(l.rest) + rest)
    ensures LineToks(l) + rest == PipeToks(l.p) + (Amps(l.amps) + after)
    ensures Ender(after) && !Starts(after, '|') && !Starts(after, '&') && (Starts(after, ';') <==> l.Next?)
  {
    after := if l.End? then rest else [Sym(';')] + (LineToks(l.rest) + rest);
  }

  // Nothing else is

  /** From `s` on stand `ts`, and the parse result stands for `t`. */
  ghost predicate Meets(x: string, s: nat, r: Parsed, ts: seq<Tok>, t: Tree)
    requires NulFree(x) && s <= |x|
  {
    r.Ok? && r.s <= |x| && Toks(x, s) == ts + Toks(x, r.s) && Resolve(x, r.cmd) == t
  }

  lemma {:induction false} PlainFrom(x: string, s: nat) returns (items: seq<Item>)
    requires NulFree(x) && s <= |x| && !Starts(Toks(x, s), '(') && ParseExec(x, s).Ok?
    ensures CommandOk(Plain(items))
    ensures Meets(x, s, ParseExec(x, s), ItemsToks(items), Under(Simple(Args(items)), Tos(items)))
  {
    PlainStep(x, s);
    var front := RedirsFrom(x, Skip(x, s));
    var r := ParseRedirs(x, Skip(x, s));
    var more := ArgsFrom(x, r.s, [], r.rs, front, ParseExec(x, s));
    items := front + more;
    Split(front, more);
    AllTos(front);
    Assoc(ItemsToks(front), ItemsToks(more), Toks(x, ParseExec(x, s).s));
    assert WordsOf(x, []) + Args(more) == Args(items);
  }

  lemma {:induction false} CommandFrom(x: string, s: nat) returns (c: Command)
    requires NulFree(x) && s <= |x| && ParseExec(x, s).Ok?
    ensures CommandOk(c) && Meets(x, s, ParseExec(x, s), CommandToks(c), CommandMeans(c))
    decreases |x| - s, 0
  {
    if Starts(Toks(x, s), '(') {
      var l := ParseLine(x, GetToken(x, s).next);
      var b := if l.Ok? then GetToken(x, l.s).next else 0;
      BlockStep(x, s, l, b);
      var line := LineFrom(x, GetToken(x, s).next);
      var after := RedirsFrom(x, b);
      c := Group(line, after);
      GroupFrom(x, s, l, b, line, after);
    } else {
      var items := PlainFrom(x, s);
      c := Plain(items);
    }
  }

  lemma {:induction false} GroupFrom(x: string, s: nat, l: Parsed, b: nat, line: Line, after: seq<Item>)
    requires NulFree(x) && s <= |x| && Starts(Toks(x, s), '(') && l == ParseLine(x, GetToken(x, s).next)
    requires l.Ok? && b == GetToken(x, l.s).next && ParseExec(x, s).Ok? && OnlyTos(after)
    requires Meets(x, GetToken(x, s).next, l, LineToks(line), LineMeans(line))
    requires ParseRedirs(x, b).Redirects? && SameTos(x, ParseRedirs(x, b).rs, after)
    requires Toks(x, b) == ItemsToks(after) + Toks(x, ParseRedirs(x, b).s)
    ensures Meets(x, s, ParseExec(x, s), CommandToks(Group(line, after)), CommandMeans(Group(line, after)))
  {
    BlockStep(x, s, l, b);
    First(x, s);
    First(x, l.s);
    WrapMeans(x, l.cmd, ParseRedirs(x, b).rs, after);
    GroupToks(line, after, Toks(x, ParseRedirs(x, b).s));
  }

  lemma {:induction false} PipeFrom(x: string, s: nat) returns (p: Pipeline)
    requires NulFree(x) && s <= |x| && ParsePipe(x, s).Ok?
    ensures PipeOk(p) && Meets(x, s, ParsePipe(x, s), PipeToks(p), PipeMeans(p))
    decreases |x| - s, 1
  {
    var c := CommandFrom(x, s);
    var r := ParseExec(x, s);
    PipeStep(x, s, r);
    if Starts(Toks(x, r.s), '|') {
      var next := GetToken(x, r.s).next;
      var rest := PipeFrom(x, next);
      p := Into(c, rest);
      First(x, r.s);
      var end := Toks(x, ParsePipe(x, s).s);
      Chained(CommandToks(c), Sym('|'), PipeToks(rest), end);
    } else {
      p := Last(c);
    }
  }

  lemma {:induction false} BacksFrom(x: string, s: nat, c: Cmd) returns (n: nat)
    requires NulFree(x) && s <= |x|
    ensures Meets(x, s, ParseBacks(x, s, c), Amps(n), InBackground(Resolve(x, c), n))
    decreases |x| - s
  {
    BacksStep(x, s, c);
    n := 0;
    if Starts(Toks(x, s), '&') {
      First(x, s);
      var m := BacksFrom(x, GetToken(x, s).next, Back(c));
      n := m + 1;
      Assoc([Sym('&')], Amps(m), Toks(x, ParseBacks(x, s, c).s));
    }
  }

  lemma {:induction false} LineFrom(x: string, s: nat) returns (l: Line)
    requires NulFree(x) && s <= |x| && ParseLine(x, s).Ok?
    ensures LineOk(l) && Meets(x, s, ParseLine(x, s), LineToks(l), LineMeans(l))
    decreases |x| - s, 2
  {
    var p, n, c, b := BackedFrom(x, s);
    LineStep(x, s, c, b);
    if Starts(Toks(x, b.s), ';') {
      var rest := LineFrom(x, GetToken(x, b.s).next);
      l := Next(p, n, rest);
      NextFrom(x, s, c, b, ParseLine(x, GetToken(x, b.s).next), p, n, rest);
    } else {
      l := End(p, n);
      EndFrom(x, s, c, b, p, n);
    }
  }

  lemma {:induction false} EndFrom(x: string, s: nat, c: Parsed, b: Parsed, p: Pipeline, n: nat)
    requires NulFree(x) && s <= |x| && c == ParsePipe(x, s) && c.Ok? && b == ParseBacks(x, c.s, c.cmd)
    requires !Starts(Toks(x, b.s), ';') && Meets(x, s, b, PipeToks(p) + Amps(n), InBackground(PipeMeans(p), n))
    ensures Meets(x, s, ParseLine(x, s), LineToks(End(p, n)), LineMeans(End(p, n)))
  {
    LineStep(x, s, c, b);
  }

  lemma {:induction false} NextFrom(x: string, s: nat, c: Parsed, b: Parsed, d: Parsed, p: Pipeline, n: nat, rest: Line)
    requires NulFree(x) && s <= |x| && c == ParsePipe(x, s) && c.Ok? && b == ParseBacks(x, c.s, c.cmd)
    requires Starts(Toks(x, b.s), ';') && Meets(x, s, b, PipeToks(p) + Amps(n), InBackground(PipeMeans(p), n))
    requires d == ParseLine(x, GetToken(x, b.s).next)
    requires Meets(x, GetToken(x, b.s).next, d, LineToks(rest), LineMeans(rest))
    ensures Meets(x, s, ParseLine(x, s), LineToks(Next(p, n, rest)), LineMeans(Next(p, n, rest)))
  {
    LineStep(x, s, c, b);
    NextToks(x, s, b, p, n, rest, d.s);
  }

  lemma {:induction false} NextToks(x: string, s: nat, b: Parsed, p: Pipeline, n: nat, rest: Line, e: nat)
    requires NulFree(x) && s <= |x| && b.Ok? && b.s <= |x| && e <= |x| && Starts(Toks(x, b.s), ';')
    requires Toks(x, s) == (PipeToks(p) + Amps(n)) + Toks(x, b.s)
    requires Toks(x, GetToken(x, b.s).next) == LineToks(rest) + Toks(x, e)
    ensures Toks(x, s) == LineToks(Next(p, n, rest)) + Toks(x, e)
  {
    First(x, b.s);
    Chained(PipeToks(p) + Amps(n), Sym(';'), LineToks(rest), Toks(x, e));
    Assoc(PipeToks(p), Amps(n), [Sym(';')] + LineToks(rest));
  }

  lemma {:induction false} BackedFrom(x: string, s: nat) returns (p: Pipeline, n: nat, c: Parsed, b: Parsed)
    requires NulFree(x) && s <= |x| && ParseLine(x, s).Ok?
    ensures c == ParsePipe(x, s) && c.Ok? && b == ParseBacks(x, c.s, c.cmd) && PipeOk(p)
    ensures Meets(x, s, b, PipeToks(p) + Amps(n), InBackground(PipeMeans(p), n))
    decreases |x| - s, 2, 0
  {
    p := PipeFrom(x, s);
    c := ParsePipe(x, s);
    n := BacksFrom(x, c.s, c.cmd);
    b := ParseBacks(x, c.s, c.cmd);
    Assoc(PipeToks(p), Amps(n), Toks(x, b.s));
  }

  // The whole text

  /** `x` is written with the tokens of the line `l`. */
  ghost predicate Writes(x: string, l: Line)
    requires NulFree(x)
  {
    LineOk(l) && Tokens(x) == LineToks(l)
  }

  /** A text is accepted exactly if it is a line of the syntax, and then as that line means: the words of each
      command in order, and every redirection around it, wherever it stands. */
  lemma {:induction false} Accepts(x: string)
    requires NulFree(x)
    ensures ParseText(x).Ok? <==> exists l :: Writes(x, l)
    ensures forall l :: Writes(x, l) ==> ParseText(x).Ok? && Resolve(x, ParseText(x).cmd) == LineMeans(l)
  {
    forall l | Writes(x, l) ensures ParseText(x).Ok? && Resolve(x, ParseText(x).cmd) == LineMeans(l) {
      assert Toks(x, 0) == LineToks(l) + [];
      LineRead(x, 0, l, []);
      Finished(x, ParseLine(x, 0).s);
    }
    if ParseText(x).Ok? {
      var l := LineFrom(x, 0);
      First(x, ParseLine(x, 0).s);
      assert LineToks(l) + [] == LineToks(l);
      assert Writes(x, l);
    }
  }
}
