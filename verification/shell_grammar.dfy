/** What the shell's parser computes (user/sh.c), as functions of the text and a position
    in it.  Commands refer to words by their place in the text. */
module ShellGrammar {
  const MAXARGS: nat := 10

  const O_RDONLY: nat := 0x000
  const O_WRONLY: nat := 0x001
  const O_CREATE: nat := 0x200
  const O_TRUNC: nat := 0x400

  /** The word from `q` up to `eq`. */
  datatype Span = Span(q: nat, eq: nat)

  datatype Redirect = Redirect(file: Span, mode: nat, fd: nat)

  datatype Cmd =
    | Exec(argv: seq<Span>)
    | Redir(cmd: Cmd, r: Redirect)
    | Pipe(left: Cmd, right: Cmd)
    | List(left: Cmd, right: Cmd)
    | Back(cmd: Cmd)

  /** `Panic`: the parser stops with a syntax error. */
  datatype Parsed = Ok(cmd: Cmd, s: nat) | Panic
  datatype Redirects = Redirects(rs: seq<Redirect>, s: nat) | BadRedirect

  // Characters and tokens

  const NUL: char := '\0'

  predicate White(c: char) {
    c == ' ' || c == '\t' || c == '\r' || c == '\n' || c == '\U{B}'
  }

  predicate Symbol(c: char) {
    c == '<' || c == '|' || c == '>' || c == '&' || c == ';' || c == '(' || c == ')'
  }

  predicate WordChar(c: char) {
    !White(c) && !Symbol(c) && c != NUL
  }

  /** The character at a position; the text ends with a NUL. */
  function At(t: string, s: nat): char {
    if s < |t| then t[s] else NUL
  }

  ghost predicate NulFree(t: string) {
    forall i :: 0 <= i < |t| ==> t[i] != NUL
  }

  function Skip(t: string, s: nat): (r: nat)
    requires s <= |t|
    ensures s <= r <= |t| && !White(At(t, r))
    decreases |t| - s
  {
    if s < |t| && White(t[s]) then Skip(t, s + 1) else s
  }

  function WordEnd(t: string, s: nat): (r: nat)
    requires s <= |t|
    ensures s <= r <= |t| && (s < |t| && !White(t[s]) && !Symbol(t[s]) ==> r > s)
    decreases |t| - s
  {
    if s < |t| && !White(t[s]) && !Symbol(t[s]) then WordEnd(t, s + 1) else s
  }

  /** A token: its kind ('a' for a word, '+' for >>, NUL at the end), the place of its
      text, and where the next one starts. */
  datatype Token = Token(kind: char, span: Span, next: nat)

  function TokenAt(t: string, q: nat): (char, nat)
    requires q <= |t|
  {
    var c := At(t, q);
    if c == NUL then (NUL, q)
    else if c == '|' || c == '(' || c == ')' || c == ';' || c == '&' || c == '<' then (c, q + 1)
    else if c == '>' then (if At(t, q + 1) == '>' then ('+', q + 2) else ('>', q + 1))
    else ('a', WordEnd(t, q))
  }

  function GetToken(t: string, s: nat): (k: Token)
    requires s <= |t| && NulFree(t)
    ensures s <= k.span.q <= k.span.eq <= k.next <= |t| && (k.kind != NUL ==> k.next > s)
  {
    var q := Skip(t, s);
    var (kind, end) := TokenAt(t, q);
    Token(kind, Span(q, end), Skip(t, end))
  }

  // Commands

  function Mode(kind: char): nat {
    if kind == '<' then O_RDONLY else if kind == '>' then O_WRONLY + O_CREATE + O_TRUNC else O_WRONLY + O_CREATE
  }

  function Fd(kind: char): nat {
    if kind == '<' then 0 else 1
  }

  function ParseRedirs(t: string, s: nat): (r: Redirects)
    requires s <= |t| && NulFree(t)
    ensures r.Redirects? ==> s <= r.s <= |t|
    decreases |t| - s
  {
    var s1 := Skip(t, s);
    if At(t, s1) != '<' && At(t, s1) != '>' then Redirects([], s1)
    else
      var k := GetToken(t, s1);
      var f := GetToken(t, k.next);
      if f.kind != 'a' then BadRedirect
      else
        match ParseRedirs(t, f.next)
        case BadRedirect => BadRedirect
        case Redirects(rs, s2) => Redirects([Redirect(f.span, Mode(k.kind), Fd(k.kind))] + rs, s2)
  }

  /** The first redirection is the innermost. */
  function Wrap(c: Cmd, rs: seq<Redirect>): Cmd
    decreases |rs|
  {
    if rs == [] then c else Wrap(Redir(c, rs[0]), rs[1..])
  }

  /** Words and redirections up to the end of the command. */
  function ParseArgs(t: string, s: nat, argv: seq<Span>, rs: seq<Redirect>): (r: Parsed)
    requires s <= |t| && NulFree(t)
    ensures r.Ok? ==> s <= r.s <= |t|
    decreases |t| - s
  {
    var s1 := Skip(t, s);
    var c := At(t, s1);
    if c == '|' || c == ')' || c == '&' || c == ';' then Ok(Wrap(Exec(argv), rs), s1)
    else
      var k := GetToken(t, s1);
      if k.kind == NUL then Ok(Wrap(Exec(argv), rs), k.next)
      else if k.kind != 'a' || |argv| + 1 >= MAXARGS then Panic
      else
        match ParseRedirs(t, k.next)
        case BadRedirect => Panic
        case Redirects(more, s2) => ParseArgs(t, s2, argv + [k.span], rs + more)
  }

  function ParseExec(t: string, s: nat): (r: Parsed)
    requires s <= |t| && NulFree(t)
    ensures r.Ok? ==> s <= r.s <= |t|
    decreases |t| - s, 1
  {
    var s1 := Skip(t, s);
    if At(t, s1) == '(' then ParseBlock(t, s1)
    else
      match ParseRedirs(t, s1)
      case BadRedirect => Panic
      case Redirects(rs, s2) => ParseArgs(t, s2, [], rs)
  }

  /** A command in parentheses, without what follows them. */
  function ParseGroup(t: string, s: nat): (r: Parsed)
    requires s <= |t| && NulFree(t) && At(t, s) == '('
    ensures r.Ok? ==> s <= r.s <= |t|
    decreases |t| - s, 0, 0
  {
    match ParseLine(t, GetToken(t, s).next)
    case Panic => Panic
    case Ok(c, s1) =>
      var s2 := Skip(t, s1);
      if At(t, s2) != ')' then Panic else Ok(c, GetToken(t, s2).next)
  }

  function ParseBlock(t: string, s: nat): (r: Parsed)
    requires s <= |t| && NulFree(t) && At(t, s) == '('
    ensures r.Ok? ==> s <= r.s <= |t|
    decreases |t| - s, 0, 1
  {
    match ParseGroup(t, s)
    case Panic => Panic
    case Ok(c, s1) =>
      match ParseRedirs(t, s1)
      case BadRedirect => Panic
      case Redirects(rs, s2) => Ok(Wrap(c, rs), s2)
  }

  function ParsePipe(t: string, s: nat): (r: Parsed)
    requires s <= |t| && NulFree(t)
    ensures r.Ok? ==> s <= r.s <= |t|
    decreases |t| - s, 2
  {
    match ParseExec(t, s)
    case Panic => Panic
    case Ok(c, s1) =>
      var s2 := Skip(t, s1);
      if At(t, s2) != '|' then Ok(c, s2)
      else
        match ParsePipe(t, GetToken(t, s2).next)
        case Panic => Panic
        case Ok(d, s3) => Ok(Pipe(c, d), s3)
  }

  function ParseBacks(t: string, s: nat, c: Cmd): (r: Parsed)
    requires s <= |t| && NulFree(t)
    ensures r.Ok? && s <= r.s <= |t|
    decreases |t| - s
  {
    var s1 := Skip(t, s);
    if At(t, s1) != '&' then Ok(c, s1) else ParseBacks(t, GetToken(t, s1).next, Back(c))
  }

  function ParseLine(t: string, s: nat): (r: Parsed)
    requires s <= |t| && NulFree(t)
    ensures r.Ok? ==> s <= r.s <= |t|
    decreases |t| - s, 3
  {
    match ParsePipe(t, s)
    case Panic => Panic
    case Ok(c, s1) =>
      var b := ParseBacks(t, s1, c);
      var s2 := Skip(t, b.s);
      if At(t, s2) != ';' then Ok(b.cmd, s2)
      else
        match ParseLine(t, GetToken(t, s2).next)
        case Panic => Panic
        case Ok(d, s3) => Ok(List(b.cmd, d), s3)
  }

  /** The whole text is one line. */
  function ParseText(t: string): (r: Parsed)
    requires NulFree(t)
  {
    match ParseLine(t, 0)
    case Panic => Panic
    case Ok(c, s) => if Skip(t, s) != |t| then Panic else Ok(c, |t|)
  }

  // Words of a command

  /** A maximal run of word characters. */
  ghost predicate WordAt(t: string, w: Span) {
    && w.q < w.eq <= |t| && (forall i :: w.q <= i < w.eq ==> WordChar(t[i])) && !WordChar(At(t, w.eq))
  }

  /** Every word of the command is one of the text, and the arrays of every simple command have room for
      its words and the null pointer behind them. */
  ghost predicate WordsOk(t: string, c: Cmd) {
    match c
    case Exec(argv) => |argv| < MAXARGS && forall i :: 0 <= i < |argv| ==> WordAt(t, argv[i])
    case Redir(d, r) => WordsOk(t, d) && WordAt(t, r.file)
    case Pipe(l, r) => WordsOk(t, l) && WordsOk(t, r)
    case List(l, r) => WordsOk(t, l) && WordsOk(t, r)
    case Back(d) => WordsOk(t, d)
  }
}
