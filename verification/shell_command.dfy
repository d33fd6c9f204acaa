/** parsecmd (user/sh.c) on a buffer: parsing, cutting the words apart, and what a reader of
    C strings then finds. */
module ShellCommand {
  import opened ShellGrammar
  import opened ShellParser
  import opened ShellSyntax
  import opened ShellWords

  function CStrings(b: seq<char>, argv: seq<Span>): (r: seq<string>)
    ensures |r| == |argv|
  {
    if argv == [] then [] else CStrings(b, argv[..|argv| - 1]) + [CString(b, argv[|argv| - 1].q)]
  }

  /** The command as runcmd sees it: its words are the C strings in the buffer. */
  function ReadCommand(b: seq<char>, c: Cmd): Tree {
    match c
    case Exec(argv) => Simple(CStrings(b, argv))
    case Redir(d, r) => Redirected(ReadCommand(b, d), CString(b, r.file.q), r.mode, r.fd)
    case Pipe(l, r) => Piped(ReadCommand(b, l), ReadCommand(b, r))
    case List(l, r) => Listed(ReadCommand(b, l), ReadCommand(b, r))
    case Back(d) => Background(ReadCommand(b, d))
  }

  ghost predicate ReadsAs(t: string, b: seq<char>, w: Span) {
    CString(b, w.q) == TextOf(t, w)
  }

  lemma {:induction false} ReadsWords(t: string, b: seq<char>, argv: seq<Span>)
    requires forall w :: w in argv ==> ReadsAs(t, b, w)
    ensures CStrings(b, argv) == WordsOf(t, argv)
  {
    if argv != [] {
      ReadsWords(t, b, argv[..|argv| - 1]);
      assert ReadsAs(t, b, argv[|argv| - 1]);
    }
  }

  lemma {:induction false} ReadsCommand(t: string, b: seq<char>, c: Cmd)
    requires forall w {:trigger ReadsAs(t, b, w)} :: HasWord(c, w) ==> ReadsAs(t, b, w)
    ensures ReadCommand(b, c) == Resolve(t, c)
  {
    match c
    case Exec(argv) => ReadsWords(t, b, argv);
    case Redir(d, r) =>
      assert ReadsAs(t, b, r.file);
      ReadsCommand(t, b, d);
    case Pipe(l, r) => ReadsCommand(t, b, l); ReadsCommand(t, b, r);
    case List(l, r) => ReadsCommand(t, b, l); ReadsCommand(t, b, r);
    case Back(d) => ReadsCommand(t, b, d);
  }

  /** The buffer holds `t` as a C string. */
  ghost predicate Holds(buf: array<char>, t: string)
    reads buf
  {
    NulFree(t) && |t| < buf.Length && buf[..|t|] == t && buf[|t|] == NUL
  }

  method StrLen(buf: array<char>, ghost t: string) returns (n: nat)
    requires Holds(buf, t)
    ensures n == |t|
  {
    n := 0;
    while buf[n] != NUL
      invariant n <= |t|
      decreases |t| - n
    {
      assert n < |t|;
      n := n + 1;
    }
    HoldsAt(buf, t, n);
  }

  lemma {:induction false} HoldsAt(buf: array<char>, t: string, n: nat)
    requires Holds(buf, t) && n <= |t|
    ensures buf[n] == NUL <==> n == |t|
  {
    assert n < |t| ==> buf[..|t|][n] == t[n];
  }

  /** parsecmd: stops exactly if the buffer does not hold a line of the syntax; otherwise the command, its words
      read from the buffer as C strings, is what the line means. */
  method ParseCmd(buf: array<char>, ghost t: string) returns (r: Parsed)
    requires Holds(buf, t)
    modifies buf
    ensures r == ParseText(t)
    ensures r.Ok? ==> ReadCommand(buf[..], r.cmd) == Resolve(t, r.cmd)
    ensures r.Ok? <==> exists l :: Writes(t, l)
    ensures forall l :: Writes(t, l) ==> r.Ok? && ReadCommand(buf[..], r.cmd) == LineMeans(l)
  {
    var n := StrLen(buf, t);
    var parser := new Parser(buf[..n]);
    r := parser.ParseWhole();
    if r.Ok? {
      EndsWithin(t);
      NulTerminate(buf, r.cmd);
      CutReads(t, old(buf[..]), buf[..], r.cmd);
    }
    Accepts(t);
  }

  lemma {:induction false} CutReads(t: string, was: seq<char>, b: seq<char>, c: Cmd)
    requires NulFree(t) && ParseText(t).Ok? && c == ParseText(t).cmd
    requires |b| == |was| > |t| && was[..|t|] == t && was[|t|] == NUL
    requires forall i :: 0 <= i < |b| ==> b[i] == if i in Ends(c) then NUL else was[i]
    ensures ReadCommand(b, c) == Resolve(t, c)
  {
    forall i | 0 <= i <= |t| ensures b[i] == if i in Ends(c) then NUL else At(t, i) {
      assert i < |t| ==> was[i] == was[..|t|][i];
    }
    forall w | HasWord(c, w) ensures ReadsAs(t, b, w) {
      WordsReadBack(t, b, w);
    }
    ReadsCommand(t, b, c);
  }
}
