/** nulterminate (user/sh.c): cutting the line into words after parsing. */
module ShellWords {
  import opened ShellGrammar

  // Every word of a parsed command is a word of the text

  lemma {:induction false} WordEndWord(t: string, q: nat, s: nat)
    requires NulFree(t) && q <= s <= |t| && forall i :: q <= i < s ==> WordChar(t[i])
    ensures forall i :: q <= i < WordEnd(t, s) ==> WordChar(t[i])
    ensures !WordChar(At(t, WordEnd(t, s)))
    decreases |t| - s
  {
    if s < |t| && !White(t[s]) && !Symbol(t[s]) {
      WordEndWord(t, q, s + 1);
    }
  }

  lemma {:induction false} TokenWord(t: string, s: nat)
    requires NulFree(t) && s <= |t| && GetToken(t, s).kind == 'a'
    ensures WordAt(t, GetToken(t, s).span)
  {
    var q := Skip(t, s);
    WordEndWord(t, q, q);
  }

  ghost predicate FilesOk(t: string, rs: seq<Redirect>) {
    forall i :: 0 <= i < |rs| ==> WordAt(t, rs[i].file)
  }

  lemma {:induction false} RedirWords(t: string, s: nat)
    requires NulFree(t) && s <= |t| && ParseRedirs(t, s).Redirects?
    ensures FilesOk(t, ParseRedirs(t, s).rs)
    decreases |t| - s
  {
    var s1 := Skip(t, s);
    if At(t, s1) == '<' || At(t, s1) == '>' {
      var k := GetToken(t, s1);
      TokenWord(t, k.next);
      RedirWords(t, GetToken(t, k.next).next);
    }
  }

  lemma {:induction false} WrapWords(t: string, c: Cmd, rs: seq<Redirect>)
    requires WordsOk(t, c) && FilesOk(t, rs)
    ensures WordsOk(t, Wrap(c, rs))
    decreases |rs|
  {
    if rs != [] {
      WrapWords(t, Redir(c, rs[0]), rs[1..]);
    }
  }

  lemma {:induction false} ArgWords(t: string, s: nat, argv: seq<Span>, rs: seq<Redirect>)
    requires NulFree(t) && s <= |t| && ParseArgs(t, s, argv, rs).Ok?
    requires |argv| < MAXARGS && (forall i :: 0 <= i < |argv| ==> WordAt(t, argv[i])) && FilesOk(t, rs)
    ensures WordsOk(t, ParseArgs(t, s, argv, rs).cmd)
    decreases |t| - s
  {
    var s1 := Skip(t, s);
    var c, k := At(t, s1), GetToken(t, s1);
    if c == '|' || c == ')' || c == '&' || c == ';' || k.kind == NUL {
      WrapWords(t, Exec(argv), rs);
    } else {
      TokenWord(t, s1);
      RedirWords(t, k.next);
      var more := ParseRedirs(t, k.next);
      ArgWords(t, more.s, argv + [k.span], rs + more.rs);
    }
  }

  lemma {:induction false} ExecWords(t: string, s: nat)
    requires NulFree(t) && s <= |t| && ParseExec(t, s).Ok?
    ensures WordsOk(t, ParseExec(t, s).cmd)
    decreases |t| - s, 1
  {
    var s1 := Skip(t, s);
    if At(t, s1) == '(' {
      BlockWords(t, s1);
    } else {
      RedirWords(t, s1);
      var rs := ParseRedirs(t, s1);
      ArgWords(t, rs.s, [], rs.rs);
    }
  }

  lemma {:induction false} BlockWords(t: string, s: nat)
    requires NulFree(t) && s <= |t| && At(t, s) == '(' && ParseBlock(t, s).Ok?
    ensures WordsOk(t, ParseBlock(t, s).cmd)
    decreases |t| - s, 0
  {
    LineWords(t, GetToken(t, s).next);
    var g := ParseGroup(t, s);
    RedirWords(t, g.s);
    WrapWords(t, g.cmd, ParseRedirs(t, g.s).rs);
  }

  lemma {:induction false} PipeWords(t: string, s: nat)
    requires NulFree(t) && s <= |t| && ParsePipe(t, s).Ok?
    ensures WordsOk(t, ParsePipe(t, s).cmd)
    decreases |t| - s, 2
  {
    ExecWords(t, s);
    var s2 := Skip(t, ParseExec(t, s).s);
    if At(t, s2) == '|' {
      PipeWords(t, GetToken(t, s2).next);
    }
  }

  lemma {:induction false} BackWords(t: string, s: nat, c: Cmd)
    requires NulFree(t) && s <= |t| && WordsOk(t, c)
    ensures WordsOk(t, ParseBacks(t, s, c).cmd)
    decreases |t| - s
  {
    var s1 := Skip(t, s);
    if At(t, s1) == '&' {
      BackWords(t, GetToken(t, s1).next, Back(c));
    }
  }

  lemma {:induction false} LineWords(t: string, s: nat)
    requires NulFree(t) && s <= |t| && ParseLine(t, s).Ok?
    ensures WordsOk(t, ParseLine(t, s).cmd)
    decreases |t| - s, 3
  {
    PipeWords(t, s);
    var p := ParsePipe(t, s);
    BackWords(t, p.s, p.cmd);
    var s2 := Skip(t, ParseBacks(t, p.s, p.cmd).s);
    if At(t, s2) == ';' {
      LineWords(t, GetToken(t, s2).next);
    }
  }

  // Cutting

  /** Where the words of a command end. */
  ghost function Ends(c: Cmd): set<nat> {
    match c
    case Exec(argv) => set i | 0 <= i < |argv| :: argv[i].eq
    case Redir(d, r) => Ends(d) + {r.file.eq}
    case Pipe(l, r) => Ends(l) + Ends(r)
    case List(l, r) => Ends(l) + Ends(r)
    case Back(d) => Ends(d)
  }

  ghost predicate Within(c: Cmd, n: nat) {
    forall e :: e in Ends(c) ==> e < n
  }

  /** Writes a NUL at the end of every word, and nowhere else. */
  method NulTerminate(buf: array<char>, cmd: Cmd)
    requires Within(cmd, buf.Length)
    modifies buf
    ensures forall i :: 0 <= i < buf.Length ==> buf[i] == if i in Ends(cmd) then NUL else old(buf[i])
  {
    match cmd
    case Exec(argv) =>
      var i := 0;
      while i < |argv|
        invariant 0 <= i <= |argv|
        invariant forall k :: 0 <= k < buf.Length ==> buf[k] == if k in Ends(Exec(argv[..i])) then NUL else old(buf[k])
      {
        assert argv[i].eq in Ends(cmd);
        EndsNext(argv, i);
        buf[argv[i].eq] := NUL;
        i := i + 1;
      }
      assert argv[..i] == argv;
    case Redir(d, r) =>
      assert Ends(cmd) == Ends(d) + {r.file.eq};
      NulTerminate(buf, d);
      buf[r.file.eq] := NUL;
    case Pipe(l, r) =>
      assert Ends(cmd) == Ends(l) + Ends(r);
      NulTerminate(buf, l);
      NulTerminate(buf, r);
    case List(l, r) =>
      assert Ends(cmd) == Ends(l) + Ends(r);
      NulTerminate(buf, l);
      NulTerminate(buf, r);
    case Back(d) =>
      assert Ends(cmd) == Ends(d);
      NulTerminate(buf, d);
  }

  lemma {:induction false} EndsNext(argv: seq<Span>, i: nat)
    requires i < |argv|
    ensures Ends(Exec(argv[..i + 1])) == Ends(Exec(argv[..i])) + {argv[i].eq}
  {
    assert forall k :: 0 <= k < i ==> argv[..i][k] == argv[..i + 1][k];
    assert argv[..i + 1][i] == argv[i];
    forall e | e in Ends(Exec(argv[..i])) + {argv[i].eq} ensures e in Ends(Exec(argv[..i + 1])) {
      if e != argv[i].eq {
        var k :| 0 <= k < i && argv[..i][k].eq == e;
        assert argv[..i + 1][k].eq == e;
      }
    }
  }

  /** The C string at `q`. */
  function CString(b: seq<char>, q: nat): string
    decreases |b| - q
  {
    if q < |b| && b[q] != NUL then [b[q]] + CString(b, q + 1) else ""
  }

  ghost predicate IsCut(t: string, c: Cmd, b: seq<char>) {
    |b| > |t| && forall i :: 0 <= i <= |t| ==> b[i] == if i in Ends(c) then NUL else At(t, i)
  }

  lemma {:induction false} EndsApart(t: string, c: Cmd, e: nat)
    requires WordsOk(t, c) && e in Ends(c)
    ensures e <= |t| && !WordChar(At(t, e))
  {
    match c
    case Exec(argv) =>
      var i :| 0 <= i < |argv| && argv[i].eq == e;
      assert WordAt(t, argv[i]);
    case Redir(d, r) => if e in Ends(d) { EndsApart(t, d, e); }
    case Pipe(l, r) => if e in Ends(l) { EndsApart(t, l, e); } else { EndsApart(t, r, e); }
    case List(l, r) => if e in Ends(l) { EndsApart(t, l, e); } else { EndsApart(t, r, e); }
    case Back(d) => EndsApart(t, d, e);
  }

  lemma {:induction false} ReadWord(t: string, c: Cmd, b: seq<char>, w: Span, q: nat)
    requires WordsOk(t, c) && IsCut(t, c, b) && WordAt(t, w) && w.eq in Ends(c) && w.q <= q <= w.eq
    ensures CString(b, q) == t[q..w.eq]
    decreases w.eq - q
  {
    if q < w.eq {
      if q in Ends(c) {
        EndsApart(t, c, q);
      }
      ReadWord(t, c, b, w, q + 1);
      assert t[q..w.eq] == [t[q]] + t[q + 1..w.eq];
    }
  }

  /** `w` is a word of the command: an argument or the file of a redirection. */
  ghost predicate HasWord(c: Cmd, w: Span) {
    match c
    case Exec(argv) => w in argv
    case Redir(d, r) => HasWord(d, w) || w == r.file
    case Pipe(l, r) => HasWord(l, w) || HasWord(r, w)
    case List(l, r) => HasWord(l, w) || HasWord(r, w)
    case Back(d) => HasWord(d, w)
  }

  lemma {:induction false} WordOf(t: string, c: Cmd, w: Span)
    requires WordsOk(t, c) && HasWord(c, w)
    ensures WordAt(t, w) && w.eq in Ends(c)
  {
    match c
    case Exec(argv) =>
      var i :| 0 <= i < |argv| && argv[i] == w;
      assert argv[i].eq in Ends(c);
    case Redir(d, r) => if HasWord(d, w) { WordOf(t, d, w); }
    case Pipe(l, r) => if HasWord(l, w) { WordOf(t, l, w); } else { WordOf(t, r, w); }
    case List(l, r) => if HasWord(l, w) { WordOf(t, l, w); } else { WordOf(t, r, w); }
    case Back(d) => WordOf(t, d, w);
  }

  lemma {:induction false} EndsWithin(t: string)
    requires NulFree(t) && ParseText(t).Ok?
    ensures Within(ParseText(t).cmd, |t| + 1)
  {
    var c := ParseText(t).cmd;
    LineWords(t, 0);
    forall e | e in Ends(c) ensures e < |t| + 1 {
      EndsApart(t, c, e);
    }
  }

  /** After parsing and cutting, each word of the command reads back as it stood in the
      line: every cut is within the line, and none falls into another word. */
  lemma {:induction false} WordsReadBack(t: string, b: seq<char>, w: Span)
    requires NulFree(t) && ParseText(t).Ok? && IsCut(t, ParseText(t).cmd, b) && HasWord(ParseText(t).cmd, w)
    ensures w.q < w.eq <= |t| && CString(b, w.q) == t[w.q..w.eq]
  {
    var c := ParseText(t).cmd;
    LineWords(t, 0);
    WordOf(t, c, w);
    ReadWord(t, c, b, w, w.q);
  }
}
