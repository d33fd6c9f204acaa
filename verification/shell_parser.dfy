/** The recursive descent parser of the shell (user/sh.c), which advances a cursor over
    the line. */
module ShellParser {
  import opened ShellGrammar

  class Parser {
    const text: string
    var s: nat          // the cursor, *ps

    ghost predicate Valid()
      reads this
    {
      NulFree(text) && s <= |text|
    }

    constructor (text: string)
      requires NulFree(text)
      ensures Valid() && this.text == text && s == 0
    {
      this.text := text;
      s := 0;
    }

    method SkipWhite()
      requires Valid()
      modifies this
      ensures Valid() && s == Skip(text, old(s))
    {
      while s < |text| && White(text[s])
        invariant Valid() && Skip(text, s) == Skip(text, old(s))
        decreases |text| - s
      {
        s := s + 1;
      }
    }

    method GetToken() returns (kind: char, span: Span)
      requires Valid()
      modifies this
      ensures Valid() && ShellGrammar.GetToken(text, old(s)) == Token(kind, span, s)
    {
      SkipWhite();
      var q := s;
      kind := At(text, s);
      if kind == NUL {
      } else if kind == '|' || kind == '(' || kind == ')' || kind == ';' || kind == '&' || kind == '<' {
        s := s + 1;
      } else if kind == '>' {
        s := s + 1;
        if At(text, s) == '>' {
          kind := '+';
          s := s + 1;
        }
      } else {
        kind := 'a';
        while s < |text| && !White(text[s]) && !Symbol(text[s])
          invariant Valid() && q <= s && WordEnd(text, s) == WordEnd(text, q)
          decreases |text| - s
        {
          s := s + 1;
        }
      }
      span := Span(q, s);
      SkipWhite();
    }

    /** Is the next character, after white space, one of `toks`? */
    method Peek(toks: string) returns (b: bool)
      requires Valid()
      modifies this
      ensures Valid() && s == Skip(text, old(s)) && (b <==> At(text, s) != NUL && At(text, s) in toks)
    {
      SkipWhite();
      b := At(text, s) != NUL && At(text, s) in toks;
    }

    /** The result of a parsing method: what the grammar says from the old cursor on, with
        the cursor where the grammar leaves it. */
    twostate predicate Follows(r: Parsed, spec: Parsed)
      reads this
    {
      r == spec && (r.Ok? ==> r.s == s)
    }

    /** parsecmd, before the words are cut apart. */
    method ParseWhole() returns (r: Parsed)
      requires Valid() && s == 0
      modifies this
      ensures Valid() && r == ParseText(text)
    {
      r := ParseLine();
      if r.Panic? {
        return;
      }
      var _ := Peek("");
      if s != |text| {
        return Panic;
      }
      r := Ok(r.cmd, s);
    }

    method ParseLine() returns (r: Parsed)
      requires Valid()
      modifies this
      ensures Valid() && s >= old(s) && Follows(r, ShellGrammar.ParseLine(text, old(s)))
      decreases |text| - s, 5
    {
      r := ParsePipe();
      if r.Panic? {
        return;
      }
      ghost var s1, c := s, r.cmd;
      var cmd := r.cmd;
      while true
        invariant Valid() && s1 <= s && ParseBacks(text, s, cmd) == ParseBacks(text, s1, c)
        decreases |text| - s
      {
        ghost var s2 := s;
        var more := Peek("&");
        assert At(text, s) in "&" <==> At(text, s) == '&';
        if !more {
          break;
        }
        SkipTwice(text, s2);
        var _, _ := GetToken();
        cmd := Back(cmd);
      }
      var more := Peek(";");
      assert At(text, s) in ";" <==> At(text, s) == ';';
      if more {
        var _, _ := GetToken();
        var d := ParseLine();
        return if d.Panic? then Panic else Ok(List(cmd, d.cmd), d.s);
      }
      r := Ok(cmd, s);
    }

    method ParsePipe() returns (r: Parsed)
      requires Valid()
      modifies this
      ensures Valid() && s >= old(s) && Follows(r, ShellGrammar.ParsePipe(text, old(s)))
      decreases |text| - s, 4
    {
      r := ParseExec();
      if r.Panic? {
        return;
      }
      var more := Peek("|");
      assert At(text, s) in "|" <==> At(text, s) == '|';
      if more {
        var _, _ := GetToken();
        var d := ParsePipe();
        return if d.Panic? then Panic else Ok(Pipe(r.cmd, d.cmd), d.s);
      }
      r := Ok(r.cmd, s);
    }

    /** parseredirs: wraps redirections around `cmd`, one after another. */
    method ParseRedirs(cmd: Cmd) returns (r: Parsed)
      requires Valid()
      modifies this
      ensures Valid() && s >= old(s)
      ensures match ShellGrammar.ParseRedirs(text, old(s))
              case BadRedirect => r == Panic
              case Redirects(rs, s1) => r == Ok(Wrap(cmd, rs), s1) && s == s1
    {
      var c := cmd;
      ghost var done: seq<Redirect> := [];
      while true
        invariant Valid() && old(s) <= s && c == Wrap(cmd, done)
        invariant Continues(ShellGrammar.ParseRedirs(text, old(s)), done, ShellGrammar.ParseRedirs(text, s))
        decreases |text| - s
      {
        ghost var s0 := s;
        var more := Peek("<>");
        assert At(text, s) in "<>" <==> At(text, s) == '<' || At(text, s) == '>';
        if !more {
          assert ShellGrammar.ParseRedirs(text, s0) == Redirects([], s);
          break;
        }
        var tok, _ := GetToken();
        var kind, span := GetToken();
        if kind != 'a' {
          assert ShellGrammar.ParseRedirs(text, s0) == BadRedirect;
          return Panic;
        }
        var re := Redirect(span, Mode(tok), Fd(tok));
        ContinuesNext(ShellGrammar.ParseRedirs(text, old(s)), done, ShellGrammar.ParseRedirs(text, s0), re,
            ShellGrammar.ParseRedirs(text, s));
        WrapOne(cmd, done, re);
        c := Redir(c, re);
        done := done + [re];
      }
      assert done + [] == done;
      r := Ok(c, s);
    }

    static lemma {:induction false} ContinuesNext(whole: Redirects, done: seq<Redirect>, rest: Redirects,
        re: Redirect, rest2: Redirects)
      requires Continues(whole, done, rest)
      requires rest == if rest2.BadRedirect? then BadRedirect else Redirects([re] + rest2.rs, rest2.s)
      ensures Continues(whole, done + [re], rest2)
    {
      if rest2.Redirects? {
        assert done + ([re] + rest2.rs) == (done + [re]) + rest2.rs;
      }
    }

    method ParseBlock() returns (r: Parsed)
      requires Valid() && At(text, s) == '('
      modifies this
      ensures Valid() && s >= old(s) && Follows(r, ShellGrammar.ParseBlock(text, old(s)))
      decreases |text| - s, 2
    {
      ghost var s0 := s;
      var _, _ := GetToken();
      r := ParseLine();
      if r.Panic? {
        return;
      }
      var closed := Peek(")");
      assert At(text, s) in ")" <==> At(text, s) == ')';
      if !closed {
        return Panic;
      }
      var _, _ := GetToken();
      assert ParseGroup(text, s0) == Ok(r.cmd, s);
      r := ParseRedirs(r.cmd);
    }

    method ParseExec() returns (r: Parsed)
      requires Valid()
      modifies this
      ensures Valid() && s >= old(s) && Follows(r, ShellGrammar.ParseExec(text, old(s)))
      decreases |text| - s, 3
    {
      var block := Peek("(");
      assert At(text, s) in "(" <==> At(text, s) == '(';
      if block {
        r := ParseBlock();
        return;
      }
      r := ParseRedirs(Exec([]));
      if r.Panic? {
        return;
      }
      ghost var rs := ShellGrammar.ParseRedirs(text, Skip(text, old(s))).rs;
      r := ParseWords(r.cmd, rs);
    }

    /** The loop of parseexec; the words go into the command at the bottom of `ret`, below
        the redirections found so far. */
    method ParseWords(cmd: Cmd, ghost rs0: seq<Redirect>) returns (r: Parsed)
      requires Valid() && cmd == Wrap(Exec([]), rs0)
      modifies this
      ensures Valid() && s >= old(s) && Follows(r, ParseArgs(text, old(s), [], rs0))
    {
      var argv, ret := [], cmd;
      ghost var rs := rs0;
      while true
        invariant Valid() && old(s) <= s && ret == Wrap(Exec(argv), rs)
        invariant ParseArgs(text, s, argv, rs) == ParseArgs(text, old(s), [], rs0)
        decreases |text| - s
      {
        ghost var s0 := s;
        var ends := Peek("|)&;");
        var c := At(text, s);
        assert c in "|)&;" <==> c == '|' || c == ')' || c == '&' || c == ';';
        if ends {
          break;
        }
        SkipTwice(text, s0);
        var tok, span := GetToken();
        if tok == NUL {
          break;
        }
        if tok != 'a' || |argv| + 1 >= MAXARGS {
          return Panic;
        }
        FillWrap(argv, rs, argv + [span]);
        argv := argv + [span];
        ret := Fill(ret, argv);
        ghost var more := ShellGrammar.ParseRedirs(text, s);
        r := ParseRedirs(ret);
        if r.Panic? {
          return;
        }
        WrapMore(Exec(argv), rs, more.rs);
        ret := r.cmd;
        rs := rs + more.rs;
      }
      r := Ok(ret, s);
    }

    /** `whole` is `done` followed by `rest`. */
    static ghost predicate Continues(whole: Redirects, done: seq<Redirect>, rest: Redirects) {
      if rest.BadRedirect? then whole.BadRedirect? else whole == Redirects(done + rest.rs, rest.s)
    }
  }

  lemma {:induction false} SkipTwice(t: string, s: nat)
    requires s <= |t|
    ensures Skip(t, Skip(t, s)) == Skip(t, s)
  {
  }

  lemma {:induction false} WrapOne(c: Cmd, rs: seq<Redirect>, r: Redirect)
    ensures Wrap(c, rs + [r]) == Redir(Wrap(c, rs), r)
    decreases |rs|
  {
    if rs == [] {
      assert Wrap(c, [r]) == Wrap(Redir(c, r), []);
    } else {
      assert (rs + [r])[1..] == rs[1..] + [r];
      WrapOne(Redir(c, rs[0]), rs[1..], r);
    }
  }

  lemma {:induction false} WrapMore(c: Cmd, rs: seq<Redirect>, more: seq<Redirect>)
    ensures Wrap(c, rs + more) == Wrap(Wrap(c, rs), more)
    decreases |rs|
  {
    if rs == [] {
      assert rs + more == more;
    } else {
      assert (rs + more)[1..] == rs[1..] + more;
      WrapMore(Redir(c, rs[0]), rs[1..], more);
    }
  }

  /** Sets the words of the command at the bottom of a chain of redirections. */
  function Fill(c: Cmd, argv: seq<Span>): Cmd {
    match c
    case Redir(d, r) => Redir(Fill(d, argv), r)
    case Exec(_) => Exec(argv)
    case _ => c
  }

  lemma {:induction false} FillWrap(argv: seq<Span>, rs: seq<Redirect>, more: seq<Span>)
    ensures Fill(Wrap(Exec(argv), rs), more) == Wrap(Exec(more), rs)
    decreases |rs|
  {
    if rs != [] {
      var front := rs[..|rs| - 1];
      assert rs == front + [rs[|rs| - 1]];
      WrapOne(Exec(argv), front, rs[|rs| - 1]);
      WrapOne(Exec(more), front, rs[|rs| - 1]);
      FillWrap(argv, front, more);
    }
  }
}
