/** Writing a command line, with any white space, and parsing it again (user/sh.c). */
module ShellRoundtrip {
  import opened ShellGrammar
  import opened ShellSyntax

  // Text

  function Spell(t: Tok): string {
    match t
    case Word(w) => w
    case Sym(c) => if c == '+' then ">>" else [c]
  }

  /** The tokens, each with the white space behind it. */
  function Text(toks: seq<Tok>, gaps: seq<string>): string
    requires |gaps| == |toks|
  {
    if toks == [] then "" else Spell(toks[0]) + (gaps[0] + Text(toks[1..], gaps[1..]))
  }

  ghost predicate Blank(gap: string) {
    forall i :: 0 <= i < |gap| ==> White(gap[i])
  }

  /** Two tokens that would be read as one, or as others, without white space between them. */
  predicate Touch(t: Tok, u: Tok) {
    (t.Word? && u.Word?) || (t == Sym('>') && (u == Sym('>') || u == Sym('+')))
  }

  /** Any white space, also none, except where there must be some. */
  ghost predicate Spaced(toks: seq<Tok>, gaps: seq<string>) {
    && |gaps| == |toks| && (forall i :: 0 <= i < |gaps| ==> Blank(gaps[i]))
    && (forall i :: 0 <= i < |toks| - 1 && Touch(toks[i], toks[i + 1]) ==> gaps[i] != "")
  }

  ghost predicate TokOk(t: Tok) {
    match t
    case Word(w) => IsWord(w)
    case Sym(c) => c in {'|', '(', ')', ';', '&', '<', '>', '+'}
  }

  ghost predicate ToksOk(toks: seq<Tok>) {
    forall i :: 0 <= i < |toks| ==> TokOk(toks[i])
  }

  /** `w` stands at `s` in `x`. */
  ghost predicate Has(x: string, s: nat, w: string) {
    s + |w| <= |x| && x[s..s + |w|] == w
  }

  lemma {:induction false} HasParts(x: string, s: nat, v: string, w: string)
    requires Has(x, s, v + w)
    ensures Has(x, s, v) && Has(x, s + |v|, w)
  {
    assert x[s..s + |v|] == (v + w)[..|v|] == v;
    assert x[s + |v|..s + |v| + |w|] == (v + w)[|v|..] == w;
  }

  lemma {:induction false} HasAt(x: string, s: nat, w: string, i: nat)
    requires Has(x, s, w) && i < |w|
    ensures At(x, s + i) == w[i]
  {
    assert x[s..s + |w|][i] == w[i];
  }

  // Tokens read back

  lemma {:induction false} SkipBlank(x: string, s: nat, gap: string)
    requires Has(x, s, gap) && Blank(gap)
    ensures Skip(x, s) == Skip(x, s + |gap|)
    decreases |gap|
  {
    if gap != "" {
      HasAt(x, s, gap, 0);
      assert gap == gap[..1] + gap[1..];
      HasParts(x, s, gap[..1], gap[1..]);
      SkipBlank(x, s + 1, gap[1..]);
    }
  }

  lemma {:induction false} WordEndAt(x: string, s: nat, e: nat)
    requires s <= e <= |x| && (forall i :: s <= i < e ==> WordChar(x[i])) && !WordChar(At(x, e)) && NulFree(x)
    ensures WordEnd(x, s) == e
    decreases e - s
  {
    if s < e {
      WordEndAt(x, s + 1, e);
    }
  }

  /** A token that its successor does not touch. */
  lemma {:induction false} ReadTok(x: string, s: nat, t: Tok, e: nat)
    requires NulFree(x) && TokOk(t) && Has(x, s, Spell(t)) && e == s + |Spell(t)|
    requires (t.Word? ==> !WordChar(At(x, e))) && (t == Sym('>') ==> At(x, e) != '>')
    ensures var k := GetToken(x, s); k.kind != NUL && AsTok(x, k) == t && k.next == Skip(x, e)
  {
    HasAt(x, s, Spell(t), 0);
    if t.Word? {
      forall i | s <= i < s + |t.w| ensures WordChar(x[i]) {
        HasAt(x, s, t.w, i - s);
      }
      WordEndAt(x, s, e);
    } else if t.c == '+' {
      HasAt(x, s, Spell(t), 1);
    }
    SkipStays(x, s);
  }

  /** From `s` on `x` is these tokens, with white space behind each. */
  ghost predicate Written(x: string, s: nat, toks: seq<Tok>, gaps: seq<string>) {
    && NulFree(x) && ToksOk(toks) && Spaced(toks, gaps) && s + |Text(toks, gaps)| == |x|
    && Has(x, s, Text(toks, gaps))
  }

  /** What stands behind the first token. */
  lemma {:induction false} Neighbour(x: string, s: nat, toks: seq<Tok>, gaps: seq<string>)
    requires ToksOk(toks) && Spaced(toks, gaps) && toks != [] && Has(x, s, gaps[0] + Text(toks[1..], gaps[1..]))
    requires s + |gaps[0] + Text(toks[1..], gaps[1..])| == |x|
    ensures toks[0].Word? ==> !WordChar(At(x, s))
    ensures toks[0] == Sym('>') ==> At(x, s) != '>'
  {
    var gap, rest := gaps[0], Text(toks[1..], gaps[1..]);
    if gap != "" {
      HasAt(x, s, gap + rest, 0);
      assert Blank(gap) && White(gap[0]);
    } else if |toks| > 1 {
      var u := toks[1];
      assert rest == Spell(u) + (gaps[1] + Text(toks[1..][1..], gaps[1..][1..]));
      assert TokOk(u) && !Touch(toks[0], toks[1]);
      HasAt(x, s, gap + rest, 0);
      assert (gap + rest)[0] == Spell(u)[0];
    }
  }

  lemma {:induction false} SpacedRest(toks: seq<Tok>, gaps: seq<string>)
    requires Spaced(toks, gaps) && ToksOk(toks) && toks != []
    ensures Blank(gaps[0]) && Spaced(toks[1..], gaps[1..]) && ToksOk(toks[1..]) && TokOk(toks[0])
  {
    var more, others := toks[1..], gaps[1..];
    forall i | 0 <= i < |more| - 1 && Touch(more[i], more[i + 1]) ensures others[i] != "" {
      assert Touch(toks[i + 1], toks[i + 2]);
    }
  }

  lemma {:induction false} SkipToks(x: string, s: nat, gap: string, e: nat)
    requires NulFree(x) && Has(x, s, gap) && Blank(gap) && e == s + |gap|
    ensures Toks(x, Skip(x, s)) == Toks(x, e)
  {
    SkipBlank(x, s, gap);
    First(x, e);
  }

  /** The first token, and where the others stand. */
  lemma {:induction false} FirstWritten(x: string, s: nat, toks: seq<Tok>, gaps: seq<string>) returns (e: nat)
    requires Written(x, s, toks, gaps) && toks != []
    ensures Written(x, e, toks[1..], gaps[1..])
    ensures var k := GetToken(x, s); k.kind != NUL && AsTok(x, k) == toks[0] && Toks(x, k.next) == Toks(x, e)
  {
    var w, more := Spell(toks[0]), Text(toks[1..], gaps[1..]);
    HasParts(x, s, w, gaps[0] + more);
    var m := s + |w|;
    HasParts(x, m, gaps[0], more);
    SpacedRest(toks, gaps);
    Neighbour(x, m, toks, gaps);
    e := m + |gaps[0]|;
    ReadTok(x, s, toks[0], m);
    SkipToks(x, m, gaps[0], e);
  }

  lemma {:induction false} OneTok(x: string, s: nat, t: Tok, more: seq<Tok>)
    requires NulFree(x) && s <= |x|
    requires var k := GetToken(x, s); k.kind != NUL && AsTok(x, k) == t && Toks(x, k.next) == more
    ensures Toks(x, s) == [t] + more
  {
  }

  /** Reading a text gives the tokens it was written with. */
  lemma {:induction false} Lex(x: string, s: nat, toks: seq<Tok>, gaps: seq<string>)
    requires Written(x, s, toks, gaps)
    ensures Toks(x, s) == toks
    decreases |toks|
  {
    if toks != [] {
      var e := FirstWritten(x, s, toks, gaps);
      Lex(x, e, toks[1..], gaps[1..]);
      OneTok(x, s, toks[0], toks[1..]);
    }
  }

  lemma {:induction false} TextNulFree(toks: seq<Tok>, gaps: seq<string>)
    requires |gaps| == |toks| && ToksOk(toks) && forall i :: 0 <= i < |gaps| ==> Blank(gaps[i])
    ensures NulFree(Text(toks, gaps))
  {
    if toks != [] {
      assert TokOk(toks[0]) && Blank(gaps[0]);
      TextNulFree(toks[1..], gaps[1..]);
    }
  }

  // The tokens of a line

  lemma {:induction false} ItemsToksOk(items: seq<Item>)
    requires ItemsOk(items)
    ensures ToksOk(ItemsToks(items))
  {
    if items != [] {
      assert ItemOk(items[0]);
      ItemsToksOk(items[1..]);
    }
  }

  lemma {:induction false} CommandToksOk(c: Command)
    requires CommandOk(c)
    ensures ToksOk(CommandToks(c))
  {
    match c
    case Plain(items) => ItemsToksOk(items);
    case Group(line, after) => LineToksOk(line); ItemsToksOk(after);
  }

  lemma {:induction false} PipeToksOk(p: Pipeline)
    requires PipeOk(p)
    ensures ToksOk(PipeToks(p))
  {
    CommandToksOk(p.c);
    if p.Into? {
      PipeToksOk(p.rest);
    }
  }

  lemma {:induction false} AmpsOk(n: nat)
    ensures ToksOk(Amps(n))
  {
    if n > 0 {
      AmpsOk(n - 1);
    }
  }

  lemma {:induction false} LineToksOk(l: Line)
    requires LineOk(l)
    ensures ToksOk(LineToks(l))
  {
    PipeToksOk(l.p);
    AmpsOk(l.amps);
    if l.Next? {
      LineToksOk(l.rest);
    }
  }

  lemma {:induction false} LexAll(x: string, lead: string, toks: seq<Tok>, gaps: seq<string>)
    requires Spaced(toks, gaps) && x == lead + Text(toks, gaps) && NulFree(x) && Blank(lead) && ToksOk(toks)
    ensures Tokens(x) == toks
  {
    assert x[0..|x|] == x;
    HasParts(x, 0, lead, Text(toks, gaps));
    SkipToks(x, 0, lead, |lead|);
    Lex(x, |lead|, toks, gaps);
    First(x, 0);
  }

  /** A line written out, with any white space, parses to what it means. */
  lemma {:induction false} Typed(l: Line, lead: string, gaps: seq<string>)
    requires LineOk(l) && Blank(lead) && Spaced(LineToks(l), gaps)
    ensures var x := lead + Text(LineToks(l), gaps);
      NulFree(x) && Writes(x, l) && ParseText(x).Ok? && Resolve(x, ParseText(x).cmd) == LineMeans(l)
  {
    var toks := LineToks(l);
    var x := lead + Text(toks, gaps);
    LineToksOk(l);
    TextNulFree(toks, gaps);
    LexAll(x, lead, toks, gaps);
    assert Writes(x, l);
    Accepts(x);
  }

  // Every command can be written

  /** Commands the shell can express: at most nine words each, and one of its three kinds of redirection. */
  ghost predicate Printable(t: Tree) {
    match t
    case Simple(words) => |words| <= 9 && forall i :: 0 <= i < |words| ==> IsWord(words[i])
    case Redirected(d, file, mode, fd) =>
      Printable(d) && IsWord(file) && (mode, fd) in {(0x000, 0), (0x601, 1), (0x201, 1)}
    case Piped(l, r) => Printable(l) && Printable(r)
    case Listed(l, r) => Printable(l) && Printable(r)
    case Background(d) => Printable(d)
  }

  function OpFor(mode: nat): char {
    if mode == 0x000 then '<' else if mode == 0x601 then '>' else '+'
  }

  function Words(words: seq<string>): seq<Item> {
    if words == [] then [] else [Arg(words[0])] + Words(words[1..])
  }

  /** The command as a line, with all parentheses. */
  function AsLine(t: Tree): Line {
    match t
    case Simple(words) => End(Last(Plain(Words(words))), 0)
    case Redirected(d, file, mode, fd) => End(Last(Group(AsLine(d), [To(OpFor(mode), file)])), 0)
    case Piped(l, r) => End(Into(Group(AsLine(l), []), Last(Group(AsLine(r), []))), 0)
    case Listed(l, r) => Next(Last(Group(AsLine(l), [])), 0, End(Last(Group(AsLine(r), [])), 0))
    case Background(d) => End(Last(Group(AsLine(d), [])), 1)
  }

  lemma {:induction false} WordsBack(words: seq<string>)
    requires forall i :: 0 <= i < |words| ==> IsWord(words[i])
    ensures ItemsOk(Words(words)) && Args(Words(words)) == words && Tos(Words(words)) == []
  {
    if words != [] {
      WordsBack(words[1..]);
      assert Words(words)[1..] == Words(words[1..]);
    }
  }

  lemma {:induction false} InParens(l: Line, after: seq<Item>)
    requires LineOk(l) && OnlyTos(after)
    ensures var c := Group(l, after);
      && CommandOk(c) && CommandMeans(c) == Under(LineMeans(l), after)
      && PipeOk(Last(c)) && PipeMeans(Last(c)) == CommandMeans(c)
      && LineOk(End(Last(c), 0)) && LineMeans(End(Last(c), 0)) == CommandMeans(c)
  {
    Alone(Group(l, after));
  }

  lemma {:induction false} Alone(c: Command)
    requires CommandOk(c)
    ensures PipeOk(Last(c)) && PipeMeans(Last(c)) == CommandMeans(c)
    ensures LineOk(End(Last(c), 0)) && LineMeans(End(Last(c), 0)) == CommandMeans(c)
  {
    assert PipeMeans(Last(c)) == CommandMeans(c);
    assert InBackground(PipeMeans(Last(c)), 0) == PipeMeans(Last(c));
  }

  lemma {:induction false} AsLineMeans(t: Tree)
    requires Printable(t)
    ensures LineOk(AsLine(t)) && LineMeans(AsLine(t)) == t
  {
    match t
    case Simple(words) =>
      WordsBack(words);
      Alone(Plain(Words(words)));
    case Redirected(d, file, mode, fd) =>
      AsLineMeans(d);
      var to := [To(OpFor(mode), file)];
      assert Under(d, to) == Under(Redirected(d, file, mode, fd), to[1..]);
      InParens(AsLine(d), to);
    case Piped(l, r) =>
      AsLineMeans(l);
      AsLineMeans(r);
      InParens(AsLine(l), []);
      InParens(AsLine(r), []);
      var p := Into(Group(AsLine(l), []), Last(Group(AsLine(r), [])));
      assert PipeOk(p) && PipeMeans(p) == t;
    case Listed(l, r) =>
      AsLineMeans(l);
      AsLineMeans(r);
      InParens(AsLine(l), []);
      InParens(AsLine(r), []);
    case Background(d) =>
      AsLineMeans(d);
      InParens(AsLine(d), []);
      assert InBackground(d, 1) == InBackground(Background(d), 0);
  }

  /** Every command the shell can express is what some line parses to, however the line is spaced. */
  lemma {:induction false} RoundTrip(t: Tree, lead: string, gaps: seq<string>)
    requires Printable(t) && Blank(lead) && Spaced(LineToks(AsLine(t)), gaps)
    ensures var x := lead + Text(LineToks(AsLine(t)), gaps);
      NulFree(x) && ParseText(x).Ok? && Resolve(x, ParseText(x).cmd) == t
  {
    AsLineMeans(t);
    Typed(AsLine(t), lead, gaps);
  }
}
