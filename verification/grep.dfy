/** The regular expression matcher of user/grep.c: literals, `.`, `*`, and `^` and
    `$` at the ends.  C strings are modelled by their contents before the NUL. */
module Grep {
  // Meaning of patterns, independent of any matching procedure

  datatype Atom = One(c: char) | Star(c: char)

  predicate Fits(c: char, x: char) {
    c == '.' || c == x
  }

  /** A pattern without its leading `^`: `x*` for any character x (even `*`), a lone
      final `$`, and otherwise one character at a time. */
  function Atoms(re: string): seq<Atom> {
    if re == "" then []
    else if |re| > 1 && re[1] == '*' then [Star(re[0])] + Atoms(re[2..])
    else if re == "$" then []
    else [One(re[0])] + Atoms(re[1..])
  }

  predicate AtEnd(re: string) {
    if re == "" then false
    else if |re| > 1 && re[1] == '*' then AtEnd(re[2..])
    else if re == "$" then true
    else AtEnd(re[1..])
  }

  ghost predicate AllFit(c: char, w: string) {
    forall i :: 0 <= i < |w| ==> Fits(c, w[i])
  }

  /** `w` consists of one piece per atom, in order. */
  ghost predicate Denotes(atoms: seq<Atom>, w: string)
    decreases |atoms|
  {
    if atoms == [] then w == ""
    else match atoms[0]
      case One(c) => w != "" && Fits(c, w[0]) && Denotes(atoms[1..], w[1..])
      case Star(c) => exists k :: StarPiece(atoms, c, w, k)
  }

  ghost predicate StarPiece(atoms: seq<Atom>, c: char, w: string, k: int)
    requires atoms != []
    decreases |atoms|, 0
  {
    0 <= k <= |w| && AllFit(c, w[..k]) && Denotes(atoms[1..], w[k..])
  }

  /** The pattern describes a piece of `text` that starts at its beginning and, if it
      ends in `$`, extends to its end. */
  ghost predicate AcceptsHere(re: string, text: string) {
    exists e :: Piece(re, text, e)
  }

  ghost predicate Piece(re: string, text: string, e: int) {
    0 <= e <= |text| && Denotes(Atoms(re), text[..e]) && (AtEnd(re) ==> e == |text|)
  }

  ghost predicate Accepts(re: string, text: string) {
    if re != "" && re[0] == '^' then AcceptsHere(re[1..], text)
    else exists p :: 0 <= p <= |text| && AcceptsHere(re, text[p..])
  }

  // What one step of the matcher may conclude

  ghost predicate StarHere(c: char, re: string, text: string, k: int) {
    0 <= k <= |text| && AllFit(c, text[..k]) && AcceptsHere(re, text[k..])
  }

  lemma {:induction false} EmptyPattern(text: string)
    ensures AcceptsHere("", text)
  {
    assert Piece("", text, 0);
  }

  lemma {:induction false} EndPattern(text: string)
    ensures AcceptsHere("$", text) <==> text == ""
  {
    assert Atoms("$") == [] && AtEnd("$");
    if text == "" {
      assert Piece("$", text, 0);
    }
  }

  lemma {:induction false} StarPattern(re: string, text: string)
    requires |re| > 1 && re[1] == '*'
    ensures AcceptsHere(re, text) <==> exists k :: StarHere(re[0], re[2..], text, k)
  {
    var atoms, rest := Atoms(re), re[2..];
    assert atoms[1..] == Atoms(rest);
    if AcceptsHere(re, text) {
      var e :| Piece(re, text, e);
      var w := text[..e];
      assert Denotes(atoms, w);
      var k :| StarPiece(atoms, re[0], w, k);
      assert w[..k] == text[..k] && w[k..] == text[k..][..e - k];
      assert Piece(rest, text[k..], e - k);
      assert StarHere(re[0], rest, text, k);
    }
    if k :| StarHere(re[0], rest, text, k) {
      var e :| Piece(rest, text[k..], e);
      var w := text[..k + e];
      assert w[..k] == text[..k] && w[k..] == text[k..][..e];
      assert StarPiece(atoms, re[0], w, k);
      assert Piece(re, text, k + e);
    }
  }

  lemma {:induction false} OnePattern(re: string, text: string)
    requires re != "" && re != "$" && !(|re| > 1 && re[1] == '*')
    ensures AcceptsHere(re, text) <==>
      text != "" && Fits(re[0], text[0]) && AcceptsHere(re[1..], text[1..])
  {
    var atoms, rest := Atoms(re), re[1..];
    assert atoms[1..] == Atoms(rest);
    if AcceptsHere(re, text) {
      var e :| Piece(re, text, e);
      assert text[..e][1..] == text[1..][..e - 1];
      assert Piece(rest, text[1..], e - 1);
    }
    if text != "" && Fits(re[0], text[0]) && AcceptsHere(rest, text[1..]) {
      var e :| Piece(rest, text[1..], e);
      assert text[..e + 1][1..] == text[1..][..e];
      assert Piece(re, text, e + 1);
    }
  }

  // The matcher

  /** matchhere: does the pattern match at the beginning of text? */
  method MatchHere(re: string, text: string) returns (r: bool)
    ensures r <==> AcceptsHere(re, text)
    decreases |re|, 1
  {
    if re == "" {
      EmptyPattern(text);
      return true;
    }
    if |re| > 1 && re[1] == '*' {
      StarPattern(re, text);
      r := MatchStar(re[0], re[2..], text);
      return;
    }
    if re[0] == '$' && |re| == 1 {
      EndPattern(text);
      return text == "";
    }
    OnePattern(re, text);
    if text != "" && (re[0] == '.' || re[0] == text[0]) {
      r := MatchHere(re[1..], text[1..]);
      return;
    }
    return false;
  }

  /** matchstar: does c* followed by the pattern match at the beginning of text? */
  method MatchStar(c: char, re: string, text: string) returns (r: bool)
    ensures r <==> exists k :: StarHere(c, re, text, k)
    decreases |re|, 2
  {
    var i := 0;
    while true
      invariant 0 <= i <= |text| && AllFit(c, text[..i])
      invariant forall k :: 0 <= k < i ==> !AcceptsHere(re, text[k..])
      decreases |text| - i
    {
      r := MatchHere(re, text[i..]);
      if r {
        assert StarHere(c, re, text, i);
        return;
      }
      if i < |text| && (text[i] == c || c == '.') {
        i := i + 1;
      } else {
        StarStops(c, re, text, i);
        return false;
      }
    }
  }

  lemma {:induction false} StarStops(c: char, re: string, text: string, i: nat)
    requires i <= |text| && (i < |text| ==> !Fits(c, text[i]))
    requires forall k :: 0 <= k <= i ==> !AcceptsHere(re, text[k..])
    ensures !exists k :: StarHere(c, re, text, k)
  {
    forall k ensures !StarHere(c, re, text, k) {
      assert i < k <= |text| ==> text[..k][i] == text[i];
    }
  }

  /** match: does the pattern match anywhere in text? */
  method Match(re: string, text: string) returns (r: bool)
    ensures r <==> Accepts(re, text)
  {
    if re != "" && re[0] == '^' {
      r := MatchHere(re[1..], text);
      return;
    }
    var p := 0;
    while true
      invariant 0 <= p <= |text|
      invariant forall k :: 0 <= k < p ==> !AcceptsHere(re, text[k..])
      decreases |text| - p
    {
      r := MatchHere(re, text[p..]);
      if r {
        return;
      }
      if p == |text| {
        return false;
      }
      p := p + 1;
    }
  }
}
