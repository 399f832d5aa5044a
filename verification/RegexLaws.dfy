/**
  What patterns mean, told on words alone: one law for every form of pattern,
  and texts followed from the escaping pass to the answer of match.
 */
module RegexLaws {
  import opened RegexSyntax
  import opened RegexParser
  import opened RegexPostfix
  import opened RegexEscape
  import opened RegexCode
  import opened RegexVectorSet
  import opened RegexNfa
  import opened RegexPattern

  // --------------------------------------------------------- one law per form

  /** A token accepts single characters: its own, any other, or those of its range. */
  lemma {:induction false} TokenLaw(t: Token, w: string)
    requires t.kind != OPERATOR
    ensures InLanguage(FactorMeaning(One(t)), w) <==>
      && |w| == 1
      && var c := w[0];
         || (t.kind == LITERAL && c == t.ch)
         || (t.kind == INV_LITERAL && c != t.ch)
         || (t == Token(RANGE, '.'))
         || (t == Token(RANGE, 'd') && c in "0123456789")
         || (t == Token(RANGE, 's') && c in " \n\t\r")
         || (t == Token(RANGE, 'a') && ('a' <= c <= 'z' || 'A' <= c <= 'Z'))
         || (t == Token(RANGE, 'w') && ('a' <= c <= 'z' || 'A' <= c <= 'Z' || c == '_' || c in "0123456789"))
  {
    if |w| == 1 {
      var c, digits, blanks := w[0], "0123456789", " \n\t\r";
      assert c in digits <==> '0' <= c <= '9' by {
        if '0' <= c <= '9' { assert digits[c as int - '0' as int] == c; }
      }
      assert blanks[0] == ' ' && blanks[1] == '\n' && blanks[2] == '\t' && blanks[3] == '\r';
    }
  }

  /** A factor after a term accepts a word that falls into a word of the term and one of the factor, in this order. */
  lemma {:induction false} SequenceLaw(i: Term, f: Factor, w: string)
    ensures InLanguage(TermMeaning(Then(i, f)), w) <==>
      exists k :: 0 <= k <= |w| && InLanguage(TermMeaning(i), w[..k]) && InLanguage(FactorMeaning(f), w[k..])
  {
    var a, b := TermMeaning(i), FactorMeaning(f);
    if InLanguage(Cat(a, b), w) {
      var u, v :| w == u + v && Parts(Cat(a, b), u, v);
      assert w[..|u|] == u && w[|u|..] == v;
    }
    if k :| 0 <= k <= |w| && InLanguage(a, w[..k]) && InLanguage(b, w[k..]) {
      CatIntro(a, b, w[..k], w[k..]);
      assert w == w[..k] + w[k..];
    }
  }

  lemma {:induction false} AlternativeLaw(t: Term, e: Expr, w: string)
    ensures InLanguage(Meaning(Or(t, e)), w) <==> InLanguage(TermMeaning(t), w) || InLanguage(Meaning(e), w)
    ensures InLanguage(Meaning(Last(t)), w) <==> InLanguage(TermMeaning(t), w)
  {
  }

  lemma {:induction false} GroupLaw(e: Expr, f: Factor, w: string)
    ensures InLanguage(FactorMeaning(Group(e)), w) <==> InLanguage(Meaning(e), w)
    ensures InLanguage(TermMeaning(Just(f)), w) <==> InLanguage(FactorMeaning(f), w)
  {
  }

  lemma {:induction false} LoopWords(a: Regex, w: string)
    ensures InLanguage(Plus(a), w) <==>
      exists ws :: ws != [] && Join(ws) == w && forall i :: 0 <= i < |ws| ==> InLanguage(a, ws[i])
    ensures InLanguage(Star(a), w) <==>
      exists ws :: Join(ws) == w && forall i :: 0 <= i < |ws| ==> InLanguage(a, ws[i])
  {
    hide Join;
    if InLanguage(Plus(a), w) { var ws :| ws != [] && Join(ws) == w && Rounds(a, ws); }
    if InLanguage(Star(a), w) { var ws :| Join(ws) == w && Rounds(a, ws); }
    if ws :| ws != [] && Join(ws) == w && forall i :: 0 <= i < |ws| ==> InLanguage(a, ws[i]) {
      assert Rounds(a, ws);
    }
    if ws :| Join(ws) == w && forall i :: 0 <= i < |ws| ==> InLanguage(a, ws[i]) { assert Rounds(a, ws); }
  }

  /** Words of a factor one after another: any number of them for *, at least one for +, at most one for ?. */
  lemma {:induction false} QuantifierLaw(f: Factor, w: string)
    ensures InLanguage(FactorMeaning(Quant(f, Token(OPERATOR, '+'))), w) <==>
      exists ws :: ws != [] && Join(ws) == w && forall i :: 0 <= i < |ws| ==> InLanguage(FactorMeaning(f), ws[i])
    ensures InLanguage(FactorMeaning(Quant(f, Token(OPERATOR, '*'))), w) <==>
      exists ws :: Join(ws) == w && forall i :: 0 <= i < |ws| ==> InLanguage(FactorMeaning(f), ws[i])
    ensures InLanguage(FactorMeaning(Quant(f, Token(OPERATOR, '?'))), w) <==>
      w == "" || InLanguage(FactorMeaning(f), w)
  {
    var a := FactorMeaning(f);
    LoopWords(a, w);
    assert InLanguage(Opt(a), w) <==> w == "" || InLanguage(a, w);
    hide InLanguage, Join;
    assert FactorMeaning(Quant(f, Token(OPERATOR, '+'))) == Plus(a);
    assert FactorMeaning(Quant(f, Token(OPERATOR, '*'))) == Star(a);
    assert FactorMeaning(Quant(f, Token(OPERATOR, '?'))) == Opt(a);
  }

  // --------------------------------------------------------- texts and answers

  function LiteralFactor(ch: char): Factor { One(Token(LITERAL, ch)) }

  /** A quantified letter and another letter. */
  function LoopThenLetter(op: char): Expr {
    Last(Then(Just(Quant(LiteralFactor('a'), Token(OPERATOR, op))), LiteralFactor('b')))
  }

  lemma {:induction false} LoopText(op: char, r: BuildResult, re: Regex)
    requires op == '+' || op == '*'
    ensures var ts := [Token(LITERAL, 'a'), Token(OPERATOR, op), Token(LITERAL, 'b')];
      && Escaped("a" + [op] + "b") == Tokens(ts) && BracesClosed(ts)
      && (Answers(ts, r, re) ==> r == NONE && re == Meaning(LoopThenLetter(op)))
  {
    var e := LoopThenLetter(op);
    var ts := [Token(LITERAL, 'a'), Token(OPERATOR, op), Token(LITERAL, 'b')];
    assert Print(e) == ts;
    assert ts[1..] == [ts[1], ts[2]] && ts[1..][1..] == [ts[2]] && ts[1..][1..][1..] == [];
    assert Producible([], CLEAR) && Producible([ts[2]], CLEAR) && Producible(ts[1..], CLEAR);
    assert SpelledAll([ts[2]]) == "b" + "" && SpelledAll(ts[1..]) == [op] + SpelledAll([ts[2]]);
    assert SpelledAll(ts) == "a" + ([op] + "b") == "a" + [op] + "b";
    WrittenBuilds(e, r, re);
  }

  lemma {:induction false} LetterWords(ch: char, w: string)
    ensures InLanguage(FactorMeaning(LiteralFactor(ch)), w) <==> w == [ch]
  {
  }

  /** No word of a+ is empty; the empty one of a* comes from no word at all. */
  lemma {:induction false} LoopOnNothing(op: char)
    requires op == '+' || op == '*'
    ensures InLanguage(FactorMeaning(Quant(LiteralFactor('a'), Token(OPERATOR, op))), "") <==> op == '*'
    ensures InLanguage(FactorMeaning(Quant(LiteralFactor('a'), Token(OPERATOR, op))), "a")
  {
    var a := FactorMeaning(LiteralFactor('a'));
    var none, one: seq<string> := [], ["a"];
    assert one[1..] == none && Join(none) == "" && Join(one) == "a" + Join(none) == "a";
    LetterWords('a', "a");
    LetterWords('a', "");
    QuantifierLaw(LiteralFactor('a'), "");
    QuantifierLaw(LiteralFactor('a'), "a");
    hide InLanguage, FactorMeaning;
    assert forall i :: 0 <= i < |one| ==> InLanguage(a, one[i]);
    forall ws: seq<string> | ws != [] && Join(ws) == "" ensures !InLanguage(a, ws[0]) { JoinEmpty(ws); }
  }

  lemma {:induction false} ThenLetter(f: Factor, w: string)
    ensures InLanguage(TermMeaning(Then(Just(f), LiteralFactor('b'))), w) <==>
      w != "" && w[|w| - 1] == 'b' && InLanguage(FactorMeaning(f), w[..|w| - 1])
  {
    hide FactorMeaning, InLanguage;
    SequenceLaw(Just(f), LiteralFactor('b'), w);
    GroupLaw(Last(Just(f)), f, if w == "" then "" else w[..|w| - 1]);
    forall k | 0 <= k <= |w| ensures InLanguage(FactorMeaning(LiteralFactor('b')), w[k..]) <==> w[k..] == "b" {
      LetterWords('b', w[k..]);
    }
    if k :| 0 <= k <= |w| && w[k..] == "b" { assert k == |w| - 1 && w[k..][0] == w[k]; }
    if w != "" && w[|w| - 1] == 'b' { assert w[|w| - 1..] == "b"; }
  }

  /** The whole input matches if it is a word and no shorter prefix is one. */
  lemma {:induction false} ShortestMatches(re: Regex, w: string)
    requires w != "" && forall i :: 1 <= i < |w| ==> !InLanguage(re, w[..i])
    ensures Matches(re, w) <==> InLanguage(re, w)
  {
    hide InLanguage;
    assert w[..|w|] == w;
    MatchIsMemberWithoutGap(re, w);
  }

  lemma {:induction false} LoopOnLetter(op: char)
    requires op == '+' || op == '*'
    ensures Matches(Meaning(LoopThenLetter(op)), "b") <==> op == '*'
    ensures Matches(Meaning(LoopThenLetter(op)), "ab")
  {
    var f, re := Quant(LiteralFactor('a'), Token(OPERATOR, op)), Meaning(LoopThenLetter(op));
    LoopOnNothing(op);
    assert re == TermMeaning(Then(Just(f), LiteralFactor('b')));
    hide InLanguage, FactorMeaning, TermMeaning, Meaning, Matches;
    assert InLanguage(re, "b") <==> op == '*' by {
      ThenLetter(f, "b");
      assert "b"[..0] == "";
    }
    assert InLanguage(re, "ab") && !InLanguage(re, "ab"[..1]) by {
      assert "ab"[..1] == "a";
      ThenLetter(f, "a");
      ThenLetter(f, "ab");
    }
    ShortestMatches(re, "b");
    ShortestMatches(re, "ab");
  }

  /** The text a+b does not match b and the text a*b does; both match ab. */
  lemma {:induction false} LoopsAreToldApart(r: BuildResult, re: Regex)
    ensures var ts := [Token(LITERAL, 'a'), Token(OPERATOR, '+'), Token(LITERAL, 'b')];
      && Escaped("a+b") == Tokens(ts) && BracesClosed(ts)
      && (Answers(ts, r, re) ==> r == NONE && !Matches(re, "b") && Matches(re, "ab"))
    ensures var ts := [Token(LITERAL, 'a'), Token(OPERATOR, '*'), Token(LITERAL, 'b')];
      && Escaped("a*b") == Tokens(ts) && BracesClosed(ts)
      && (Answers(ts, r, re) ==> r == NONE && Matches(re, "b") && Matches(re, "ab"))
  {
    hide Escaped, Answers, Matches, BracesClosed;
    LoopText('+', r, re);
    LoopText('*', r, re);
    LoopOnLetter('+');
    LoopOnLetter('*');
    assert "a" + ['+'] + "b" == "a+b" && "a" + ['*'] + "b" == "a*b";
  }

  /** A backslash: a named range, a character that stays itself, or an error. */
  lemma {:induction false} BackslashLaw(c: char)
    ensures Escaped(['\\', c]) ==
      if c in "sdwa" then Tokens([Token(RANGE, c)])
      else if c in "ntr()[].+*?|^\\" then Tokens([Token(LITERAL, c)])
      else Refused(BAD_ESCAPE)
    ensures Escaped("\\") == Refused(MISSING_ESCAPE)
  {
    var s, named, kept := ['\\', c], "sdwa", "ntr()[].+*?|^\\";
    assert s[2..] == "";
    assert named[0] == 's' && named[1] == 'd' && named[2] == 'w' && named[3] == 'a';
    assert IsNamed(c) <==> c in named;
    assert kept[0] == 'n' && kept[1] == 't' && kept[2] == 'r' && kept[3] == '(' && kept[4] == ')' && kept[5] == '[';
    assert kept[6] == ']' && kept[7] == '.' && kept[8] == '+' && kept[9] == '*' && kept[10] == '?' && kept[11] == '|';
    assert kept[12] == '^' && kept[13] == '\\';
    assert (c == 'n' || c == 't' || c == 'r' || IsSpecial(c)) <==> c in kept;
    hide IsSpecial, IsNamed;
    assert EscapeFrom("", CLEAR) == Tokens([]);
  }
}
