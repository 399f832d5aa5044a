/**
  The pattern object of CORE/UTIL/regex.h, from the text of a pattern on, and what a
  caller may expect of it.
 */
module RegexPattern {
  import opened RegexSyntax
  import opened RegexParser
  import opened RegexPostfix
  import opened RegexEscape
  import opened RegexCode
  import opened RegexVectorSet
  import opened RegexNfa

  /** NEVER_RETURNS stands for the unbounded counter loop of the postfix conversion, TOO_COMPLICATED for its abort. */
  datatype BuildResult = NONE | REFUSED(error: EscapeError) | MISSING_OPERAND | NEVER_RETURNS | TOO_COMPLICATED

  ghost predicate Answers(tokens: seq<Token>, r: BuildResult, re: Regex)
    requires BracesClosed(tokens)
  {
    match ParseTokens(Expanded(tokens))
    case Tree(e) => re == Meaning(e) && r == if Size(re) + 1 < MAX_NFA_STATES then NONE else TOO_COMPLICATED
    case MissingOperand => r == MISSING_OPERAND
    case Runaway => r == NEVER_RETURNS
    case Unbalanced => false
  }

  lemma {:induction false} ScanReachesEnd(re: Regex, w: string, end: int)
    requires IsScanEnd(re, w, end)
    ensures end == |w| <==> w == "" || exists lo :: FirstRun(re, w, lo, |w|)
  {
    if lo :| FirstRun(re, w, lo, |w|) { ScanEndUnique(re, w, end, |w|); }
  }

  class RegExPattern {
    var machine: Nfa?

    constructor ()
      ensures machine == null
    {
      machine := null;
    }

    /** What comes of a pattern; the machine is there whatever that is, but has its states only without an error. */
    method Build(pattern: string) returns (r: BuildResult, ghost re: Regex)
      modifies this
      ensures match Escaped(pattern)
        case Refused(error) => r == REFUSED(error)
        case Tokens(tokens) => BracesClosed(tokens) && Balanced(tokens, 0) && Answers(tokens, r, re)
      ensures machine != null && fresh(machine)
      ensures if r == NONE then machine.Valid(re) else r != TOO_COMPLICATED ==> machine.states == []
    {
      machine := new Nfa();
      re := Atom(OP_OR);
      var escaped := EscapePattern(pattern);
      match escaped
      case Refused(error) => r := REFUSED(error);
      case Tokens(tokens) =>
        EscapedIsProducible(pattern, CLEAR);
        ProducibleIsReadable(tokens, CLEAR);
        r, re := BuildTokens(tokens);
    }

    method BuildTokens(tokens: seq<Token>) returns (r: BuildResult, ghost re: Regex)
      requires BracesClosed(tokens) && Balanced(tokens, 0) && machine != null && machine.states == []
      modifies machine
      ensures Answers(tokens, r, re)
      ensures if r == NONE then machine.Valid(re) else r != TOO_COMPLICATED ==> machine.states == []
    {
      re := Atom(OP_OR);
      var expanded := ExpandPattern(tokens);
      ExpandedBalanced(tokens, 0);
      var postfix := InfixToPostfix(expanded);
      match postfix
      case Missing => r := MISSING_OPERAND;
      case RunsAway => r := NEVER_RETURNS;
      case Postfix(program) =>
        re := Meaning(ParseTokens(expanded).expr);
        var ok := machine.Build(program, re);
        r := if ok then NONE else TOO_COMPLICATED;
    }

    method Scan(input: string, ghost re: Regex) returns (end: nat)
      requires machine != null ==> machine.Valid(re) && Scannable(machine.states, re, machine.start, input)
      ensures if machine == null then end == 0 else IsScanEnd(re, input, end)
    {
      if machine == null {
        return 0;
      }
      end := machine.Scan(input, re);
    }

    method Match(input: string, ghost re: Regex) returns (r: bool)
      requires machine != null ==> machine.Valid(re) && Scannable(machine.states, re, machine.start, input)
      ensures r <==> machine != null && Matches(re, input)
    {
      if machine == null {
        return false;
      }
      var end := Scan(input, re);
      r := end == |input|;
      ScanReachesEnd(re, input, end);
    }
  }

  /** Every well-formed pattern, braces included, builds the machine of its own meaning, size permitting. */
  lemma {:induction false} WellFormedBuilds(e: Expr, r: BuildResult, re: Regex)
    requires WellFormedExpr(e)
    ensures BracesClosed(Print(e)) && Balanced(Print(e), 0)
    ensures Answers(Print(e), r, re) ==>
      re == Meaning(e) && r == if Size(Meaning(e)) + 1 < MAX_NFA_STATES then NONE else TOO_COMPLICATED
  {
    PrintedBalanced(e, [], 0);
    ExpandPrinted(e, []);
    assert Print(e) + [] == Print(e);
    assert Print(Desugar(e)) + Expanded([]) == Print(Desugar(e));
    DesugaredIsBraceFree(e);
    ParsePrint(Desugar(e));
  }

  /** So does the text it is written as, if that can be written. */
  lemma {:induction false} WrittenBuilds(e: Expr, r: BuildResult, re: Regex)
    requires WellFormedExpr(e) && Producible(Print(e), CLEAR)
    ensures Escaped(SpelledAll(Print(e))) == Tokens(Print(e)) && BracesClosed(Print(e)) && Balanced(Print(e), 0)
    ensures Answers(Print(e), r, re) ==>
      re == Meaning(e) && r == if Size(Meaning(e)) + 1 < MAX_NFA_STATES then NONE else TOO_COMPLICATED
  {
    SpelledComesBack(Print(e), CLEAR);
    WellFormedBuilds(e, r, re);
  }

  /** A machine is built only from token lists that expand to a well-formed pattern. */
  lemma {:induction false} BuildsOnlyWellFormed(tokens: seq<Token>, r: BuildResult, re: Regex)
    requires BracesClosed(tokens) && Answers(tokens, r, re)
    ensures r == NONE || r == TOO_COMPLICATED <==>
      exists e :: WellFormedExpr(e) && BraceFreeExpr(e) && Print(e) == Significant(Expanded(tokens))
  {
    ParsesIffPrinted(Expanded(tokens));
  }

  /** Lengths of accepted prefixes, once there is one, go on without a gap. */
  ghost predicate NoGap(re: Regex, w: string) {
    forall i, j :: 1 <= i <= j <= |w| && PrefixIn(re, w, i) ==> PrefixIn(re, w, j)
  }

  /** What Match answers about an input when there is a machine. */
  ghost predicate Matches(re: Regex, w: string) {
    w == "" || exists lo :: FirstRun(re, w, lo, |w|)
  }

  /** On a non-empty input a match is membership without a gap before it. */
  lemma {:induction false} MatchIsMemberWithoutGap(re: Regex, w: string)
    requires w != ""
    ensures Matches(re, w) <==> InLanguage(re, w) && NoGap(re, w)
  {
    assert w[..|w|] == w;
    if lo :| FirstRun(re, w, lo, |w|) {
      assert PrefixIn(re, w, |w|);
    }
    if InLanguage(re, w) && NoGap(re, w) {
      var lo := FirstAccepted(re, w, 1);
      assert FirstRun(re, w, lo, |w|);
    }
  }

  /**
    On which inputs a match is membership: on the empty one if the pattern
    accepts the empty word, on any other if it is no member or the lengths of
    its accepted prefixes, once there is one, have no gap.
   */
  lemma {:induction false} MatchIsMembershipIff(re: Regex, w: string)
    ensures (Matches(re, w) <==> InLanguage(re, w)) <==>
      if w == "" then Nullable(re) else (InLanguage(re, w) ==> NoGap(re, w))
  {
    if w == "" { NullableIffEmpty(re); } else { MatchIsMemberWithoutGap(re, w); }
  }

  lemma {:induction false} FirstAccepted(re: Regex, w: string, k: int) returns (lo: int)
    requires 1 <= k <= |w| && InLanguage(re, w)
    ensures k <= lo <= |w| && PrefixIn(re, w, lo)
    ensures forall i :: k <= i < lo ==> !PrefixIn(re, w, i)
    decreases |w| - k
  {
    assert w[..|w|] == w;
    if PrefixIn(re, w, k) { lo := k; } else { lo := FirstAccepted(re, w, k + 1); }
  }

  /** The documented full match is not what match computes: a|aab accepts "aab", but the scan stops after the a. */
  lemma {:induction false} MatchMissesMember()
    ensures
      var re := Alt(Atom(Token(LITERAL, 'a')),
        Cat(Cat(Atom(Token(LITERAL, 'a')), Atom(Token(LITERAL, 'a'))), Atom(Token(LITERAL, 'b'))));
      InLanguage(re, "aab") && !Matches(re, "aab") && FirstRun(re, "aab", 1, 1)
  {
    var a, b := Atom(Token(LITERAL, 'a')), Atom(Token(LITERAL, 'b'));
    var re := Alt(a, Cat(Cat(a, a), b));
    var w := "aab";
    CatIntro(a, a, "a", "a");
    CatIntro(Cat(a, a), b, "a" + "a", "b");
    assert w == "a" + "a" + "b";
    assert w[..1] == "a" && w[..2] == "aa" && PrefixIn(re, w, 1);
    assert !InLanguage(a, w[..2]);
    if InLanguage(Cat(Cat(a, a), b), w[..2]) { EndsWith(Cat(a, a), Token(LITERAL, 'b'), w[..2]); }
    assert !PrefixIn(re, w, 2);
  }

  /** The empty input matches every pattern, one character long or not. */
  lemma EmptyMatchesAll()
    ensures var re := Atom(Token(LITERAL, 'a')); Matches(re, "") && !InLanguage(re, "")
  {
    MatchIsMembershipIff(Atom(Token(LITERAL, 'a')), "");
  }

  /** The tokens of a| are balanced, yet the conversion counts down from zero: no machine, and no return. */
  lemma {:induction false} TrailingAlternativeNeverReturns(r: BuildResult, re: Regex)
    ensures var tokens := [Token(LITERAL, 'a'), OP_OR];
      BracesClosed(tokens) && Balanced(tokens, 0) && (Answers(tokens, r, re) ==> r == NEVER_RETURNS)
  {
    var a := Token(LITERAL, 'a');
    var tokens := [a, OP_OR];
    assert tokens[1..] == [OP_OR] && tokens[1..][1..] == [];
    assert BracesClosed([]) && Balanced([], 0);
    assert BracesClosed([OP_OR]) && Balanced([OP_OR], 0) && Expanded([OP_OR]) == [OP_OR] + Expanded([]);
    assert Expanded(tokens) == [a] + Expanded([OP_OR]) == tokens;
    assert tokens[..1] == [a] && [a][..0] == [];
    assert ParseFrom(START, [a]) == ParseStep(ParseFrom(START, []), a);
    assert ParseFrom(START, tokens) == ParseStep(ParseFrom(START, [a]), OP_OR);
  }

  /** The pattern [.] puts an operator into the brace that takes no operand: no machine, and no return. */
  lemma {:induction false} DotInBraceNeverReturns(r: BuildResult, re: Regex)
    ensures var tokens := [OPEN_BRACE, Token(RANGE, '.'), Token(OPERATOR, '.'), CLOSE_BRACE];
      && Escaped("[.]") == Tokens(tokens) && BracesClosed(tokens)
      && (Answers(tokens, r, re) ==> r == NEVER_RETURNS)
  {
    var dot, op := Token(RANGE, '.'), Token(OPERATOR, '.');
    var tokens := [OPEN_BRACE, dot, op, CLOSE_BRACE];
    assert Escaped("[.]") == Tokens(tokens) by { DotInBrace(); }
    assert tokens[1..] == [dot, op, CLOSE_BRACE] && tokens[1..][1..] == [op, CLOSE_BRACE];
    assert [op, CLOSE_BRACE][1..] == [CLOSE_BRACE];
    assert BraceEnd([CLOSE_BRACE]) == 0 && BraceEnd([op, CLOSE_BRACE]) == 1 && BraceEnd(tokens[1..]) == 2;
    assert tokens[4..] == [] && tokens[1..3] == [dot, op] && BracesClosed(tokens);
    assert [dot, op][1..] == [op] && Separated([op]) == [op] && Separated([dot, op]) == [dot, OP_OR, op];
    assert Expanded(tokens) == [OPEN_GROUP] + [dot, OP_OR, op] + [CLOSE_GROUP] + [];
    assert Expanded(tokens) == [OPEN_GROUP] + [dot] + [OP_OR] + [op] + [CLOSE_GROUP];
    EmptyAlternativeRuns(dot, op);
  }

  /** An alternative that holds only an operator without effect is empty when its group is closed. */
  lemma {:induction false} EmptyAlternativeRuns(t: Token, op: Token)
    requires t.kind == RANGE && op == Token(OPERATOR, '.')
    ensures ParseTokens([OPEN_GROUP] + [t] + [OP_OR] + [op] + [CLOSE_GROUP]) == Runaway
  {
    hide ParseFrom;
    ParseOne(START, OPEN_GROUP);
    ParseConcat(START, [OPEN_GROUP], [t]);
    ParseOne(ParseFrom(START, [OPEN_GROUP]), t);
    ParseConcat(START, [OPEN_GROUP] + [t], [OP_OR]);
    ParseOne(ParseFrom(START, [OPEN_GROUP] + [t]), OP_OR);
    ParseConcat(START, [OPEN_GROUP] + [t] + [OP_OR], [op]);
    ParseOne(ParseFrom(START, [OPEN_GROUP] + [t] + [OP_OR]), op);
    ParseConcat(START, [OPEN_GROUP] + [t] + [OP_OR] + [op], [CLOSE_GROUP]);
    ParseOne(ParseFrom(START, [OPEN_GROUP] + [t] + [OP_OR] + [op]), CLOSE_GROUP);
  }

  lemma {:induction false} DotInBrace()
    ensures Escaped("[.]") == Tokens([OPEN_BRACE, Token(RANGE, '.'), Token(OPERATOR, '.'), CLOSE_BRACE])
  {
    var c := Counters(0, 1, false);
    var dot := [Token(RANGE, '.'), Token(OPERATOR, '.')];
    assert "[.]"[1..] == "." + "]" && "]"[1..] == "";
    assert ReadSymbol("[.]", CLEAR) == Symbol(1, [OPEN_BRACE], c);
    assert ReadSymbol("]", c) == Symbol(1, [CLOSE_BRACE], CLEAR);
    assert EscapeFrom("", CLEAR) == Tokens([]);
    hide EscapeFrom, ReadSymbol;
    SymbolRead("[.]", CLEAR, 1, [OPEN_BRACE], c);
    DotBack("]", c);
    SymbolRead("]", c, 1, [CLOSE_BRACE], CLEAR);
    assert [CLOSE_BRACE] + [] == [CLOSE_BRACE];
    assert [OPEN_BRACE] + (dot + [CLOSE_BRACE]) == [OPEN_BRACE, dot[0], dot[1], CLOSE_BRACE];
  }

  /** A newline is escaped in vain: the pattern \n is the letter n. */
  lemma {:induction false} NewlineIsLetter()
    ensures Escaped("\\n") == Tokens([Token(LITERAL, 'n')])
  {
    var s := "\\n";
    assert s[2..] == "" && ReadSymbol(s, CLEAR) == Symbol(2, [Token(LITERAL, 'n')], CLEAR);
  }

  lemma {:induction false} EndsWith(x: Regex, t: Token, w: string)
    requires InLanguage(Cat(x, Atom(t)), w)
    ensures w != "" && TokenMatches(t, w[|w| - 1])
  {
    var re := Cat(x, Atom(t));
    assert InLanguage(re, w);
    var u, v :| w == u + v && Parts(re, u, v);
    assert InLanguage(Atom(t), v);
    assert w[|w| - 1] == v[0];
  }
}
