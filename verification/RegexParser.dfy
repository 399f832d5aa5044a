/**
  The front half of the pattern compiler: brace expansion and the conversion
  from infix to postfix with its two counter stacks.

  Patterns are described by a small grammar (Expr, Term, Factor).  A reference
  shift-reduce parser is shown to invert the grammar's printer, and the
  counter-stack conversion is proved to follow that parser token by token.
 */
module RegexParser {
  import opened Basics
  import opened RegexSyntax

  // ---------------------------------------------------------------- grammar

  /** expr ::= term | term '|' expr */
  datatype Expr = Last(term: Term) | Or(term: Term, rest: Expr)

  /** term ::= factor | term factor */
  datatype Term = Just(last: Factor) | Then(init: Term, last: Factor)

  /** factor ::= token | '(' expr ')' | '[' token+ ']' | factor quantifier */
  datatype Factor =
    | One(tok: Token)
    | Group(expr: Expr)
    | Brace(members: seq<Token>)
    | Quant(body: Factor, op: Token)

  ghost predicate WellFormedExpr(e: Expr) {
    match e
    case Last(t) => WellFormedTerm(t)
    case Or(t, r) => WellFormedTerm(t) && WellFormedExpr(r)
  }

  ghost predicate WellFormedTerm(t: Term) {
    match t
    case Just(f) => WellFormedFactor(f)
    case Then(i, f) => WellFormedTerm(i) && WellFormedFactor(f)
  }

  ghost predicate WellFormedFactor(f: Factor) {
    match f
    case One(t) => t.kind != OPERATOR
    case Group(e) => WellFormedExpr(e)
    case Brace(ms) => ms != [] && forall i :: 0 <= i < |ms| ==> ms[i].kind != OPERATOR
    case Quant(b, op) => WellFormedFactor(b) && IsQuantifier(op)
  }

  function Print(e: Expr): seq<Token> {
    match e
    case Last(t) => PrintTerm(t)
    case Or(t, r) => PrintTerm(t) + [OP_OR] + Print(r)
  }

  function PrintTerm(t: Term): seq<Token> {
    match t
    case Just(f) => PrintFactor(f)
    case Then(i, f) => PrintTerm(i) + PrintFactor(f)
  }

  function PrintFactor(f: Factor): seq<Token> {
    match f
    case One(t) => [t]
    case Group(e) => [OPEN_GROUP] + Print(e) + [CLOSE_GROUP]
    case Brace(ms) => [OPEN_BRACE] + ms + [CLOSE_BRACE]
    case Quant(b, op) => PrintFactor(b) + [op]
  }

  /** The alternatives m0 | m1 | ... a brace group stands for. */
  function Members(ms: seq<Token>): (e: Expr)
    requires ms != []
  {
    if |ms| == 1 then Last(Just(One(ms[0]))) else Or(Just(One(ms[0])), Members(ms[1..]))
  }

  function Meaning(e: Expr): Regex {
    match e
    case Last(t) => TermMeaning(t)
    case Or(t, r) => Alt(TermMeaning(t), Meaning(r))
  }

  function TermMeaning(t: Term): Regex {
    match t
    case Just(f) => FactorMeaning(f)
    case Then(i, f) => Cat(TermMeaning(i), FactorMeaning(f))
  }

  /** An empty list of members, which no well-formed pattern has, stands for the inert operator. */
  function MembersMeaning(ms: seq<Token>): Regex {
    if ms == [] then Atom(OP_OR) else if |ms| == 1 then Atom(ms[0]) else Alt(Atom(ms[0]), MembersMeaning(ms[1..]))
  }

  function FactorMeaning(f: Factor): Regex {
    match f
    case One(t) => Atom(t)
    case Group(e) => Meaning(e)
    case Brace(ms) => MembersMeaning(ms)
    case Quant(b, op) => Quantified(FactorMeaning(b), op)
  }

  function Quantified(re: Regex, op: Token): Regex {
    if op.ch == '+' then Plus(re) else if op.ch == '*' then Star(re) else Opt(re)
  }

  /** A brace group accepts exactly the single characters one of its members accepts. */
  lemma {:induction false} BraceIsUnion(ms: seq<Token>, w: string)
    requires ms != []
    ensures InLanguage(MembersMeaning(ms), w) <==> |w| == 1 && exists i :: 0 <= i < |ms| && TokenMatches(ms[i], w[0])
  {
    if |ms| == 1 {
      if |w| == 1 && TokenMatches(ms[0], w[0]) {}
    } else {
      BraceIsUnion(ms[1..], w);
      if |w| == 1 && exists i :: 0 <= i < |ms| && TokenMatches(ms[i], w[0]) {
        var i :| 0 <= i < |ms| && TokenMatches(ms[i], w[0]);
        if i > 0 { assert TokenMatches(ms[1..][i - 1], w[0]); }
      }
    }
  }

  // -------------------------------------------------------- brace expansion

  predicate IsOp(t: Token, ch: char) {
    t.kind == OPERATOR && t.ch == ch
  }

  /** Index of the first ']' operator, or the length if there is none. */
  function BraceEnd(ts: seq<Token>): (n: nat)
    ensures n <= |ts|
    ensures n < |ts| ==> IsOp(ts[n], ']')
    ensures forall i :: 0 <= i < n ==> !IsOp(ts[i], ']')
  {
    if ts == [] || IsOp(ts[0], ']') then 0 else 1 + BraceEnd(ts[1..])
  }

  /** Every '[' has a ']' after it, as the escaping pass guarantees. */
  ghost predicate BracesClosed(ts: seq<Token>)
    decreases |ts|
  {
    if ts == [] then true
    else if IsOp(ts[0], '[') then
      var n := BraceEnd(ts[1..]);
      n < |ts| - 1 && BracesClosed(ts[n + 2..])
    else BracesClosed(ts[1..])
  }

  function Separated(ms: seq<Token>): seq<Token> {
    if |ms| <= 1 then ms else [ms[0], OP_OR] + Separated(ms[1..])
  }

  ghost function Expanded(ts: seq<Token>): seq<Token>
    requires BracesClosed(ts)
    decreases |ts|
  {
    if ts == [] then []
    else if IsOp(ts[0], '[') then
      var n := BraceEnd(ts[1..]);
      [OPEN_GROUP] + Separated(ts[1..n + 1]) + [CLOSE_GROUP] + Expanded(ts[n + 2..])
    else [ts[0]] + Expanded(ts[1..])
  }

  lemma {:induction false} SeparatedSnoc(ms: seq<Token>, t: Token)
    requires ms != []
    ensures Separated(ms + [t]) == Separated(ms) + [OP_OR, t]
  {
    if |ms| == 1 {
      assert (ms + [t])[1..] == [t];
    } else {
      assert (ms + [t])[1..] == ms[1..] + [t];
      SeparatedSnoc(ms[1..], t);
    }
  }

  lemma ExpandedStep(ts: seq<Token>)
    requires BracesClosed(ts) && ts != [] && IsOp(ts[0], '[')
    ensures var n := BraceEnd(ts[1..]);
      && n + 1 < |ts| && IsOp(ts[n + 1], ']') && BracesClosed(ts[n + 2..])
      && (forall k :: 1 <= k < n + 1 ==> !IsOp(ts[k], ']'))
      && Expanded(ts) == [OPEN_GROUP] + Separated(ts[1..n + 1]) + [CLOSE_GROUP] + Expanded(ts[n + 2..])
  {
    var n := BraceEnd(ts[1..]);
    assert ts[1..][n] == ts[n + 1];
    assert forall k :: 1 <= k < n + 1 ==> ts[k] == ts[1..][k - 1];
  }

  /** Copies one brace group, from just after '[' up to its ']'. */
  method ExpandGroup(tokens: seq<Token>, first: nat, ghost last: nat) returns (group: seq<Token>, itr: nat)
    requires first <= last < |tokens| && IsOp(tokens[last], ']')
    requires forall k :: first <= k < last ==> !IsOp(tokens[k], ']')
    ensures itr == last && group == [OPEN_GROUP] + Separated(tokens[first..last]) + [CLOSE_GROUP]
  {
    group := [OPEN_GROUP];
    itr := first;
    if !IsOp(tokens[itr], ']') {
      group := group + [tokens[itr]];
      itr := itr + 1;
      assert tokens[first..itr] == [tokens[first]];
      while !IsOp(tokens[itr], ']')
        invariant first < itr <= last
        invariant group == [OPEN_GROUP] + Separated(tokens[first..itr])
        decreases last - itr
      {
        SeparatedSnoc(tokens[first..itr], tokens[itr]);
        assert tokens[first..itr + 1] == tokens[first..itr] + [tokens[itr]];
        group := group + [OP_OR];
        group := group + [tokens[itr]];
        itr := itr + 1;
      }
    }
    group := group + [CLOSE_GROUP];
  }

  /** The brace group that starts at index i, seen from there. */
  lemma ExpandedAt(ts: seq<Token>, i: nat) returns (last: nat)
    requires i < |ts| && BracesClosed(ts[i..]) && IsOp(ts[i], '[')
    ensures i < last < |ts| && IsOp(ts[last], ']') && BracesClosed(ts[last + 1..])
    ensures forall k :: i < k < last ==> !IsOp(ts[k], ']')
    ensures Expanded(ts[i..]) == [OPEN_GROUP] + Separated(ts[i + 1..last]) + [CLOSE_GROUP] + Expanded(ts[last + 1..])
  {
    var rest := ts[i..];
    ExpandedStep(rest);
    hide Expanded, Separated, BracesClosed;
    var n := BraceEnd(rest[1..]);
    last := i + 1 + n;
    assert rest[n + 2..] == ts[last + 1..];
    assert rest[1..n + 1] == ts[i + 1..last];
    forall k | i < k < last ensures !IsOp(ts[k], ']') { assert ts[k] == rest[k - i]; }
  }

  method ExpandPattern(tokens: seq<Token>) returns (retVal: seq<Token>)
    requires BracesClosed(tokens)
    ensures retVal == Expanded(tokens)
  {
    retVal := [];
    var itr := 0;
    while itr < |tokens|
      invariant itr <= |tokens|
      invariant BracesClosed(tokens[itr..])
      invariant Expanded(tokens) == retVal + Expanded(tokens[itr..])
    {
      if IsOp(tokens[itr], '[') {
        ghost var last := ExpandedAt(tokens, itr);
        var group;
        group, itr := ExpandGroup(tokens, itr + 1, last);
        Assoc(retVal, group, Expanded(tokens[last + 1..]));
        retVal := retVal + group;
      } else {
        assert tokens[itr..][1..] == tokens[itr + 1..];
        Assoc(retVal, [tokens[itr]], Expanded(tokens[itr + 1..]));
        retVal := retVal + [tokens[itr]];
      }
      itr := itr + 1;
    }
  }

  /** Brace groups rewritten to ordinary groups. */
  function Desugar(e: Expr): (r: Expr)
    requires WellFormedExpr(e)
    ensures WellFormedExpr(r) && Meaning(r) == Meaning(e)
  {
    match e
    case Last(t) => Last(DesugarTerm(t))
    case Or(t, r) => Or(DesugarTerm(t), Desugar(r))
  }

  function DesugarTerm(t: Term): (r: Term)
    requires WellFormedTerm(t)
    ensures WellFormedTerm(r) && TermMeaning(r) == TermMeaning(t)
  {
    match t
    case Just(f) => Just(DesugarFactor(f))
    case Then(i, f) => Then(DesugarTerm(i), DesugarFactor(f))
  }

  function DesugarFactor(f: Factor): (r: Factor)
    requires WellFormedFactor(f)
    ensures WellFormedFactor(r) && FactorMeaning(r) == FactorMeaning(f)
  {
    match f
    case One(_) => f
    case Group(e) => Group(Desugar(e))
    case Brace(ms) => MembersAreAlternatives(ms); Group(Members(ms))
    case Quant(b, op) => Quant(DesugarFactor(b), op)
  }

  lemma {:induction false} MembersAreAlternatives(ms: seq<Token>)
    requires ms != [] && forall i :: 0 <= i < |ms| ==> ms[i].kind != OPERATOR
    ensures WellFormedExpr(Members(ms)) && Meaning(Members(ms)) == MembersMeaning(ms)
    ensures Print(Members(ms)) == Separated(ms)
  {
    var t := Just(One(ms[0]));
    var f := t.last;
    assert f == One(ms[0]) && FactorMeaning(f) == Atom(ms[0]) && WellFormedFactor(f) && PrintFactor(f) == [ms[0]];
    assert WellFormedTerm(t) && TermMeaning(t) == FactorMeaning(f) && PrintTerm(t) == PrintFactor(f);
    if |ms| == 1 {
      assert Members(ms) == Last(t);
    } else {
      MembersAreAlternatives(ms[1..]);
      assert Members(ms) == Or(t, Members(ms[1..]));
      assert [ms[0]] + [OP_OR] == [ms[0], OP_OR];
    }
  }

  lemma {:induction false} BraceEndAt(ms: seq<Token>, rest: seq<Token>)
    requires forall i :: 0 <= i < |ms| ==> ms[i].kind != OPERATOR
    ensures BraceEnd(ms + [CLOSE_BRACE] + rest) == |ms|
  {
    var ts := ms + [CLOSE_BRACE] + rest;
    var n := BraceEnd(ts);
    assert IsOp(ts[|ms|], ']');
    assert forall i :: 0 <= i < |ms| ==> ts[i] == ms[i];
    assert n <= |ms|;
  }

  lemma AssocFour<T>(a: seq<T>, b: seq<T>, c: seq<T>, d: seq<T>)
    ensures a + b + c + d == a + (b + (c + d))
  {
  }

  lemma ExpandToken(t: Token, rest: seq<Token>)
    requires !IsOp(t, '[') && BracesClosed(rest)
    ensures BracesClosed([t] + rest) && Expanded([t] + rest) == [t] + Expanded(rest)
  {
    assert ([t] + rest)[1..] == rest;
  }

  lemma {:induction false} ExpandBrace(ms: seq<Token>, rest: seq<Token>)
    requires ms != [] && forall i :: 0 <= i < |ms| ==> ms[i].kind != OPERATOR
    requires BracesClosed(rest)
    ensures BracesClosed(PrintFactor(Brace(ms)) + rest)
    ensures Expanded(PrintFactor(Brace(ms)) + rest) == PrintFactor(Group(Members(ms))) + Expanded(rest)
  {
    var all := PrintFactor(Brace(ms)) + rest;
    assert all[1..] == ms + [CLOSE_BRACE] + rest;
    BraceEndAt(ms, rest);
    assert all[1..|ms| + 1] == ms;
    assert all[|ms| + 2..] == rest;
    MembersAreAlternatives(ms);
  }

  /** Expansion of a printed pattern is the printed pattern with its braces rewritten. */
  lemma {:induction false} ExpandPrinted(e: Expr, rest: seq<Token>)
    requires WellFormedExpr(e) && BracesClosed(rest)
    ensures BracesClosed(Print(e) + rest)
    ensures Expanded(Print(e) + rest) == Print(Desugar(e)) + Expanded(rest)
    decreases e
  {
    match e
    case Last(t) => ExpandPrintedTerm(t, rest);
    case Or(t, r) =>
      ExpandPrinted(r, rest);
      var tail := Print(r) + rest;
      ExpandToken(OP_OR, tail);
      ExpandPrintedTerm(t, [OP_OR] + tail);
      AssocFour(PrintTerm(t), [OP_OR], Print(r), rest);
      AssocFour(PrintTerm(DesugarTerm(t)), [OP_OR], Print(Desugar(r)), Expanded(rest));
  }

  lemma {:induction false} ExpandPrintedTerm(t: Term, rest: seq<Token>)
    requires WellFormedTerm(t) && BracesClosed(rest)
    ensures BracesClosed(PrintTerm(t) + rest)
    ensures Expanded(PrintTerm(t) + rest) == PrintTerm(DesugarTerm(t)) + Expanded(rest)
    decreases t
  {
    match t
    case Just(f) => ExpandPrintedFactor(f, rest);
    case Then(i, f) =>
      ExpandPrintedFactor(f, rest);
      ExpandPrintedTerm(i, PrintFactor(f) + rest);
      Assoc(PrintTerm(i), PrintFactor(f), rest);
      Assoc(PrintTerm(DesugarTerm(i)), PrintFactor(DesugarFactor(f)), Expanded(rest));
  }

  lemma {:induction false} ExpandPrintedFactor(f: Factor, rest: seq<Token>)
    requires WellFormedFactor(f) && BracesClosed(rest)
    ensures BracesClosed(PrintFactor(f) + rest)
    ensures Expanded(PrintFactor(f) + rest) == PrintFactor(DesugarFactor(f)) + Expanded(rest)
    decreases f
  {
    match f
    case One(t) => ExpandToken(t, rest);
    case Group(e) =>
      ExpandToken(CLOSE_GROUP, rest);
      ExpandPrinted(e, [CLOSE_GROUP] + rest);
      ExpandToken(OPEN_GROUP, Print(e) + ([CLOSE_GROUP] + rest));
      AssocFour([OPEN_GROUP], Print(e), [CLOSE_GROUP], rest);
      AssocFour([OPEN_GROUP], Print(Desugar(e)), [CLOSE_GROUP], Expanded(rest));
    case Brace(ms) => ExpandBrace(ms, rest);
    case Quant(b, op) =>
      ExpandToken(op, rest);
      ExpandPrintedFactor(b, [op] + rest);
      Assoc(PrintFactor(b), [op], rest);
      Assoc(PrintFactor(DesugarFactor(b)), [op], Expanded(rest));
  }

  // --------------------------------------------------------- reference parser

  datatype Pending = Nothing | Have(term: Term)

  /** One open group: the alternatives already closed by '|', and the one being read. */
  datatype Frame = Frame(closed: Stack<Term>, cur: Pending)

  datatype Parse = Reading(below: Stack<Frame>, top: Frame) | NoOperand | EmptyAlternative | Stray

  function AddFactor(p: Pending, f: Factor): Pending {
    match p
    case Nothing => Have(Just(f))
    case Have(t) => Have(Then(t, f))
  }

  function WithFactor(f: Frame, g: Factor): Frame {
    Frame(f.closed, AddFactor(f.cur, g))
  }

  function QuantifyLast(t: Term, op: Token): Term {
    match t
    case Just(f) => Just(Quant(f, op))
    case Then(i, f) => Then(i, Quant(f, op))
  }

  /** The alternatives of a group, the last one already an expression. */
  function Chain(closed: Stack<Term>, e: Expr): Expr {
    match closed
    case Bottom => e
    case Push(c, t) => Chain(c, Or(t, e))
  }

  function ParseStep(p: Parse, t: Token): Parse {
    if !p.Reading? then p
    else if t.kind != OPERATOR then Reading(p.below, WithFactor(p.top, One(t)))
    else if t.ch == '(' then Reading(Push(p.below, p.top), Frame(Bottom, Nothing))
    else if t.ch == ')' then
      if p.below.Bottom? then Stray
      else if p.top.cur.Nothing? then EmptyAlternative
      else Reading(p.below.below, WithFactor(p.below.top, Group(Chain(p.top.closed, Last(p.top.cur.term)))))
    else if t.ch == '|' then
      if p.top.cur.Nothing? then NoOperand
      else Reading(p.below, Frame(Push(p.top.closed, p.top.cur.term), Nothing))
    else if IsQuantifier(t) then
      if p.top.cur.Nothing? then NoOperand
      else Reading(p.below, Frame(p.top.closed, Have(QuantifyLast(p.top.cur.term, t))))
    else p
  }

  function ParseFrom(p: Parse, ts: seq<Token>): Parse {
    if ts == [] then p else ParseStep(ParseFrom(p, ts[..|ts| - 1]), ts[|ts| - 1])
  }

  const START := Reading(Bottom, Frame(Bottom, Nothing))

  datatype Outcome = Tree(expr: Expr) | MissingOperand | Runaway | Unbalanced

  function Finish(p: Parse): Outcome {
    match p
    case NoOperand => MissingOperand
    case EmptyAlternative => Runaway
    case Stray => Unbalanced
    case Reading(below, top) =>
      if below.Push? then Unbalanced
      else if top.cur.Nothing? then Runaway
      else Tree(Chain(top.closed, Last(top.cur.term)))
  }

  /** The tree a token list denotes, or why it denotes none. */
  function ParseTokens(ts: seq<Token>): Outcome {
    Finish(ParseFrom(START, ts))
  }

  lemma {:induction false} ParseConcat(p: Parse, a: seq<Token>, b: seq<Token>)
    ensures ParseFrom(p, a + b) == ParseFrom(ParseFrom(p, a), b)
  {
    if b == [] {
      assert a + b == a;
    } else {
      var n := |b| - 1;
      assert (a + b)[..|a + b| - 1] == a + b[..n];
      ParseConcat(p, a, b[..n]);
    }
  }

  // ------------------------------------------- the parser inverts the printer

  ghost predicate BraceFreeExpr(e: Expr) {
    match e
    case Last(t) => BraceFreeTerm(t)
    case Or(t, r) => BraceFreeTerm(t) && BraceFreeExpr(r)
  }

  ghost predicate BraceFreeTerm(t: Term) {
    match t
    case Just(f) => BraceFreeFactor(f)
    case Then(i, f) => BraceFreeTerm(i) && BraceFreeFactor(f)
  }

  ghost predicate BraceFreeFactor(f: Factor) {
    match f
    case One(_) => true
    case Group(e) => BraceFreeExpr(e)
    case Brace(_) => false
    case Quant(b, _) => BraceFreeFactor(b)
  }

  lemma {:induction false} DesugaredIsBraceFree(e: Expr)
    requires WellFormedExpr(e)
    ensures BraceFreeExpr(Desugar(e))
    decreases e
  {
    match e
    case Last(t) => DesugaredTermIsBraceFree(t);
    case Or(t, r) => DesugaredTermIsBraceFree(t); DesugaredIsBraceFree(r);
  }

  lemma {:induction false} DesugaredTermIsBraceFree(t: Term)
    requires WellFormedTerm(t)
    ensures BraceFreeTerm(DesugarTerm(t))
    decreases t
  {
    match t
    case Just(f) => DesugaredFactorIsBraceFree(f);
    case Then(i, f) => DesugaredTermIsBraceFree(i); DesugaredFactorIsBraceFree(f);
  }

  lemma {:induction false} DesugaredFactorIsBraceFree(f: Factor)
    requires WellFormedFactor(f)
    ensures BraceFreeFactor(DesugarFactor(f))
    decreases f
  {
    match f
    case One(_) =>
    case Group(e) => DesugaredIsBraceFree(e);
    case Brace(ms) => MembersAreBraceFree(ms);
    case Quant(b, _) => DesugaredFactorIsBraceFree(b);
  }

  lemma MembersAreBraceFree(ms: seq<Token>)
    requires ms != []
    ensures BraceFreeExpr(Members(ms))
  {
  }

  /** The alternatives of e but the last, put on those already closed. */
  function Opened(closed: Stack<Term>, e: Expr): Stack<Term>
    decreases e
  {
    match e
    case Last(_) => closed
    case Or(t, r) => Opened(Push(closed, t), r)
  }

  function Final(e: Expr): Term {
    match e
    case Last(t) => t
    case Or(_, r) => Final(r)
  }

  lemma {:induction false} ChainOfParts(closed: Stack<Term>, e: Expr)
    ensures Chain(Opened(closed, e), Last(Final(e))) == Chain(closed, e)
    decreases e
  {
    if e.Or? { ChainOfParts(Push(closed, e.term), e.rest); }
  }

  lemma ParseOne(p: Parse, t: Token)
    ensures ParseFrom(p, [t]) == ParseStep(p, t)
  {
    assert [t][..0] == [];
  }

  lemma {:induction false} ParsePrintedExpr(e: Expr, below: Stack<Frame>, closed: Stack<Term>)
    requires WellFormedExpr(e) && BraceFreeExpr(e)
    ensures ParseFrom(Reading(below, Frame(closed, Nothing)), Print(e))
         == Reading(below, Frame(Opened(closed, e), Have(Final(e))))
    decreases e
  {
    match e
    case Last(t) => ParsePrintedTerm(t, below, closed);
    case Or(t, r) =>
      var start := Reading(below, Frame(closed, Nothing));
      ParsePrintedTerm(t, below, closed);
      ParseConcat(start, PrintTerm(t) + [OP_OR], Print(r));
      ParseConcat(start, PrintTerm(t), [OP_OR]);
      ParseOne(Reading(below, Frame(closed, Have(t))), OP_OR);
      ParsePrintedExpr(r, below, Push(closed, t));
  }

  lemma {:induction false} ParsePrintedTerm(t: Term, below: Stack<Frame>, closed: Stack<Term>)
    requires WellFormedTerm(t) && BraceFreeTerm(t)
    ensures ParseFrom(Reading(below, Frame(closed, Nothing)), PrintTerm(t))
         == Reading(below, Frame(closed, Have(t)))
    decreases t
  {
    match t
    case Just(f) => ParsePrintedFactor(f, below, Frame(closed, Nothing));
    case Then(i, f) =>
      ParsePrintedTerm(i, below, closed);
      ParsePrintedFactor(f, below, Frame(closed, Have(i)));
      ParseConcat(Reading(below, Frame(closed, Nothing)), PrintTerm(i), PrintFactor(f));
  }

  lemma {:induction false} ParsePrintedFactor(f: Factor, below: Stack<Frame>, top: Frame)
    requires WellFormedFactor(f) && BraceFreeFactor(f)
    ensures ParseFrom(Reading(below, top), PrintFactor(f)) == Reading(below, WithFactor(top, f))
    decreases f
  {
    var start := Reading(below, top);
    hide ParseFrom;
    match f
    case One(t) => ParseOne(start, t);
    case Group(e) =>
      ParseOne(start, OPEN_GROUP);
      ParsePrintedExpr(e, Push(below, top), Bottom);
      ParseConcat(start, [OPEN_GROUP], Print(e));
      ParseConcat(start, [OPEN_GROUP] + Print(e), [CLOSE_GROUP]);
      ChainOfParts(Bottom, e);
      ParseOne(Reading(Push(below, top), Frame(Opened(Bottom, e), Have(Final(e)))), CLOSE_GROUP);
    case Quant(b, op) =>
      ParsePrintedFactor(b, below, top);
      ParseConcat(start, PrintFactor(b), [op]);
      ParseOne(Reading(below, WithFactor(top, b)), op);
  }

  /** Parsing a printed pattern gives the pattern back. */
  lemma {:induction false} ParsePrint(e: Expr)
    requires WellFormedExpr(e) && BraceFreeExpr(e)
    ensures ParseTokens(Print(e)) == Tree(e)
  {
    ParsePrintedExpr(e, Bottom, Bottom);
    ChainOfParts(Bottom, e);
  }

  /** Tokens the conversion acts on; any other operator is passed over. */
  predicate Acts(t: Token) {
    t.kind != OPERATOR || t.ch == '(' || t.ch == ')' || t.ch == '|' || IsQuantifier(t)
  }

  function Significant(ts: seq<Token>): seq<Token> {
    if ts == [] then []
    else
      var n := |ts| - 1;
      Significant(ts[..n]) + if Acts(ts[n]) then [ts[n]] else []
  }

  function PrintClosed(closed: Stack<Term>): seq<Token> {
    match closed
    case Bottom => []
    case Push(c, t) => PrintClosed(c) + (PrintTerm(t) + [OP_OR])
  }

  function PrintFrame(f: Frame): seq<Token> {
    match f.cur
    case Nothing => PrintClosed(f.closed)
    case Have(t) => PrintClosed(f.closed) + PrintTerm(t)
  }

  /** Everything read before the innermost group. */
  function PrintBelow(below: Stack<Frame>): seq<Token> {
    match below
    case Bottom => []
    case Push(b, f) => PrintBelow(b) + PrintFrame(f) + [OPEN_GROUP]
  }

  ghost predicate GoodTerms(closed: Stack<Term>) {
    closed.Push? ==> WellFormedTerm(closed.top) && BraceFreeTerm(closed.top) && GoodTerms(closed.below)
  }

  ghost predicate GoodFrame(f: Frame) {
    GoodTerms(f.closed) && (f.cur.Have? ==> WellFormedTerm(f.cur.term) && BraceFreeTerm(f.cur.term))
  }

  ghost predicate GoodBelow(below: Stack<Frame>) {
    below.Push? ==> GoodFrame(below.top) && GoodBelow(below.below)
  }

  lemma {:induction false} ChainPrints(closed: Stack<Term>, e: Expr)
    requires GoodTerms(closed) && WellFormedExpr(e) && BraceFreeExpr(e)
    ensures Print(Chain(closed, e)) == PrintClosed(closed) + Print(e)
    ensures WellFormedExpr(Chain(closed, e)) && BraceFreeExpr(Chain(closed, e))
  {
    if closed.Push? {
      ChainPrints(closed.below, Or(closed.top, e));
      Assoc(PrintClosed(closed.below), PrintTerm(closed.top) + [OP_OR], Print(e));
    }
  }

  lemma WithFactorPrints(f: Frame, g: Factor)
    requires GoodFrame(f) && WellFormedFactor(g) && BraceFreeFactor(g)
    ensures GoodFrame(WithFactor(f, g))
    ensures PrintFrame(WithFactor(f, g)) == PrintFrame(f) + PrintFactor(g)
  {
    if f.cur.Have? {
      Assoc(PrintClosed(f.closed), PrintTerm(f.cur.term), PrintFactor(g));
    }
  }

  lemma QuantifyLastPrints(t: Term, op: Token)
    requires WellFormedTerm(t) && BraceFreeTerm(t) && IsQuantifier(op)
    ensures WellFormedTerm(QuantifyLast(t, op)) && BraceFreeTerm(QuantifyLast(t, op))
    ensures PrintTerm(QuantifyLast(t, op)) == PrintTerm(t) + [op]
  {
  }

  ghost predicate GoodParse(p: Parse) {
    p.Reading? && GoodBelow(p.below) && GoodFrame(p.top)
  }

  function PrintParsed(p: Parse): seq<Token>
    requires p.Reading?
  {
    PrintBelow(p.below) + PrintFrame(p.top)
  }

  lemma {:induction false} StepPrints(p: Parse, t: Token)
    requires GoodParse(p) && ParseStep(p, t).Reading? && Acts(t)
    ensures GoodParse(ParseStep(p, t)) && PrintParsed(ParseStep(p, t)) == PrintParsed(p) + [t]
  {
    var top := p.top;
    if t.kind != OPERATOR {
      WithFactorPrints(top, One(t));
    } else if t.ch == ')' {
      var e := Chain(top.closed, Last(top.cur.term));
      ChainPrints(top.closed, Last(top.cur.term));
      WithFactorPrints(p.below.top, Group(e));
      var low, f := PrintBelow(p.below.below), PrintFrame(p.below.top);
      Assoc(low, f, PrintFactor(Group(e)));
      Assoc(low + f, [OPEN_GROUP] + Print(e), [t]);
      Assoc(low + f, [OPEN_GROUP], Print(e));
    } else if t.ch == '|' {
      Assoc(PrintClosed(top.closed), PrintTerm(top.cur.term), [t]);
    } else if IsQuantifier(t) {
      QuantifyLastPrints(top.cur.term, t);
      Assoc(PrintClosed(top.closed), PrintTerm(top.cur.term), [t]);
    }
    if t.kind != OPERATOR || t.ch == '|' || IsQuantifier(t) {
      Assoc(PrintBelow(p.below), PrintFrame(top), [t]);
    }
  }

  lemma {:induction false} RunPrints(ts: seq<Token>)
    requires ParseFrom(START, ts).Reading?
    ensures GoodParse(ParseFrom(START, ts)) && PrintParsed(ParseFrom(START, ts)) == Significant(ts)
  {
    if ts != [] {
      var n := |ts| - 1;
      RunPrints(ts[..n]);
      var p := ParseFrom(START, ts[..n]);
      if Acts(ts[n]) {
        StepPrints(p, ts[n]);
      } else {
        StepIgnoresInert(p, ts[n]);
      }
    }
  }

  /** A token list that parses is, its inert operators aside, the printed form of its tree. */
  lemma {:induction false} PrintParse(ts: seq<Token>)
    requires ParseTokens(ts).Tree?
    ensures var e := ParseTokens(ts).expr;
      WellFormedExpr(e) && BraceFreeExpr(e) && Print(e) == Significant(ts)
  {
    RunPrints(ts);
    var f := ParseFrom(START, ts).top;
    ChainPrints(f.closed, Last(f.cur.term));
  }

  lemma {:induction false} StepIgnoresInert(p: Parse, t: Token)
    requires !Acts(t)
    ensures ParseStep(p, t) == p
  {
  }

  lemma {:induction false} ParseSignificant(ts: seq<Token>)
    ensures ParseFrom(START, ts) == ParseFrom(START, Significant(ts))
  {
    if ts != [] {
      var n := |ts| - 1;
      ParseSignificant(ts[..n]);
      var s := Significant(ts[..n]);
      if Acts(ts[n]) {
        assert (s + [ts[n]])[..|s|] == s;
      } else {
        StepIgnoresInert(ParseFrom(START, s), ts[n]);
        assert s + [] == s;
      }
    }
  }

  /** A token list has a tree exactly when some well-formed pattern prints to it. */
  lemma {:induction false} ParsesIffPrinted(ts: seq<Token>)
    ensures ParseTokens(ts).Tree? <==>
      exists e :: WellFormedExpr(e) && BraceFreeExpr(e) && Print(e) == Significant(ts)
  {
    ParseSignificant(ts);
    if ParseTokens(ts).Tree? { PrintParse(ts); }
    if e :| WellFormedExpr(e) && BraceFreeExpr(e) && Print(e) == Significant(ts) {
      ParsePrint(e);
    }
  }
}
