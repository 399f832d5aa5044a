/**
  The infix to postfix conversion of CORE/UTIL/regex.cpp, with its stacks of
  pending alternatives and pending literals, refined against the reference
  parser: the output is a program for one operand, the pattern's own tree.
 */
module RegexPostfix {
  import opened Basics
  import opened RegexSyntax
  import opened RegexParser

  // ------------------------------------------------------- postfix programs

  datatype Operands = Underflow | Operands(trees: Stack<Regex>)

  /** What one postfix token does to a stack of trees. */
  function Apply(s: Operands, t: Token): Operands {
    match s
    case Underflow => Underflow
    case Operands(trees) =>
      if t.kind != OPERATOR then Operands(Push(trees, Atom(t)))
      else if IsQuantifier(t) then
        match trees {
          case Push(b, x) => Operands(Push(b, Quantified(x, t)))
          case Bottom => Underflow
        }
      else if t == OP_CONCAT || t == OP_OR then
        match trees {
          case Push(Push(b, x), y) => Operands(Push(b, if t == OP_OR then Alt(x, y) else Cat(x, y)))
          case _ => Underflow
        }
      else s
  }

  function Evaluate(ts: seq<Token>): Operands {
    if ts == [] then Operands(Bottom) else Apply(Evaluate(ts[..|ts| - 1]), ts[|ts| - 1])
  }

  lemma {:induction false} EvaluateSnoc(ts: seq<Token>, t: Token)
    ensures Evaluate(ts + [t]) == Apply(Evaluate(ts), t)
  {
    assert (ts + [t])[..|ts|] == ts;
  }

  lemma {:induction false} EvaluatePrefix(ts: seq<Token>, i: nat)
    requires i <= |ts| && Evaluate(ts).Operands?
    ensures Evaluate(ts[..i]).Operands?
  {
    if i < |ts| {
      var n := |ts| - 1;
      EvaluatePrefix(ts[..n], i);
      assert ts[..n][..i] == ts[..i];
    } else {
      assert ts[..i] == ts;
    }
  }

  // ------------------------------------------------------ balanced brackets

  /** With d groups open, the rest closes them all and never closes more. */
  ghost predicate Balanced(ts: seq<Token>, d: nat) {
    if ts == [] then d == 0
    else if IsOp(ts[0], '(') then Balanced(ts[1..], d + 1)
    else if IsOp(ts[0], ')') then d > 0 && Balanced(ts[1..], d - 1)
    else Balanced(ts[1..], d)
  }

  /** What follows a separated brace group may assume of the depth it is entered at. */
  lemma {:induction false} SeparatedBalanced(ms: seq<Token>, x: seq<Token>, y: seq<Token>, d: nat, d': nat)
    requires Balanced(ms + x, d) && d <= d'
    requires forall a: nat, b: nat :: Balanced(x, a) && b - a == d' - d ==> Balanced(y, b)
    ensures Balanced(Separated(ms) + y, d')
  {
    if ms == [] {
      assert ms + x == x && Separated(ms) + y == y;
    } else {
      var tail := ms[1..];
      assert (ms + x)[1..] == tail + x;
      var a := if IsOp(ms[0], '(') then d + 1 else if IsOp(ms[0], ')') then d - 1 else d;
      SeparatedBalanced(tail, x, y, a, a + d' - d);
      var zs := Separated(tail) + y;
      if |ms| == 1 {
        assert tail == [] && Separated(ms) + y == [ms[0]] + zs;
        assert ([ms[0]] + zs)[1..] == zs;
      } else {
        assert ([OP_OR] + zs)[1..] == zs;
        assert Balanced([OP_OR] + zs, a + d' - d);
        assert Separated(ms) + y == [ms[0]] + ([OP_OR] + zs);
        assert ([ms[0]] + ([OP_OR] + zs))[1..] == [OP_OR] + zs;
      }
    }
  }

  lemma {:induction false} BalancedClose(rest: seq<Token>, t: Token, a: nat)
    requires IsOp(t, ']') || IsOp(t, ')')
    ensures IsOp(t, ']') ==> (Balanced([t] + rest, a) <==> Balanced(rest, a))
    ensures IsOp(t, ')') ==> (Balanced([t] + rest, a) <==> a > 0 && Balanced(rest, a - 1))
  {
    assert ([t] + rest)[1..] == rest;
  }

  /** Brace expansion keeps the groups balanced. */
  lemma {:induction false} ExpandedBalanced(ts: seq<Token>, d: nat)
    requires BracesClosed(ts) && Balanced(ts, d)
    ensures Balanced(Expanded(ts), d)
    decreases |ts|, 1
  {
    if ts == [] {
    } else if IsOp(ts[0], '[') {
      ExpandedBalancedBrace(ts, d);
    } else {
      var a := if IsOp(ts[0], '(') then d + 1 else if IsOp(ts[0], ')') then d - 1 else d;
      ExpandedBalanced(ts[1..], a);
      assert ([ts[0]] + Expanded(ts[1..]))[1..] == Expanded(ts[1..]);
    }
  }

  lemma {:induction false} ExpandedBalancedBrace(ts: seq<Token>, d: nat)
    requires BracesClosed(ts) && Balanced(ts, d) && ts != [] && IsOp(ts[0], '[')
    ensures Balanced(Expanded(ts), d)
    decreases |ts|, 0
  {
    ExpandedStep(ts);
    var n := BraceEnd(ts[1..]);
    var ms, rest := ts[1..n + 1], ts[n + 2..];
    var x, y := [ts[n + 1]] + rest, [CLOSE_GROUP] + Expanded(rest);
    assert ts[1..] == ms + x;
    forall a: nat, b: nat | Balanced(x, a) && b - a == 1 ensures Balanced(y, b) {
      BalancedClose(rest, ts[n + 1], a);
      ExpandedBalanced(rest, a);
      BalancedClose(Expanded(rest), CLOSE_GROUP, b);
    }
    SeparatedBalanced(ms, x, y, d, d + 1);
    AssocFour([OPEN_GROUP], Separated(ms), [CLOSE_GROUP], Expanded(rest));
    assert ([OPEN_GROUP] + (Separated(ms) + y))[1..] == Separated(ms) + y;
  }

  lemma BalancedToken(t: Token, rest: seq<Token>, d: nat)
    requires !IsOp(t, '(') && !IsOp(t, ')') && Balanced(rest, d)
    ensures Balanced([t] + rest, d)
  {
    assert ([t] + rest)[1..] == rest;
  }

  lemma {:induction false} BalancedMembers(ms: seq<Token>, rest: seq<Token>, d: nat)
    requires (forall i :: 0 <= i < |ms| ==> ms[i].kind != OPERATOR) && Balanced(rest, d)
    ensures Balanced(ms + rest, d)
  {
    if ms == [] {
      assert ms + rest == rest;
    } else {
      BalancedMembers(ms[1..], rest, d);
      BalancedToken(ms[0], ms[1..] + rest, d);
      assert [ms[0]] + (ms[1..] + rest) == ms + rest;
    }
  }

  /** A printed pattern closes every group it opens. */
  lemma {:induction false} PrintedBalanced(e: Expr, rest: seq<Token>, d: nat)
    requires WellFormedExpr(e) && Balanced(rest, d)
    ensures Balanced(Print(e) + rest, d)
    decreases e
  {
    match e
    case Last(t) => PrintedTermBalanced(t, rest, d);
    case Or(t, r) =>
      PrintedBalanced(r, rest, d);
      BalancedToken(OP_OR, Print(r) + rest, d);
      PrintedTermBalanced(t, [OP_OR] + (Print(r) + rest), d);
      AssocFour(PrintTerm(t), [OP_OR], Print(r), rest);
  }

  lemma {:induction false} PrintedTermBalanced(t: Term, rest: seq<Token>, d: nat)
    requires WellFormedTerm(t) && Balanced(rest, d)
    ensures Balanced(PrintTerm(t) + rest, d)
    decreases t
  {
    match t
    case Just(f) => PrintedFactorBalanced(f, rest, d);
    case Then(i, f) =>
      PrintedFactorBalanced(f, rest, d);
      PrintedTermBalanced(i, PrintFactor(f) + rest, d);
      Assoc(PrintTerm(i), PrintFactor(f), rest);
  }

  lemma {:induction false} PrintedFactorBalanced(f: Factor, rest: seq<Token>, d: nat)
    requires WellFormedFactor(f) && Balanced(rest, d)
    ensures Balanced(PrintFactor(f) + rest, d)
    decreases f
  {
    match f
    case One(t) => BalancedToken(t, rest, d);
    case Group(e) =>
      BalancedClose(rest, CLOSE_GROUP, d + 1);
      PrintedBalanced(e, [CLOSE_GROUP] + rest, d + 1);
      AssocFour([OPEN_GROUP], Print(e), [CLOSE_GROUP], rest);
      assert ([OPEN_GROUP] + (Print(e) + ([CLOSE_GROUP] + rest)))[1..] == Print(e) + ([CLOSE_GROUP] + rest);
    case Brace(ms) =>
      BalancedToken(CLOSE_BRACE, rest, d);
      BalancedMembers(ms, [CLOSE_BRACE] + rest, d);
      BalancedToken(OPEN_BRACE, ms + ([CLOSE_BRACE] + rest), d);
      AssocFour([OPEN_BRACE], ms, [CLOSE_BRACE], rest);
    case Quant(b, op) =>
      BalancedToken(op, rest, d);
      PrintedFactorBalanced(b, [op] + rest, d);
      Assoc(PrintFactor(b), [op], rest);
  }

  // ------------------------------------------------------------- conversion

  datatype Conversion = Postfix(tokens: seq<Token>) | Missing | RunsAway

  /** The operands of closed alternatives, on top of those below them. */
  function TermTrees(base: Stack<Regex>, closed: Stack<Term>): Stack<Regex> {
    match closed
    case Bottom => base
    case Push(c, t) => Push(TermTrees(base, c), TermMeaning(t))
  }

  /** The operands a pending term holds when `lits` of them are still apart. */
  function PendingTrees(base: Stack<Regex>, p: Pending, lits: int): Stack<Regex> {
    match p
    case Nothing => base
    case Have(t) =>
      if lits == 2 && t.Then? then Push(Push(base, TermMeaning(t.init)), FactorMeaning(t.last))
      else Push(base, TermMeaning(t))
  }

  function FrameTrees(base: Stack<Regex>, f: Frame, lits: int): Stack<Regex> {
    PendingTrees(TermTrees(base, f.closed), f.cur, lits)
  }

  /** The operands of all groups but the innermost, whose counters are in `lits`. */
  function BelowTrees(below: Stack<Frame>, lits: Stack<int>): Stack<Regex> {
    match (below, lits)
    case (Push(b, f), Push(l, n)) => FrameTrees(BelowTrees(b, l), f, n)
    case _ => Bottom
  }

  ghost predicate Counts(f: Frame, alts: int, lits: int) {
    alts == Height(f.closed) && 0 <= lits <= 2 && (lits == 0 <==> f.cur.Nothing?)
  }

  /** Innermost group: a pending literal still apart is the last factor read. */
  ghost predicate CountsTop(f: Frame, alts: int, lits: int) {
    Counts(f, alts, lits) && (lits == 2 ==> f.cur.term.Then?) && (lits == 1 ==> f.cur.term.Just?)
  }

  /** Groups around the innermost one have joined their pending literals. */
  ghost predicate CountsBelow(below: Stack<Frame>, alts: Stack<int>, lits: Stack<int>) {
    match below
    case Bottom => alts.Bottom? && lits.Bottom?
    case Push(b, f) =>
      alts.Push? && lits.Push? && lits.top <= 1 && Counts(f, alts.top, lits.top) &&
        CountsBelow(b, alts.below, lits.below)
  }

  /** Output and counter stacks of the conversion after the tokens that led the parser to p. */
  ghost predicate Converting(ret: seq<Token>, alts: Stack<int>, lits: Stack<int>, p: Parse) {
    && p.Reading? && alts.Push? && lits.Push?
    && CountsBelow(p.below, alts.below, lits.below)
    && CountsTop(p.top, alts.top, lits.top)
    && Evaluate(ret) == Operands(FrameTrees(BelowTrees(p.below, lits.below), p.top, lits.top))
  }

  /** Emits the concatenations still pending in the current alternative. */
  method EmitConcats(ret0: seq<Token>, lits: int, ghost base: Stack<Regex>, ghost t: Term) returns (ret: seq<Token>)
    requires 1 <= lits <= 2 && (lits == 2 ==> t.Then?)
    requires Evaluate(ret0) == Operands(PendingTrees(base, Have(t), lits))
    ensures Evaluate(ret) == Operands(Push(base, TermMeaning(t)))
  {
    ret := ret0;
    var n := lits - 1;
    while n != 0
      invariant 0 <= n <= 1
      invariant n == 1 ==> lits == 2 && ret == ret0
      invariant n == 0 ==> Evaluate(ret) == Operands(Push(base, TermMeaning(t)))
    {
      EvaluateSnoc(ret, OP_CONCAT);
      ret := ret + [OP_CONCAT];
      n := n - 1;
    }
  }

  /** Emits the alternations of a finished group. */
  method EmitAlternatives(ret0: seq<Token>, alts: int, ghost base: Stack<Regex>, ghost closed: Stack<Term>,
      ghost t: Term)
    returns (ret: seq<Token>)
    requires alts == Height(closed)
    requires Evaluate(ret0) == Operands(Push(TermTrees(base, closed), TermMeaning(t)))
    ensures Evaluate(ret) == Operands(Push(base, Meaning(Chain(closed, Last(t)))))
  {
    ret := ret0;
    var n := alts;
    ghost var c, e := closed, Last(t);
    while n != 0
      invariant n == Height(c) && Chain(c, e) == Chain(closed, Last(t))
      invariant Evaluate(ret) == Operands(Push(TermTrees(base, c), Meaning(e)))
      decreases n
    {
      EvaluateSnoc(ret, OP_OR);
      ret := ret + [OP_OR];
      c, e := c.below, Or(c.top, e);
      n := n - 1;
    }
  }

  /** Joins two pending literals before another operand is pushed. */
  method JoinPending(ret0: seq<Token>, lits: int, ghost base: Stack<Regex>, ghost f: Frame)
    returns (ret: seq<Token>, lit: int)
    requires CountsTop(f, Height(f.closed), lits)
    requires Evaluate(ret0) == Operands(FrameTrees(base, f, lits))
    ensures lit == (if lits > 1 then 1 else lits)
    ensures Evaluate(ret) == Operands(FrameTrees(base, f, lit))
  {
    ret, lit := ret0, lits;
    if lits > 1 {
      lit := lit - 1;
      EvaluateSnoc(ret, OP_CONCAT);
      ret := ret + [OP_CONCAT];
    }
  }

  /** The reaction to '('. */
  method OpenGroup(ret: seq<Token>, alts: Stack<int>, lits: Stack<int>, ghost p: Parse)
    returns (ret': seq<Token>, alts': Stack<int>, lits': Stack<int>)
    requires Converting(ret, alts, lits, p)
    ensures Converting(ret', alts', lits', ParseStep(p, OPEN_GROUP))
  {
    var lit;
    ret', lit := JoinPending(ret, lits.top, BelowTrees(p.below, lits.below), p.top);
    alts' := Push(alts, 0);
    lits' := Push(Push(lits.below, lit), 0);
  }

  /** The reaction to ')' when the alternative before it is not empty. */
  method CloseGroup(ret: seq<Token>, alts: Stack<int>, lits: Stack<int>, ghost p: Parse)
    returns (ret': seq<Token>, alts': Stack<int>, lits': Stack<int>)
    requires Converting(ret, alts, lits, p) && p.below.Push? && lits.top != 0
    ensures Converting(ret', alts', lits', ParseStep(p, CLOSE_GROUP))
  {
    ghost var base, t := BelowTrees(p.below, lits.below), p.top.cur.term;
    ret' := EmitConcats(ret, lits.top, TermTrees(base, p.top.closed), t);
    ret' := EmitAlternatives(ret', alts.top, base, p.top.closed, t);
    alts' := alts.below;
    lits' := Push(lits.below.below, lits.below.top + 1);
    ghost var g := Group(Chain(p.top.closed, Last(t)));
    assert FactorMeaning(g) == Meaning(g.expr);
  }

  /** The reaction to '|' when the alternative before it is not empty. */
  method CloseAlternative(ret: seq<Token>, alts: Stack<int>, lits: Stack<int>, ghost p: Parse)
    returns (ret': seq<Token>, alts': Stack<int>, lits': Stack<int>)
    requires Converting(ret, alts, lits, p) && lits.top != 0
    ensures Converting(ret', alts', lits', ParseStep(p, OP_OR))
  {
    ghost var base := BelowTrees(p.below, lits.below);
    ret' := EmitConcats(ret, lits.top, TermTrees(base, p.top.closed), p.top.cur.term);
    alts' := Push(alts.below, alts.top + 1);
    lits' := Push(lits.below, 0);
  }

  /** The reaction to a quantifier that has an operand. */
  method Quantify(ret: seq<Token>, alts: Stack<int>, lits: Stack<int>, tok: Token, ghost p: Parse)
    returns (ret': seq<Token>)
    requires Converting(ret, alts, lits, p) && lits.top != 0 && IsQuantifier(tok)
    ensures Converting(ret', alts, lits, ParseStep(p, tok))
  {
    EvaluateSnoc(ret, tok);
    ret' := ret + [tok];
    ghost var f := p.top.cur.term.last;
    assert FactorMeaning(Quant(f, tok)) == Quantified(FactorMeaning(f), tok);
  }

  /** The reaction to a character or range token. */
  method PushLiteral(ret: seq<Token>, alts: Stack<int>, lits: Stack<int>, tok: Token, ghost p: Parse)
    returns (ret': seq<Token>, lits': Stack<int>)
    requires Converting(ret, alts, lits, p) && tok.kind != OPERATOR
    ensures Converting(ret', alts, lits', ParseStep(p, tok))
  {
    var lit;
    ret', lit := JoinPending(ret, lits.top, BelowTrees(p.below, lits.below), p.top);
    EvaluateSnoc(ret', tok);
    ret' := ret' + [tok];
    lits' := Push(lits.below, lit + 1);
    assert FactorMeaning(One(tok)) == Atom(tok);
  }

  lemma {:induction false} StuckFrom(p: Parse, ts: seq<Token>)
    requires !p.Reading?
    ensures ParseFrom(p, ts) == p
  {
    if ts != [] { StuckFrom(p, ts[..|ts| - 1]); }
  }

  lemma {:induction false} ParseNext(pattern: seq<Token>, i: nat)
    requires i < |pattern|
    ensures ParseFrom(START, pattern[..i + 1]) == ParseStep(ParseFrom(START, pattern[..i]), pattern[i])
  {
    assert pattern[..i + 1][..i] == pattern[..i];
  }

  lemma {:induction false} StuckAt(pattern: seq<Token>, i: nat)
    requires i < |pattern| && !ParseStep(ParseFrom(START, pattern[..i]), pattern[i]).Reading?
    ensures ParseFrom(START, pattern) == ParseStep(ParseFrom(START, pattern[..i]), pattern[i])
  {
    ParseNext(pattern, i);
    ParseConcat(START, pattern[..i + 1], pattern[i + 1..]);
    assert pattern[..i + 1] + pattern[i + 1..] == pattern;
    StuckFrom(ParseFrom(START, pattern[..i + 1]), pattern[i + 1..]);
  }

  ghost predicate Converts(outcome: Outcome, r: Conversion) {
    match outcome
    case Tree(e) => r.Postfix? && Evaluate(r.tokens) == Operands(Push(Bottom, Meaning(e)))
    case MissingOperand => r.Missing?
    case Runaway => r.RunsAway?
    case Unbalanced => false
  }

  method InfixToPostfix(pattern: seq<Token>) returns (r: Conversion)
    requires Balanced(pattern, 0)
    ensures Converts(ParseTokens(pattern), r)
  {
    var ret: seq<Token> := [];
    var alts: Stack<int>, lits: Stack<int> := Push(Bottom, 0), Push(Bottom, 0);
    ghost var p := START;
    var itr := 0;
    assert pattern[..0] == [] && pattern[0..] == pattern;
    while itr < |pattern|
      invariant itr <= |pattern|
      invariant ParseFrom(START, pattern[..itr]) == p
      invariant Converting(ret, alts, lits, p)
      invariant Balanced(pattern[itr..], Height(p.below))
    {
      var tok := pattern[itr];
      ParseNext(pattern, itr);
      assert pattern[itr..][1..] == pattern[itr + 1..];
      if tok.kind != OPERATOR {
        ret, lits := PushLiteral(ret, alts, lits, tok, p);
      } else if tok.ch == '(' {
        ret, alts, lits := OpenGroup(ret, alts, lits, p);
      } else if tok.ch == ')' {
        if lits.top == 0 {
          StuckAt(pattern, itr);
          return RunsAway;
        }
        ret, alts, lits := CloseGroup(ret, alts, lits, p);
      } else if tok.ch == '|' {
        if lits.top == 0 {
          StuckAt(pattern, itr);
          return Missing;
        }
        ret, alts, lits := CloseAlternative(ret, alts, lits, p);
      } else if tok.ch == '+' || tok.ch == '?' || tok.ch == '*' {
        if lits.top == 0 {
          StuckAt(pattern, itr);
          return Missing;
        }
        ret := Quantify(ret, alts, lits, tok, p);
      }
      p := ParseStep(p, tok);
      itr := itr + 1;
    }
    assert pattern[..itr] == pattern;
    if lits.top == 0 {
      return RunsAway;
    }
    ret := EmitConcats(ret, lits.top, TermTrees(Bottom, p.top.closed), p.top.cur.term);
    ret := EmitAlternatives(ret, alts.top, Bottom, p.top.closed, p.top.cur.term);
    return Postfix(ret);
  }
}
