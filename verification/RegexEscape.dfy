/**
  The escaping pass of CORE/UTIL/regex.cpp, escapePattern: from the text of a
  pattern to its tokens, with the counters that keep groups and braces matched.
 */
module RegexEscape {
  import opened RegexSyntax
  import opened RegexParser
  import opened RegexPostfix

  datatype EscapeError =
    MISSING_ESCAPE | BAD_ESCAPE | PEREN_INSIDE_BRACE | MISSING_BRACE | MISSING_PEREN | RANGE_OUTSIDE_BRACE

  datatype Escaping = Refused(error: EscapeError) | Tokens(tokens: seq<Token>)

  /** Open groups, open braces, and whether a '^' waits for what it inverts. */
  datatype Counters = Counters(perens: nat, braces: nat, inverted: bool)

  const CLEAR := Counters(0, 0, false)

  /** One turn of the loop: how many characters it takes, what it puts out, and the counters after it. */
  datatype Symbol = Wrong(error: EscapeError) | Symbol(len: nat, out: seq<Token>, next: Counters)

  predicate IsSpecial(c: char) {
    || c == '(' || c == ')' || c == '\\' || c == '[' || c == ']' || c == '.'
    || c == '+' || c == '*' || c == '?' || c == '|' || c == '^'
  }

  predicate IsNamed(c: char) { c == 's' || c == 'd' || c == 'w' || c == 'a' }

  function Literal(c: Counters, len: nat, ch: char): Symbol {
    Symbol(len, [Token(if c.inverted then INV_LITERAL else LITERAL, ch)], c.(inverted := false))
  }

  /** An operator cannot be inverted. */
  function Operator(c: Counters, before: seq<Token>, ch: char): Symbol {
    if c.inverted then Wrong(RANGE_OUTSIDE_BRACE) else Symbol(1, before + [Token(OPERATOR, ch)], c)
  }

  /** After a backslash.  A letter n, t or r stays that letter: the character computed for it is not used. */
  function Escape(s: string, c: Counters): Symbol
    requires s != [] && s[0] == '\\'
  {
    if |s| == 1 then Wrong(MISSING_ESCAPE)
    else if IsNamed(s[1]) then
      Symbol(2, [Token(if c.inverted then INV_RANGE else RANGE, s[1])], c.(inverted := false))
    else if s[1] == 'n' || s[1] == 't' || s[1] == 'r' || IsSpecial(s[1]) then Literal(c, 2, s[1])
    else Wrong(BAD_ESCAPE)
  }

  function ReadSymbol(s: string, c: Counters): (r: Symbol)
    requires s != []
    ensures r.Symbol? ==> 0 < r.len <= |s|
  {
    match s[0]
    case '\\' => Escape(s, c)
    case '(' => if c.braces > 0 then Wrong(PEREN_INSIDE_BRACE) else Operator(c.(perens := c.perens + 1), [], '(')
    case '[' => if c.braces > 0 then Wrong(MISSING_BRACE) else Operator(c.(braces := c.braces + 1), [], '[')
    case ')' => if c.perens == 0 then Wrong(MISSING_PEREN) else Operator(c.(perens := c.perens - 1), [], ')')
    case ']' => if c.braces == 0 then Wrong(MISSING_BRACE) else Operator(c.(braces := c.braces - 1), [], ']')
    case '^' => if c.braces == 0 then Wrong(RANGE_OUTSIDE_BRACE) else Symbol(1, [], c.(inverted := true))
    case '.' => Operator(c, [Token(RANGE, '.')], '.')
    case ch => if ch == '+' || ch == '|' || ch == '*' || ch == '?' then Operator(c, [], ch) else Literal(c, 1, ch)
  }

  /** What the loop makes of the rest of a pattern. */
  function EscapeFrom(s: string, c: Counters): Escaping
    decreases |s|
  {
    if s == "" then
      if c.perens != 0 then Refused(MISSING_PEREN)
      else if c.braces != 0 then Refused(MISSING_BRACE)
      else Tokens([])
    else
      match ReadSymbol(s, c)
      case Wrong(error) => Refused(error)
      case Symbol(len, out, next) => Onto(out, EscapeFrom(s[len..], next))
  }

  function Onto(out: seq<Token>, e: Escaping): Escaping {
    match e
    case Refused(_) => e
    case Tokens(tokens) => Tokens(out + tokens)
  }

  function Escaped(pattern: string): Escaping { EscapeFrom(pattern, CLEAR) }

  lemma OntoTwice(a: seq<Token>, b: seq<Token>, e: Escaping)
    ensures Onto(a, Onto(b, e)) == Onto(a + b, e) && Onto([], e) == e
  {
    if e.Tokens? { assert a + b + e.tokens == a + (b + e.tokens) && [] + e.tokens == e.tokens; }
  }

  method EscapePattern(pattern: string) returns (r: Escaping)
    ensures r == Escaped(pattern)
  {
    var i, out, perens: nat, braces: nat, inverted := 0, [], 0, 0, false;
    OntoTwice([], [], Escaped(pattern));
    assert pattern[0..] == pattern;
    while i < |pattern|
      invariant i <= |pattern|
      invariant Escaped(pattern) == Onto(out, EscapeFrom(pattern[i..], Counters(perens, braces, inverted)))
    {
      ghost var s, c := pattern[i..], Counters(perens, braces, inverted);
      var ch, isLiteral, len, tokens := pattern[i], false, 1, [];
      if ch == '\\' {
        if i + 1 == |pattern| { return Refused(MISSING_ESCAPE); }
        len, ch := 2, pattern[i + 1];
        if IsNamed(ch) {
          tokens := [Token(if inverted then INV_RANGE else RANGE, ch)];
          inverted := false;
        } else if ch == 'n' || ch == 't' || ch == 'r' || IsSpecial(ch) {
          isLiteral := true;
        } else {
          return Refused(BAD_ESCAPE);
        }
      } else if ch == '(' {
        if braces > 0 { return Refused(PEREN_INSIDE_BRACE); }
        perens := perens + 1;
      } else if ch == '[' {
        if braces > 0 { return Refused(MISSING_BRACE); }
        braces := braces + 1;
      } else if ch == ')' {
        if perens == 0 { return Refused(MISSING_PEREN); }
        perens := perens - 1;
      } else if ch == ']' {
        if braces == 0 { return Refused(MISSING_BRACE); }
        braces := braces - 1;
      } else if ch == '^' {
        if braces == 0 { return Refused(RANGE_OUTSIDE_BRACE); }
      } else if ch == '.' {
        tokens := [Token(RANGE, '.')];
      } else {
        isLiteral := ch != '+' && ch != '|' && ch != '*' && ch != '?';
      }
      if isLiteral {
        tokens := [Token(if inverted then INV_LITERAL else LITERAL, ch)];
        inverted := false;
      } else if len == 1 {
        if ch == '^' {
          inverted := true;
        } else {
          if inverted { return Refused(RANGE_OUTSIDE_BRACE); }
          tokens := tokens + [Token(OPERATOR, ch)];
        }
      }
      SymbolRead(s, c, len, tokens, Counters(perens, braces, inverted));
      OntoTwice(out, tokens, EscapeFrom(s[len..], Counters(perens, braces, inverted)));
      assert s[len..] == pattern[i + len..];
      out, i := out + tokens, i + len;
    }
    assert pattern[i..] == "";
    if perens != 0 { return Refused(MISSING_PEREN); }
    if braces != 0 { return Refused(MISSING_BRACE); }
    assert out + [] == out;
    r := Tokens(out);
  }

  lemma {:induction false} SymbolRead(s: string, c: Counters, len: nat, out: seq<Token>, next: Counters)
    requires s != "" && ReadSymbol(s, c) == Symbol(len, out, next)
    ensures EscapeFrom(s, c) == Onto(out, EscapeFrom(s[len..], next))
  {
  }

  // ----------------------------------------------- what the pass lets through

  /** May the token come next? */
  predicate Fits(t: Token, c: Counters) {
    match t.kind
    case LITERAL => true
    case INV_LITERAL => c.braces > 0
    case RANGE => IsNamed(t.ch)
    case INV_RANGE => c.braces > 0 && IsNamed(t.ch)
    case OPERATOR =>
      if t.ch == '(' || t.ch == '[' then c.braces == 0
      else if t.ch == ')' then c.perens > 0
      else if t.ch == ']' then c.braces > 0
      else t.ch == '|' || IsQuantifier(t)
  }

  /** The counters after a token. */
  function After(t: Token, c: Counters): Counters {
    if IsOp(t, '(') then c.(perens := c.perens + 1)
    else if IsOp(t, '[') then c.(braces := c.braces + 1)
    else if IsOp(t, ')') && c.perens > 0 then c.(perens := c.perens - 1)
    else if IsOp(t, ']') && c.braces > 0 then c.(braces := c.braces - 1)
    else c
  }

  /** Token lists that the pass can put out from given counters: a dot is both a range and an operator. */
  predicate Producible(ts: seq<Token>, c: Counters) {
    if ts == [] then c.perens == 0 && c.braces == 0
    else if ts[0] == Token(RANGE, '.') then
      |ts| > 1 && ts[1] == Token(OPERATOR, '.') && Producible(ts[2..], c)
    else Fits(ts[0], c) && Producible(ts[1..], After(ts[0], c))
  }

  /** The rest of the tokens, from within a brace if one is open, can be read by the passes that follow. */
  ghost predicate Readable(ts: seq<Token>, c: Counters) {
    && Balanced(ts, c.perens)
    && if c.braces == 0 then BracesClosed(ts) else BraceEnd(ts) < |ts| && BracesClosed(ts[BraceEnd(ts) + 1..])
  }

  lemma {:induction false} BraceEndBefore(t: Token, rest: seq<Token>)
    ensures BraceEnd([t] + rest) == if IsOp(t, ']') then 0 else 1 + BraceEnd(rest)
  {
    assert ([t] + rest)[1..] == rest;
  }

  lemma {:induction false} ReadableBefore(t: Token, rest: seq<Token>, c: Counters)
    requires c.braces <= 1 && (Fits(t, c) || t.ch == '.') && Readable(rest, After(t, c))
    ensures Readable([t] + rest, c)
  {
    var ts, next := [t] + rest, After(t, c);
    assert ts[0] == t && ts[1..] == rest;
    var n := BraceEnd(rest);
    hide BraceEnd, Fits;
    assert Balanced(ts, c.perens) by { hide BracesClosed; }
    BraceEndBefore(t, rest);
    hide Balanced;
    if c.braces == 0 && next.braces == 1 {
      assert ts[n + 2..] == rest[n + 1..];
    } else if c.braces == 1 && next.braces == 1 {
      assert BraceEnd(ts) == n + 1 && ts[n + 2..] == rest[n + 1..];
    }
  }

  /** What comes out can be read: groups are balanced, and every brace is closed. */
  lemma {:induction false} ProducibleIsReadable(ts: seq<Token>, c: Counters)
    requires c.braces <= 1 && Producible(ts, c)
    ensures Readable(ts, c)
    decreases |ts|
  {
    if ts != [] {
      hide Readable;
      assert ts == [ts[0]] + ts[1..];
      if ts[0] == Token(RANGE, '.') {
        ProducibleIsReadable(ts[2..], c);
        ReadableBefore(ts[1], ts[2..], c);
        assert ts[1..] == [ts[1]] + ts[2..];
        ReadableBefore(ts[0], ts[1..], c);
      } else {
        ProducibleIsReadable(ts[1..], After(ts[0], c));
        ReadableBefore(ts[0], ts[1..], c);
      }
    }
  }

  /** A pattern is only let through as such a list. */
  lemma {:induction false} EscapedIsProducible(s: string, c: Counters)
    requires (c.inverted ==> c.braces > 0) && EscapeFrom(s, c).Tokens?
    ensures Producible(EscapeFrom(s, c).tokens, c.(inverted := false))
    decreases |s|
  {
    if s != "" {
      var r := ReadSymbol(s, c);
      OutputFits(s, c, r);
      EscapedIsProducible(s[r.len..], r.next);
      ProducibleOnto(s, c, r, EscapeFrom(s[r.len..], r.next).tokens);
    }
  }

  /** One turn puts out nothing, a token that may come next, or a dot. */
  lemma {:induction false} OutputFits(s: string, c: Counters, r: Symbol)
    requires s != "" && r == ReadSymbol(s, c) && r.Symbol? && (c.inverted ==> c.braces > 0)
    ensures r.next.inverted ==> r.next.braces > 0
    ensures var plain, next := c.(inverted := false), r.next.(inverted := false);
      || (r.out == [] && next == plain)
      || (r.out == [Token(RANGE, '.'), Token(OPERATOR, '.')] && next == plain)
      || (|r.out| == 1 && Fits(r.out[0], plain) && next == After(r.out[0], plain) && r.out[0] != Token(RANGE, '.'))
  {
  }

  lemma {:induction false} ProducibleOnto(s: string, c: Counters, r: Symbol, rest: seq<Token>)
    requires s != "" && r == ReadSymbol(s, c) && r.Symbol? && (c.inverted ==> c.braces > 0)
    requires Producible(rest, r.next.(inverted := false))
    ensures Producible(r.out + rest, c.(inverted := false))
  {
    OutputFits(s, c, r);
    hide ReadSymbol, Fits, After;
    var ts := r.out + rest;
    if |r.out| == 0 {
      assert ts == rest;
    } else if |r.out| == 1 {
      assert ts[0] == r.out[0] && ts[1..] == rest;
    } else {
      assert ts[0] == r.out[0] && ts[1] == r.out[1] && ts[2..] == rest;
    }
  }

  /** How a token is written; the operator put out with a dot is not. */
  function Spelled(t: Token): string {
    match t.kind
    case LITERAL => SpelledChar(t.ch)
    case INV_LITERAL => "^" + SpelledChar(t.ch)
    case RANGE => if t.ch == '.' then "." else ['\\', t.ch]
    case INV_RANGE => ['^', '\\', t.ch]
    case OPERATOR => if t.ch == '.' then "" else [t.ch]
  }

  function SpelledChar(ch: char): string { if IsSpecial(ch) then ['\\', ch] else [ch] }

  function SpelledAll(ts: seq<Token>): string {
    if ts == [] then "" else Spelled(ts[0]) + SpelledAll(ts[1..])
  }

  function Inverts(t: Token): bool { t.kind == INV_LITERAL || t.kind == INV_RANGE }

  /** How it is written behind its '^'. */
  function Plainly(t: Token): string { if Inverts(t) then Spelled(t)[1..] else Spelled(t) }

  lemma {:induction false} LiteralBack(ch: char, tail: string, c: Counters)
    ensures ReadSymbol(SpelledChar(ch) + tail, c) == Literal(c, |SpelledChar(ch)|, ch)
  {
    var s := SpelledChar(ch) + tail;
    if IsSpecial(ch) { assert s[0] == '\\' && s[1] == ch; } else { assert s[0] == ch; }
  }

  lemma {:induction false} OperatorBack(t: Token, tail: string, c: Counters)
    requires t.kind == OPERATOR && Fits(t, c) && !c.inverted
    ensures ReadSymbol([t.ch] + tail, c) == Symbol(1, [t], After(t, c))
  {
    assert ([t.ch] + tail)[0] == t.ch;
  }

  lemma {:induction false} NamedBack(ch: char, tail: string, c: Counters)
    requires IsNamed(ch)
    ensures ReadSymbol(['\\', ch] + tail, c) ==
      Symbol(2, [Token(if c.inverted then INV_RANGE else RANGE, ch)], c.(inverted := false))
  {
    var s := ['\\', ch] + tail;
    assert s[0] == '\\' && s[1] == ch;
  }

  /** A token is one symbol, a '^' before it aside. */
  lemma {:induction false} SymbolBack(t: Token, tail: string, c: Counters)
    requires Fits(t, c.(inverted := false)) && c.inverted == Inverts(t)
    ensures EscapeFrom(Plainly(t) + tail, c) == Onto([t], EscapeFrom(tail, After(t, c.(inverted := false))))
  {
    var s, plain := Plainly(t) + tail, c.(inverted := false);
    assert s[|Plainly(t)|..] == tail && s != "";
    if t.kind == LITERAL || t.kind == INV_LITERAL {
      assert Plainly(t) == SpelledChar(t.ch);
      LiteralBack(t.ch, tail, c);
    } else if t.kind == OPERATOR {
      OperatorBack(t, tail, c);
    } else {
      assert Plainly(t) == ['\\', t.ch];
      NamedBack(t.ch, tail, c);
    }
    hide ReadSymbol, Plainly, Fits;
    SymbolRead(s, c, |Plainly(t)|, [t], After(t, plain));
  }

  lemma {:induction false} TokenReadBack(t: Token, tail: string, c: Counters)
    requires !c.inverted && Fits(t, c)
    ensures EscapeFrom(Spelled(t) + tail, c) == Onto([t], EscapeFrom(tail, After(t, c)))
  {
    if Inverts(t) {
      var s, d := Spelled(t) + tail, c.(inverted := true);
      assert s[0] == '^' && s[1..] == Plainly(t) + tail && d.(inverted := false) == c;
      SymbolBack(t, tail, d);
      OntoTwice([], [], EscapeFrom(s[1..], d));
    } else {
      assert c.(inverted := false) == c;
      SymbolBack(t, tail, c);
    }
  }

  /** Written out, every such list comes back. */
  lemma {:induction false} SpelledComesBack(ts: seq<Token>, c: Counters)
    requires !c.inverted && Producible(ts, c)
    ensures EscapeFrom(SpelledAll(ts), c) == Tokens(ts)
    decreases |ts|
  {
    if ts != [] {
      if ts[0] == Token(RANGE, '.') {
        SpelledComesBack(ts[2..], c);
        DotBack(SpelledAll(ts[2..]), c);
        assert ts[1..][0] == ts[1] && ts[1..][1..] == ts[2..];
        assert SpelledAll(ts[1..]) == "" + SpelledAll(ts[2..]) == SpelledAll(ts[2..]);
        assert ts == [ts[0], ts[1]] + ts[2..];
      } else {
        hide Spelled;
        SpelledComesBack(ts[1..], After(ts[0], c));
        TokenReadBack(ts[0], SpelledAll(ts[1..]), c);
        assert ts == [ts[0]] + ts[1..];
      }
    }
  }

  lemma {:induction false} DotBack(tail: string, c: Counters)
    requires !c.inverted
    ensures EscapeFrom("." + tail, c) == Onto([Token(RANGE, '.'), Token(OPERATOR, '.')], EscapeFrom(tail, c))
  {
    var s := "." + tail;
    assert s[0] == '.' && s[1..] == tail;
    SymbolRead(s, c, 1, [Token(RANGE, '.')] + [Token(OPERATOR, '.')], c);
  }

  /** The pass puts out exactly these lists. */
  lemma {:induction false} ProducibleIff(ts: seq<Token>)
    ensures Producible(ts, CLEAR) <==> exists s :: Escaped(s) == Tokens(ts)
  {
    if Producible(ts, CLEAR) {
      SpelledComesBack(ts, CLEAR);
      assert Escaped(SpelledAll(ts)) == Tokens(ts);
    }
    if s :| Escaped(s) == Tokens(ts) { EscapedIsProducible(s, CLEAR); }
  }
}
