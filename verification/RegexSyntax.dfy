/**
  Tokens, regular-expression trees and their languages.

  The tokens are those of CORE/UTIL/regex.cpp.  The language of a tree is the
  reference every later stage (postfix conversion, NFA construction, set
  simulation) is proved against.
 */
module RegexSyntax {
  datatype TokenType = LITERAL | INV_LITERAL | RANGE | INV_RANGE | OPERATOR

  datatype Token = Token(kind: TokenType, ch: char)

  const OP_CONCAT := Token(OPERATOR, '&')
  const OP_OR := Token(OPERATOR, '|')
  const OPEN_GROUP := Token(OPERATOR, '(')
  const CLOSE_GROUP := Token(OPERATOR, ')')
  const OPEN_BRACE := Token(OPERATOR, '[')
  const CLOSE_BRACE := Token(OPERATOR, ']')

  predicate IsQuantifier(t: Token) {
    t.kind == OPERATOR && (t.ch == '+' || t.ch == '?' || t.ch == '*')
  }

  datatype Regex =
    | Atom(tok: Token)
    | Cat(left: Regex, right: Regex)
    | Alt(left: Regex, right: Regex)
    | Plus(body: Regex)
    | Star(body: Regex)
    | Opt(body: Regex)

  /** The characters a named range such as \d or . stands for. */
  predicate InRange(name: char, c: char) {
    match name
    case '.' => true
    case 's' => c == ' ' || c == '\n' || c == '\t' || c == '\r'
    case 'd' => '0' <= c <= '9'
    case 'w' => 'a' <= c <= 'z' || 'A' <= c <= 'Z' || c == '_' || '0' <= c <= '9'
    case 'a' => 'a' <= c <= 'z' || 'A' <= c <= 'Z'
    case _ => false
  }

  /** An inverted range has no case in the matcher, so it accepts nothing. */
  predicate TokenMatches(t: Token, c: char) {
    match t.kind
    case LITERAL => t.ch == c
    case INV_LITERAL => t.ch != c
    case RANGE => InRange(t.ch, c)
    case INV_RANGE => false
    case OPERATOR => false
  }

  /** A last-in first-out stack, as the compiler's passes use it. */
  datatype Stack<T> = Bottom | Push(below: Stack<T>, top: T)

  function Height<T>(s: Stack<T>): nat {
    match s
    case Bottom => 0
    case Push(b, _) => Height(b) + 1
  }

  ghost function Join(ws: seq<string>): string {
    if ws == [] then "" else ws[0] + Join(ws[1..])
  }

  /** Every word of the list is in the language of the loop's body. */
  ghost predicate Rounds(a: Regex, ws: seq<string>)
    decreases a, 2
  {
    forall i :: 0 <= i < |ws| ==> InLanguage(a, ws[i])
  }

  /** The two words of a concatenation. */
  ghost predicate Parts(re: Regex, u: string, v: string)
    requires re.Cat?
    decreases re, 0
  {
    InLanguage(re.left, u) && InLanguage(re.right, v)
  }

  ghost predicate InLanguage(re: Regex, w: string)
    decreases re, 1
  {
    match re
    case Atom(t) => |w| == 1 && TokenMatches(t, w[0])
    case Cat(_, _) => exists u, v {:trigger Parts(re, u, v)} :: w == u + v && Parts(re, u, v)
    case Alt(a, b) => InLanguage(a, w) || InLanguage(b, w)
    case Plus(a) => exists ws {:trigger Rounds(a, ws)} :: ws != [] && Join(ws) == w && Rounds(a, ws)
    case Star(a) => exists ws {:trigger Rounds(a, ws)} :: Join(ws) == w && Rounds(a, ws)
    case Opt(a) => w == "" || InLanguage(a, w)
  }

  /** Is the empty word in the language?  Computed by structure; see NullableIffEmpty. */
  predicate Nullable(re: Regex) {
    match re
    case Atom(_) => false
    case Cat(a, b) => Nullable(a) && Nullable(b)
    case Alt(a, b) => Nullable(a) || Nullable(b)
    case Plus(a) => Nullable(a)
    case Star(_) => true
    case Opt(_) => true
  }

  /** No + or * is applied to a body that accepts the empty word. */
  predicate NoNullableLoop(re: Regex) {
    match re
    case Atom(_) => true
    case Cat(a, b) => NoNullableLoop(a) && NoNullableLoop(b)
    case Alt(a, b) => NoNullableLoop(a) && NoNullableLoop(b)
    case Plus(a) => NoNullableLoop(a) && !Nullable(a)
    case Star(a) => NoNullableLoop(a) && !Nullable(a)
    case Opt(a) => NoNullableLoop(a)
  }

  lemma StarCons(a: Regex, u: string, v: string)
    requires InLanguage(a, u) && InLanguage(Star(a), v)
    ensures InLanguage(Star(a), u + v)
    ensures InLanguage(Plus(a), u + v)
  {
    var ws :| Join(ws) == v && Rounds(a, ws);
    var us := [u] + ws;
    assert us[1..] == ws;
    assert Join(us) == u + v;
    assert Rounds(a, us);
  }

  lemma StarNil(a: Regex)
    ensures InLanguage(Star(a), "")
  {
    assert Join([]) == "" && Rounds(a, []);
  }

  lemma CatIntro(a: Regex, b: Regex, u: string, v: string)
    requires InLanguage(a, u) && InLanguage(b, v)
    ensures InLanguage(Cat(a, b), u + v)
  {
    assert Parts(Cat(a, b), u, v);
  }

  lemma {:induction false} JoinEmpty(ws: seq<string>)
    requires Join(ws) == ""
    ensures forall i :: 0 <= i < |ws| ==> ws[i] == ""
  {
    if ws != [] {
      assert |ws[0]| + |Join(ws[1..])| == 0;
      JoinEmpty(ws[1..]);
      assert forall i :: 1 <= i < |ws| ==> ws[i] == ws[1..][i - 1];
    }
  }

  lemma {:induction false} NullableIffEmpty(re: Regex)
    ensures Nullable(re) <==> InLanguage(re, "")
  {
    match re
    case Atom(_) =>
    case Cat(a, b) =>
      NullableIffEmpty(a);
      NullableIffEmpty(b);
      if Nullable(re) { CatIntro(a, b, "", ""); assert "" + "" == ""; }
      if InLanguage(re, "") {
        var w := "";
        assert InLanguage(re, w);
        var u, v :| w == u + v && Parts(re, u, v);
        assert |u| + |v| == 0;
      }
    case Alt(a, b) =>
      NullableIffEmpty(a);
      NullableIffEmpty(b);
    case Plus(a) =>
      NullableIffEmpty(a);
      if Nullable(re) { StarNil(a); StarCons(a, "", ""); assert "" + "" == ""; }
      if InLanguage(re, "") {
        var ws :| ws != [] && Join(ws) == "" && Rounds(a, ws);
        JoinEmpty(ws);
        assert InLanguage(a, ws[0]);
      }
    case Star(a) => StarNil(a);
    case Opt(_) =>
  }
}
