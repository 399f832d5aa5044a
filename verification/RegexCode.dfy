/**
  Thompson machines.

  Code gives, for a tree, the states the machine builder of CORE/UTIL/regex.cpp
  ends up with, by structure and with every exit already pointing where it
  should.  The file proves that such a machine reads exactly the tree's
  language, where its open exits are, and when its SPLIT states form no cycle.
 */
module RegexCode {
  import opened Basics
  import opened RegexSyntax

  datatype StateType = MATCH | LITERAL_STATE | RANGE_STATE | INV_LITERAL_STATE | INV_RANGE_STATE | SPLIT

  datatype State = State(kind: StateType, literal: char, out: int, out1: int)

  const NO_STATE := -1

  function SplitState(out: int, out1: int): State { State(SPLIT, '?', out, out1) }

  const MATCH_STATE := State(MATCH, '?', NO_STATE, NO_STATE)

  function StateKind(t: TokenType): StateType {
    match t
    case INV_LITERAL => INV_LITERAL_STATE
    case RANGE => RANGE_STATE
    case INV_RANGE => INV_RANGE_STATE
    case _ => LITERAL_STATE
  }

  /** Does a state consume the character?  The switch in scan. */
  predicate Consumes(s: State, c: char) {
    match s.kind
    case LITERAL_STATE => s.literal == c
    case INV_LITERAL_STATE => s.literal != c
    case RANGE_STATE => InRange(s.literal, c)
    case _ => false
  }

  /** Trees whose leaves are characters or ranges, never operators. */
  predicate LeavesOk(re: Regex) {
    match re
    case Atom(t) => t.kind != OPERATOR
    case Cat(a, b) => LeavesOk(a) && LeavesOk(b)
    case Alt(a, b) => LeavesOk(a) && LeavesOk(b)
    case Plus(a) => LeavesOk(a)
    case Star(a) => LeavesOk(a)
    case Opt(a) => LeavesOk(a)
  }

  // ------------------------------------------------------------ compilation

  function Size(re: Regex): (n: nat)
    ensures n > 0
  {
    match re
    case Atom(_) => 1
    case Cat(a, b) => Size(a) + Size(b)
    case Alt(a, b) => Size(a) + Size(b) + 1
    case Plus(a) => Size(a) + 1
    case Star(a) => Size(a) + 1
    case Opt(a) => Size(a) + 1
  }

  /** Entry state of the fragment for re whose states begin at base. */
  function Start(re: Regex, base: int): (s: int)
    ensures base <= s < base + Size(re)
  {
    match re
    case Atom(_) => base
    case Cat(a, _) => Start(a, base)
    case Alt(a, b) => base + Size(a) + Size(b)
    case Plus(a) => Start(a, base)
    case Star(a) => base + Size(a)
    case Opt(a) => base + Size(a)
  }

  /**
    The states from base on are the fragment for re, leaving to state exit; an
    exit of NO_STATE makes it a fragment whose exits are still open.
   */
  ghost predicate Fragment(m: seq<State>, re: Regex, base: int, exit: int) {
    && 0 <= base && base + Size(re) <= |m|
    && !(base <= exit < base + Size(re))
    && match re {
         case Atom(t) => m[base] == State(StateKind(t.kind), t.ch, exit, NO_STATE)
         case Cat(a, b) => Fragment(m, a, base, Start(b, base + Size(a))) && Fragment(m, b, base + Size(a), exit)
         case Alt(a, b) =>
           && Fragment(m, a, base, exit) && Fragment(m, b, base + Size(a), exit)
           && m[base + Size(a) + Size(b)] == SplitState(Start(a, base), Start(b, base + Size(a)))
         case Opt(a) => Fragment(m, a, base, exit) && m[base + Size(a)] == SplitState(Start(a, base), exit)
         case _ =>
           && Fragment(m, re.body, base, base + Size(re.body))
           && m[base + Size(re.body)] == SplitState(Start(re.body, base), exit)
       }
  }

  /** A finished machine: the fragment of the tree, leaving to the MATCH state after it. */
  ghost predicate IsMachine(m: seq<State>, re: Regex) {
    Fragment(m, re, 0, Size(re)) && |m| == Size(re) + 1 && m[Size(re)] == MATCH_STATE
  }

  /** A fragment is a matter of its own states only. */
  lemma {:induction false} FragmentFrame(m: seq<State>, m': seq<State>, re: Regex, base: int, exit: int)
    requires Fragment(m, re, base, exit) && base + Size(re) <= |m'|
    requires forall s :: base <= s < base + Size(re) ==> m'[s] == m[s]
    ensures Fragment(m', re, base, exit)
    decreases re, 1
  {
    match re
    case Atom(_) =>
    case Opt(a) => FragmentFrame(m, m', a, base, exit);
    case Plus(a) => FragmentFrame(m, m', a, base, base + Size(a));
    case Star(a) => FragmentFrame(m, m', a, base, base + Size(a));
    case _ => FrameBinary(m, m', re, base, exit);
  }

  lemma {:induction false} FrameBinary(m: seq<State>, m': seq<State>, re: Regex, base: int, exit: int)
    requires (re.Cat? || re.Alt?) && Fragment(m, re, base, exit) && base + Size(re) <= |m'|
    requires forall s :: base <= s < base + Size(re) ==> m'[s] == m[s]
    ensures Fragment(m', re, base, exit)
    decreases re, 0
  {
    var mid := base + Size(re.left);
    FragmentFrame(m, m', re.left, base, if re.Cat? then Start(re.right, mid) else exit);
    FragmentFrame(m, m', re.right, mid, exit);
  }

  // -------------------------------------------------------------- open exits

  /** The states whose exit a fragment leaves open, in the builder's order. */
  function Terminals(re: Regex, base: int): seq<int> {
    match re
    case Atom(_) => [base]
    case Cat(a, b) => Terminals(b, base + Size(a))
    case Alt(a, b) => Terminals(a, base) + Terminals(b, base + Size(a))
    case Plus(a) => [base + Size(a)]
    case Star(a) => [base + Size(a)]
    case Opt(a) => Terminals(a, base) + [base + Size(a)]
  }

  /** Is state s of the fragment one of its terminals? */
  ghost predicate IsTerminal(re: Regex, base: int, s: int)
    ensures IsTerminal(re, base, s) ==> base <= s < base + Size(re)
  {
    match re
    case Atom(_) => s == base
    case Cat(a, b) => IsTerminal(b, base + Size(a), s)
    case Alt(a, b) => IsTerminal(a, base, s) || IsTerminal(b, base + Size(a), s)
    case Opt(a) => IsTerminal(a, base, s) || s == base + Size(a)
    case _ => s == base + Size(re.body)
  }

  lemma {:induction false} TerminalsAreTerminal(re: Regex, base: int, s: int)
    ensures s in Terminals(re, base) <==> IsTerminal(re, base, s)
  {
    match re
    case Atom(_) =>
    case Cat(a, b) => TerminalsAreTerminal(b, base + Size(a), s);
    case Alt(a, b) => TerminalsAreTerminal(a, base, s); TerminalsAreTerminal(b, base + Size(a), s);
    case Opt(a) => TerminalsAreTerminal(a, base, s);
    case _ =>
  }

  /** No state is listed twice, and only states from lo on and before hi are. */
  ghost predicate Distinct(ts: seq<int>, lo: int, hi: int) {
    && (forall i :: 0 <= i < |ts| ==> lo <= ts[i] < hi)
    && forall i, j :: 0 <= i < j < |ts| ==> ts[i] != ts[j]
  }

  lemma {:induction false} TerminalsDistinct(re: Regex, base: int)
    ensures Distinct(Terminals(re, base), base, base + Size(re))
  {
    match re
    case Atom(_) =>
    case Cat(a, b) =>
      TerminalsDistinct(b, base + Size(a));
      assert Terminals(re, base) == Terminals(b, base + Size(a));
    case Alt(a, b) =>
      TerminalsDistinct(a, base);
      TerminalsDistinct(b, base + Size(a));
      var ta, tb := Terminals(a, base), Terminals(b, base + Size(a));
      assert forall i :: 0 <= i < |ta| + |tb| ==> (ta + tb)[i] == if i < |ta| then ta[i] else tb[i - |ta|];
    case Opt(a) => TerminalsDistinct(a, base);
    case _ =>
  }

  /** Point the first open exit of a state at next, as connect does. */
  function Patched(s: State, next: int): State {
    if s.out == NO_STATE then s.(out := next) else s.(out1 := next)
  }

  predicate OneOpenExit(s: State) {
    if s.kind == SPLIT then s.out != NO_STATE && s.out1 == NO_STATE else s.out == NO_STATE
  }

  predicate NoOpenExit(s: State) {
    s.out != NO_STATE && (s.kind == SPLIT ==> s.out1 != NO_STATE)
  }

  /** The terminals are exactly the states of an open fragment with an open exit, and each has just one. */
  lemma {:induction false} OpenExits(m: seq<State>, re: Regex, base: int, s: int)
    requires Fragment(m, re, base, NO_STATE) && base <= s < base + Size(re)
    ensures if IsTerminal(re, base, s) then OneOpenExit(m[s]) else NoOpenExit(m[s])
    decreases re, 1
  {
    match re
    case Atom(_) =>
    case Opt(a) => if s < base + Size(a) { OpenExits(m, a, base, s); }
    case Plus(a) => if s < base + Size(a) { ExitsInside(m, a, base, base + Size(a), s); }
    case Star(a) => if s < base + Size(a) { ExitsInside(m, a, base, base + Size(a), s); }
    case _ => OpenExitsBinary(m, re, base, s);
  }

  lemma {:induction false} OpenExitsBinary(m: seq<State>, re: Regex, base: int, s: int)
    requires (re.Cat? || re.Alt?) && Fragment(m, re, base, NO_STATE) && base <= s < base + Size(re)
    ensures if IsTerminal(re, base, s) then OneOpenExit(m[s]) else NoOpenExit(m[s])
    decreases re, 0
  {
    var mid := base + Size(re.left);
    if s < mid {
      if re.Cat? { ExitsInside(m, re.left, base, Start(re.right, mid), s); } else { OpenExits(m, re.left, base, s); }
    } else if s < mid + Size(re.right) {
      OpenExits(m, re.right, mid, s);
    }
  }

  ghost predicate Within(t: int, base: int, re: Regex, exit: int) {
    base <= t < base + Size(re) || t == exit
  }

  /** Exits of a fragment stay inside it or go to its exit, and it holds no MATCH state. */
  lemma {:induction false} ExitsInside(m: seq<State>, re: Regex, base: int, exit: int, s: int)
    requires Fragment(m, re, base, exit) && base <= s < base + Size(re)
    ensures m[s].kind != MATCH && Within(m[s].out, base, re, exit)
    ensures m[s].kind == SPLIT ==> Within(m[s].out1, base, re, exit)
    ensures exit != NO_STATE ==> NoOpenExit(m[s])
    decreases re, 1
  {
    match re
    case Atom(_) =>
    case Opt(a) => if s < base + Size(a) { ExitsInside(m, a, base, exit, s); }
    case Plus(a) => if s < base + Size(a) { ExitsInside(m, a, base, base + Size(a), s); }
    case Star(a) => if s < base + Size(a) { ExitsInside(m, a, base, base + Size(a), s); }
    case _ => ExitsInsideBinary(m, re, base, exit, s);
  }

  lemma {:induction false} ExitsInsideBinary(m: seq<State>, re: Regex, base: int, exit: int, s: int)
    requires (re.Cat? || re.Alt?) && Fragment(m, re, base, exit) && base <= s < base + Size(re)
    ensures m[s].kind != MATCH && Within(m[s].out, base, re, exit)
    ensures m[s].kind == SPLIT ==> Within(m[s].out1, base, re, exit)
    ensures exit != NO_STATE ==> NoOpenExit(m[s])
    decreases re, 0
  {
    var mid := base + Size(re.left);
    if s < mid { ExitsInside(m, re.left, base, if re.Cat? then Start(re.right, mid) else exit, s); }
    else if s < mid + Size(re.right) { ExitsInside(m, re.right, mid, exit, s); }
  }

  /** m' is m with the open exits of the listed states pointed at next. */
  ghost predicate IsPatched(m: seq<State>, m': seq<State>, ts: seq<int>, next: int) {
    |m'| == |m| && forall s :: 0 <= s < |m| ==> m'[s] == if s in ts then Patched(m[s], next) else m[s]
  }

  /** Connecting all terminals of an open fragment gives the fragment that leaves to next. */
  lemma {:induction false} PatchFragment(m: seq<State>, m': seq<State>, re: Regex, base: int, next: int)
    requires Fragment(m, re, base, NO_STATE) && !(base <= next < base + Size(re)) && |m'| == |m|
    requires forall s :: base <= s < base + Size(re) ==>
      m'[s] == if IsTerminal(re, base, s) then Patched(m[s], next) else m[s]
    ensures Fragment(m', re, base, next)
    decreases re, 1
  {
    match re
    case Atom(_) =>
    case Opt(_) => PatchOpt(m, m', re, base, next);
    case Plus(_) => PatchLoop(m, m', re, base, next);
    case Star(_) => PatchLoop(m, m', re, base, next);
    case Cat(_, _) => PatchCat(m, m', re, base, next);
    case Alt(_, _) => PatchAlt(m, m', re, base, next);
  }

  lemma {:induction false} PatchCat(m: seq<State>, m': seq<State>, re: Regex, base: int, next: int)
    requires re.Cat? && Fragment(m, re, base, NO_STATE) && !(base <= next < base + Size(re)) && |m'| == |m|
    requires forall s :: base <= s < base + Size(re) ==>
      m'[s] == if IsTerminal(re, base, s) then Patched(m[s], next) else m[s]
    ensures Fragment(m', re, base, next)
    decreases re, 0
  {
    var mid := base + Size(re.left);
    FragmentFrame(m, m', re.left, base, Start(re.right, mid));
    PatchFragment(m, m', re.right, mid, next);
  }

  lemma {:induction false} PatchOpt(m: seq<State>, m': seq<State>, re: Regex, base: int, next: int)
    requires re.Opt? && Fragment(m, re, base, NO_STATE) && !(base <= next < base + Size(re)) && |m'| == |m|
    requires forall s :: base <= s < base + Size(re) ==>
      m'[s] == if IsTerminal(re, base, s) then Patched(m[s], next) else m[s]
    ensures Fragment(m', re, base, next)
    decreases re, 0
  {
    PatchFragment(m, m', re.body, base, next);
  }

  lemma {:induction false} PatchLoop(m: seq<State>, m': seq<State>, re: Regex, base: int, next: int)
    requires (re.Plus? || re.Star?) && Fragment(m, re, base, NO_STATE) && !(base <= next < base + Size(re)) &&
      |m'| == |m|
    requires forall s :: base <= s < base + Size(re) ==>
      m'[s] == if IsTerminal(re, base, s) then Patched(m[s], next) else m[s]
    ensures Fragment(m', re, base, next)
  {
    FragmentFrame(m, m', re.body, base, base + Size(re.body));
  }

  lemma {:induction false} PatchAlt(m: seq<State>, m': seq<State>, re: Regex, base: int, next: int)
    requires re.Alt? && Fragment(m, re, base, NO_STATE) && !(base <= next < base + Size(re)) && |m'| == |m|
    requires forall s :: base <= s < base + Size(re) ==>
      m'[s] == if IsTerminal(re, base, s) then Patched(m[s], next) else m[s]
    ensures Fragment(m', re, base, next)
    decreases re, 0
  {
    PatchFragment(m, m', re.left, base, next);
    PatchFragment(m, m', re.right, base + Size(re.left), next);
  }

  // -------------------------------------------------------------------- runs

  /** A run of states: ending at s, leaving a SPLIT state s, or consuming c in state s. */
  datatype Trail = At(s: int) | Split(s: int, rest: Trail) | Read(s: int, c: char, rest: Trail)

  /** The characters a run consumes. */
  function Word(t: Trail): string {
    match t
    case At(_) => ""
    case Split(_, r) => Word(r)
    case Read(_, c, r) => [c] + Word(r)
  }

  function End(t: Trail): int {
    match t
    case At(s) => s
    case Split(_, r) => End(r)
    case Read(_, _, r) => End(r)
  }

  function Length(t: Trail): nat {
    match t
    case At(_) => 0
    case Split(_, r) => 1 + Length(r)
    case Read(_, _, r) => 1 + Length(r)
  }

  /** The run follows edges of the machine. */
  ghost predicate Valid(m: seq<State>, t: Trail) {
    && 0 <= t.s < |m|
    && match t {
         case At(_) => true
         case Split(s, r) => m[s].kind == SPLIT && (r.s == m[s].out || r.s == m[s].out1) && Valid(m, r)
         case Read(s, c, r) => Consumes(m[s], c) && r.s == m[s].out && Valid(m, r)
       }
  }

  ghost predicate IsMatchState(m: seq<State>, s: int) {
    0 <= s < |m| && m[s].kind == MATCH
  }

  /** Some run from the entry to a MATCH state reads w. */
  ghost predicate Accepts(m: seq<State>, start: int, w: string) {
    exists t {:trigger Valid(m, t)} :: Valid(m, t) && t.s == start && Word(t) == w && IsMatchState(m, End(t))
  }

  function Append(t: Trail, u: Trail): Trail {
    match t
    case At(_) => u
    case Split(s, r) => Split(s, Append(r, u))
    case Read(s, c, r) => Read(s, c, Append(r, u))
  }

  lemma {:induction false} AppendRuns(m: seq<State>, t: Trail, u: Trail)
    requires Valid(m, t) && Valid(m, u) && End(t) == u.s
    ensures Valid(m, Append(t, u)) && Append(t, u).s == t.s && End(Append(t, u)) == End(u)
    ensures Word(Append(t, u)) == Word(t) + Word(u)
  {
    match t
    case At(_) =>
    case Split(_, r) => AppendRuns(m, r, u);
    case Read(_, c, r) => AppendRuns(m, r, u); Assoc([c], Word(r), Word(u));
  }

  lemma {:induction false} AtomConsumes(t: Token, s: State, c: char)
    requires t.kind != OPERATOR && s.kind == StateKind(t.kind) && s.literal == t.ch
    ensures s.kind != SPLIT && s.kind != MATCH && (Consumes(s, c) <==> TokenMatches(t, c))
  {
  }

  // ------------------------------------------------- every word has its run

  /** A run of the machine from state s to state e reading w. */
  ghost predicate Runs(m: seq<State>, t: Trail, s: int, e: int, w: string) {
    Valid(m, t) && t.s == s && End(t) == e && Word(t) == w
  }

  lemma {:induction false} WordHasRun(m: seq<State>, re: Regex, base: int, exit: int, w: string) returns (t: Trail)
    requires Fragment(m, re, base, exit) && 0 <= exit < |m| && LeavesOk(re) && InLanguage(re, w)
    ensures Runs(m, t, Start(re, base), exit, w)
    decreases re, 1, 0
  {
    match re
    case Atom(tok) =>
      AtomConsumes(tok, m[base], w[0]);
      t := Read(base, w[0], At(exit));
    case Cat(_, _) => t := CatRun(m, re, base, exit, w);
    case Alt(a, b) =>
      if InLanguage(a, w) {
        t := WordHasRun(m, a, base, exit, w);
      } else {
        t := WordHasRun(m, b, base + Size(a), exit, w);
      }
      t := Split(Start(re, base), t);
    case Plus(_) => t := PlusRun(m, re, base, exit, w);
    case Star(a) =>
      var ws :| Join(ws) == w && Rounds(a, ws);
      t := LoopRun(m, a, base, exit, ws);
    case Opt(a) =>
      if w == "" { t := At(exit); } else { t := WordHasRun(m, a, base, exit, w); }
      t := Split(Start(re, base), t);
  }

  lemma {:induction false} CatRun(m: seq<State>, re: Regex, base: int, exit: int, w: string) returns (t: Trail)
    requires Fragment(m, re, base, exit) && 0 <= exit < |m| && LeavesOk(re) && InLanguage(re, w) && re.Cat?
    ensures Runs(m, t, Start(re, base), exit, w)
    decreases re, 0, 0
  {
    var a, b := re.left, re.right;
    var u, v :| w == u + v && Parts(re, u, v);
    t := WordHasRun(m, a, base, Start(b, base + Size(a)), u);
    var r := WordHasRun(m, b, base + Size(a), exit, v);
    AppendRuns(m, t, r);
    t := Append(t, r);
  }

  lemma {:induction false} PlusRun(m: seq<State>, re: Regex, base: int, exit: int, w: string) returns (t: Trail)
    requires Fragment(m, re, base, exit) && 0 <= exit < |m| && LeavesOk(re) && InLanguage(re, w) && re.Plus?
    ensures Runs(m, t, Start(re, base), exit, w)
    decreases re, 0, 0
  {
    var a := re.body;
    var ws :| ws != [] && Join(ws) == w && Rounds(a, ws);
    var r := LoopRun(m, a, base, exit, ws[1..]);
    t := WordHasRun(m, a, base, base + Size(a), ws[0]);
    AppendRuns(m, t, r);
    t := Append(t, r);
  }

  /** From a loop's SPLIT state, any number of rounds through the body. */
  lemma {:induction false} LoopRun(m: seq<State>, a: Regex, base: int, exit: int, ws: seq<string>) returns (t: Trail)
    requires Fragment(m, a, base, base + Size(a)) && LeavesOk(a) && base + Size(a) < |m| && 0 <= exit < |m|
    requires m[base + Size(a)] == SplitState(Start(a, base), exit)
    requires Rounds(a, ws)
    ensures Runs(m, t, base + Size(a), exit, Join(ws))
    decreases a, 2, |ws|
  {
    if ws == [] {
      t := Split(base + Size(a), At(exit));
    } else {
      var r := LoopRun(m, a, base, exit, ws[1..]);
      t := WordHasRun(m, a, base, base + Size(a), ws[0]);
      AppendRuns(m, t, r);
      t := Split(base + Size(a), Append(t, r));
    }
  }

  // -------------------------------------------------- every run reads a word

  /** The run t reads u and then goes on from exit as r. */
  ghost predicate Leaves(m: seq<State>, t: Trail, exit: int, u: string, r: Trail) {
    Valid(m, r) && r.s == exit && End(r) == End(t) && Word(t) == u + Word(r) && Length(r) < Length(t)
  }

  /**
    A run that enters a fragment and ends outside it passes through the exit,
    and what it reads up to there is in the fragment's language.
   */
  lemma {:induction false} RunReadsWord(m: seq<State>, re: Regex, base: int, exit: int, t: Trail)
    returns (u: string, r: Trail)
    requires Fragment(m, re, base, exit) && LeavesOk(re)
    requires Valid(m, t) && t.s == Start(re, base) && !(base <= End(t) < base + Size(re))
    ensures Leaves(m, t, exit, u, r) && InLanguage(re, u)
    decreases re, 1, Length(t)
  {
    match re
    case Atom(tok) =>
      AtomConsumes(tok, m[base], t.c);
      u, r := [t.c], t.rest;
    case Cat(_, _) =>
      u, r := CatReadsWord(m, re, base, exit, t);
    case Alt(a, b) =>
      if t.rest.s == Start(a, base) { u, r := RunReadsWord(m, a, base, exit, t.rest); }
      else { u, r := RunReadsWord(m, b, base + Size(a), exit, t.rest); }
    case Plus(_) =>
      u, r := PlusReadsWord(m, re, base, exit, t);
    case Star(a) =>
      u, r := LoopReadsWords(m, a, base, exit, t);
    case Opt(a) =>
      if t.rest.s == exit { u, r := "", t.rest; } else { u, r := RunReadsWord(m, a, base, exit, t.rest); }
  }

  lemma {:induction false} CatReadsWord(m: seq<State>, re: Regex, base: int, exit: int, t: Trail)
    returns (u: string, r: Trail)
    requires Fragment(m, re, base, exit) && LeavesOk(re) && re.Cat?
    requires Valid(m, t) && t.s == Start(re, base) && !(base <= End(t) < base + Size(re))
    ensures Leaves(m, t, exit, u, r) && InLanguage(re, u)
    decreases re, 0, Length(t)
  {
    var a, b := re.left, re.right;
    var x, q := RunReadsWord(m, a, base, Start(b, base + Size(a)), t);
    u, r := RunReadsWord(m, b, base + Size(a), exit, q);
    CatIntro(a, b, x, u);
    Assoc(x, u, Word(r));
    u := x + u;
  }

  lemma {:induction false} PlusReadsWord(m: seq<State>, re: Regex, base: int, exit: int, t: Trail)
    returns (u: string, r: Trail)
    requires Fragment(m, re, base, exit) && LeavesOk(re) && re.Plus?
    requires Valid(m, t) && t.s == Start(re, base) && !(base <= End(t) < base + Size(re))
    ensures Leaves(m, t, exit, u, r) && InLanguage(re, u)
    decreases re, 0, Length(t)
  {
    var a := re.body;
    var x, q := RunReadsWord(m, a, base, base + Size(a), t);
    u, r := LoopReadsWords(m, a, base, exit, q);
    StarCons(a, x, u);
    Assoc(x, u, Word(r));
    u := x + u;
  }

  lemma {:induction false} LoopReadsWords(m: seq<State>, a: Regex, base: int, exit: int, t: Trail)
    returns (u: string, r: Trail)
    requires Fragment(m, a, base, base + Size(a)) && LeavesOk(a) && base + Size(a) < |m|
    requires m[base + Size(a)] == SplitState(Start(a, base), exit)
    requires !(base <= exit <= base + Size(a))
    requires Valid(m, t) && t.s == base + Size(a) && !(base <= End(t) <= base + Size(a))
    ensures Leaves(m, t, exit, u, r) && InLanguage(Star(a), u)
    decreases a, 2, Length(t)
  {
    if t.rest.s == exit {
      u, r := "", t.rest;
      StarNil(a);
    } else {
      var x, q := RunReadsWord(m, a, base, base + Size(a), t.rest);
      u, r := LoopReadsWords(m, a, base, exit, q);
      StarCons(a, x, u);
      Assoc(x, u, Word(r));
      u := x + u;
    }
  }

  /** Compiler correctness: a tree's machine accepts exactly the tree's language. */
  lemma {:induction false} MachineAcceptsLanguage(m: seq<State>, re: Regex, w: string)
    requires IsMachine(m, re) && LeavesOk(re)
    ensures Accepts(m, Start(re, 0), w) <==> InLanguage(re, w)
  {
    var n := Size(re);
    if InLanguage(re, w) {
      var t := WordHasRun(m, re, 0, n, w);
      assert Valid(m, t) && IsMatchState(m, End(t));
    }
    if Accepts(m, Start(re, 0), w) {
      var t :| Valid(m, t) && t.s == Start(re, 0) && Word(t) == w && IsMatchState(m, End(t));
      if End(t) < n { ExitsInside(m, re, 0, n, End(t)); }
      var u, r := RunReadsWord(m, re, 0, n, t);
      assert r == At(n);
      assert u == w;
    }
  }
}
