/**
  The machine builder of CORE/UTIL/regex.cpp, which patches the open exits of
  fragments on a stack, and the matcher that simulates the machine.
 */
module RegexNfa {
  import opened Basics
  import opened RegexSyntax
  import opened RegexPostfix
  import opened RegexCode
  import opened RegexClosure
  import opened RegexVectorSet

  datatype Frag = Frag(start: int, terminals: seq<int>)

  /**
    The fragments on the stack lie one after another, the topmost ending at hi;
    each is the open fragment of its operand and lists exactly its terminals.
   */
  ghost predicate Laid(m: seq<State>, frags: Stack<Frag>, trees: Stack<Regex>, hi: int) {
    match frags
    case Bottom => trees.Bottom? && hi == 0
    case Push(fs, f) =>
      && trees.Push?
      && IsOpen(m, f, trees.top, hi - Size(trees.top)) && hi <= |m|
      && Laid(m, fs, trees.below, hi - Size(trees.top))
  }

  ghost predicate IsOpen(m: seq<State>, f: Frag, re: Regex, base: int) {
    Fragment(m, re, base, NO_STATE) && f.start == Start(re, base) && f.terminals == Terminals(re, base)
  }

  lemma {:induction false} LaidFrame(m: seq<State>, m': seq<State>, frags: Stack<Frag>, trees: Stack<Regex>, hi: int)
    requires Laid(m, frags, trees, hi) && hi <= |m'|
    requires forall s :: 0 <= s < hi ==> m'[s] == m[s]
    ensures Laid(m', frags, trees, hi)
  {
    if frags.Push? {
      var t := trees.top;
      FragmentFrame(m, m', t, hi - Size(t), NO_STATE);
      LaidFrame(m, m', frags.below, trees.below, hi - Size(t));
    }
  }

  ghost function AllTerminals(frags: Stack<Frag>): seq<int> {
    match frags
    case Bottom => []
    case Push(fs, f) => AllTerminals(fs) + f.terminals
  }

  /** No state is a terminal twice, within one live fragment or across several, and each has one open exit. */
  lemma {:induction false} LiveTerminals(m: seq<State>, frags: Stack<Frag>, trees: Stack<Regex>, hi: int)
    requires Laid(m, frags, trees, hi)
    ensures hi >= 0 && Distinct(AllTerminals(frags), 0, hi)
    ensures forall s :: 0 <= s < hi && hi <= |m| ==>
      if s in AllTerminals(frags) then OneOpenExit(m[s]) else NoOpenExit(m[s])
  {
    if frags.Push? {
      var re, base := trees.top, hi - Size(trees.top);
      LiveTerminals(m, frags.below, trees.below, base);
      TerminalsDistinct(re, base);
      hide Terminals, Fragment, OneOpenExit, NoOpenExit;
      var ta, tb := AllTerminals(frags.below), Terminals(re, base);
      assert forall i :: 0 <= i < |ta| + |tb| ==> (ta + tb)[i] == if i < |ta| then ta[i] else tb[i - |ta|];
      forall s | 0 <= s < hi ensures if s in AllTerminals(frags) then OneOpenExit(m[s]) else NoOpenExit(m[s]) {
        TerminalsAreTerminal(re, base, s);
        if s >= base { OpenExits(m, re, base, s); }
      }
    }
  }

  /** A finished machine has no open exit but those of MATCH and the unused second exits. */
  lemma {:induction false} MachineHasNoOpenExit(m: seq<State>, re: Regex, s: int)
    requires IsMachine(m, re) && 0 <= s < |m| && m[s].kind != MATCH
    ensures 0 <= m[s].out < |m| && (if m[s].kind == SPLIT then 0 <= m[s].out1 < |m| else NoOpenExit(m[s]))
  {
    ExitsInside(m, re, 0, Size(re), s);
  }

  ghost predicate AllLeavesOk(trees: Stack<Regex>) {
    trees.Push? ==> LeavesOk(trees.top) && AllLeavesOk(trees.below)
  }

  lemma {:induction false} EvaluatedLeavesOk(ts: seq<Token>)
    requires Evaluate(ts).Operands?
    ensures AllLeavesOk(Evaluate(ts).trees)
  {
    if ts != [] { EvaluatedLeavesOk(ts[..|ts| - 1]); }
  }

  /** Connecting the topmost fragment leaves the others alone and gives it its exit. */
  lemma {:induction false} ConnectedTop(m: seq<State>, m': seq<State>, f: Frag, re: Regex, base: int, next: int)
    requires IsOpen(m, f, re, base) && IsPatched(m, m', f.terminals, next) && !(base <= next < base + Size(re))
    ensures Fragment(m', re, base, next)
    ensures forall s :: 0 <= s < |m| && !(base <= s < base + Size(re)) ==> m'[s] == m[s]
  {
    forall s ensures s in f.terminals <==> IsTerminal(re, base, s) { TerminalsAreTerminal(re, base, s); }
    PatchFragment(m, m', re, base, next);
  }

  /** Connecting a fragment to the entry of the next one makes their concatenation. */
  lemma {:induction false} ConnectedToNext(m: seq<State>, m': seq<State>, f: Frag, g: Frag, a: Regex, b: Regex,
      base: int)
    requires IsOpen(m, f, a, base) && IsOpen(m, g, b, base + Size(a))
    requires IsPatched(m, m', f.terminals, g.start)
    ensures IsOpen(m', Frag(f.start, g.terminals), Cat(a, b), base)
    ensures forall s :: 0 <= s < base ==> m'[s] == m[s]
  {
    var mid := base + Size(a);
    assert !(base <= g.start < mid) && |m'| == |m|;
    hide IsPatched;
    ConnectedTop(m, m', f, a, base, g.start);
    FragmentFrame(m, m', b, mid, NO_STATE);
  }

  /** A SPLIT state after two fragments, leading to both, makes their alternation. */
  lemma {:induction false} SplitBetween(m: seq<State>, f: Frag, g: Frag, a: Regex, b: Regex, base: int)
    requires IsOpen(m, f, a, base) && IsOpen(m, g, b, base + Size(a)) && base + Size(a) + Size(b) < |m|
    requires m[base + Size(a) + Size(b)] == SplitState(f.start, g.start)
    ensures IsOpen(m, Frag(base + Size(a) + Size(b), f.terminals + g.terminals), Alt(a, b), base)
  {
  }

  /** Connecting a fragment to a SPLIT state after it that leads back to its entry makes a loop. */
  lemma {:induction false} ConnectedToSplit(m: seq<State>, m': seq<State>, f: Frag, re: Regex, base: int, split: int)
    requires IsOpen(m, f, re, base) && split == base + Size(re) < |m|
    requires m[split] == SplitState(f.start, NO_STATE) && IsPatched(m, m', f.terminals, split)
    ensures Fragment(m', Plus(re), base, NO_STATE) && Fragment(m', Star(re), base, NO_STATE)
    ensures forall s :: 0 <= s < base ==> m'[s] == m[s]
  {
    ConnectedTop(m, m', f, re, base, split);
    assert m'[split] == SplitState(Start(re, base), NO_STATE);
  }

  // ------------------------------------------------------------ matching

  lemma {:induction false} ExitsInsideMachine(m: seq<State>, re: Regex, s: int)
    requires IsMachine(m, re) && 0 <= s < |m|
    ensures m[s].kind == MATCH || 0 <= m[s].out < |m|
  {
    if s < Size(re) { ExitsInside(m, re, 0, Size(re), s); }
  }

  /** One of the listed states consumes c and leads on to t. */
  ghost predicate Stepped(m: seq<State>, ids: seq<u8>, c: char, t: int) {
    exists j :: 0 <= j < |ids| && StepsTo(m, ids[j] as int, c, t)
  }

  ghost predicate StepsTo(m: seq<State>, s: int, c: char, t: int) {
    0 <= s < |m| && Consumes(m[s], c) && t in Closure(m, m[s].out)
  }

  lemma {:induction false} SteppedSnoc(m: seq<State>, ids: seq<u8>, k: nat, c: char)
    requires k < |ids|
    ensures forall t :: Stepped(m, ids[..k + 1], c, t) <==>
      Stepped(m, ids[..k], c, t) || StepsTo(m, ids[k] as int, c, t)
  {
    var a, b := ids[..k], ids[..k + 1];
    forall t ensures Stepped(m, b, c, t) <==> Stepped(m, a, c, t) || StepsTo(m, ids[k] as int, c, t) {
      assert b[k] == ids[k];
      if Stepped(m, a, c, t) {
        var j :| 0 <= j < |a| && StepsTo(m, a[j] as int, c, t);
        assert b[j] == a[j];
      }
      if Stepped(m, b, c, t) {
        var j :| 0 <= j < |b| && StepsTo(m, b[j] as int, c, t);
        if j < k { assert a[j] == b[j]; }
      }
    }
  }

  lemma {:induction false} SteppedAll(m: seq<State>, ids: seq<u8>, c: char, t: int)
    ensures Stepped(m, ids, c, t) <==> exists s :: s in Elements(ids) && StepsTo(m, s, c, t)
  {
    if Stepped(m, ids, c, t) {
      var j :| 0 <= j < |ids| && StepsTo(m, ids[j] as int, c, t);
      assert ids[j] as int in Elements(ids);
    }
  }

  ghost predicate PrefixIn(re: Regex, w: string, i: int) {
    0 <= i <= |w| && InLanguage(re, w[..i])
  }

  /** Lengths lo to n are the first run of accepted prefix lengths from 1 on. */
  ghost predicate FirstRun(re: Regex, w: string, lo: int, n: int) {
    && 1 <= lo <= n <= |w|
    && (forall i :: 1 <= i < lo ==> !PrefixIn(re, w, i))
    && (forall i :: lo <= i <= n ==> PrefixIn(re, w, i))
    && (n < |w| ==> !PrefixIn(re, w, n + 1))
  }

  ghost predicate IsScanEnd(re: Regex, w: string, n: int) {
    if n == 0 then forall i :: 1 <= i <= |w| ==> !PrefixIn(re, w, i) else exists lo :: FirstRun(re, w, lo, n)
  }

  ghost predicate ScannedTo(re: Regex, w: string, itr: int, matched: bool, lo: int) {
    if matched then
      && 1 <= lo <= itr
      && (forall i :: 1 <= i < lo ==> !PrefixIn(re, w, i))
      && (forall i :: lo <= i <= itr ==> PrefixIn(re, w, i))
    else forall i :: 1 <= i <= itr ==> !PrefixIn(re, w, i)
  }

  /** When no state is left the input so far is in no way a prefix of a word to come. */
  lemma {:induction false} NoStatesNoMore(m: seq<State>, re: Regex, start: int, w: string, itr: nat)
    requires IsMachine(m, re) && LeavesOk(re) && start == Start(re, 0) && itr <= |w|
    requires StatesAfter(m, start, w[..itr]) == {}
    ensures forall i :: itr <= i <= |w| ==> !PrefixIn(re, w, i)
  {
    forall i | itr <= i <= |w| ensures !PrefixIn(re, w, i) {
      EmptyStaysEmpty(m, start, w[..itr], w[itr..i]);
      assert w[..itr] + w[itr..i] == w[..i];
      AcceptsIffMatch(m, start, w[..i]);
      MachineAcceptsLanguage(m, re, w[..i]);
    }
  }

  lemma {:induction false} ScannedNext(re: Regex, w: string, itr: int, next: int, matched: bool, lo: int)
    requires ScannedTo(re, w, itr, matched, lo) && 0 <= itr < |w| && next == itr + 1
    ensures PrefixIn(re, w, next) ==> ScannedTo(re, w, next, true, if matched then lo else next)
    ensures !PrefixIn(re, w, next) && !matched ==> ScannedTo(re, w, next, false, lo)
  {
  }

  lemma {:induction false} ScanEnds(re: Regex, w: string, itr: int, matched: bool, lo: int)
    requires ScannedTo(re, w, itr, matched, lo) && 0 <= itr <= |w|
    requires itr < |w| ==> !PrefixIn(re, w, itr + 1)
    requires matched || forall i :: itr < i <= |w| ==> !PrefixIn(re, w, i)
    ensures IsScanEnd(re, w, if matched then itr else 0)
  {
    if matched { assert FirstRun(re, w, lo, itr); }
  }

  lemma {:induction false} RunsAgree(re: Regex, w: string, lo: int, n: int, lo': int, n': int)
    requires FirstRun(re, w, lo, n) && FirstRun(re, w, lo', n') && n <= n'
    ensures n == n'
  {
    assert PrefixIn(re, w, lo) && PrefixIn(re, w, lo') && PrefixIn(re, w, n);
    assert lo == lo';
    assert lo' <= n + 1 <= n' ==> PrefixIn(re, w, n + 1);
  }

  /** The end of a scan is determined by the language. */
  lemma {:induction false} ScanEndUnique(re: Regex, w: string, n: int, n': int)
    requires IsScanEnd(re, w, n) && IsScanEnd(re, w, n')
    ensures n == n'
  {
    var lo :| n == 0 || FirstRun(re, w, lo, n);
    var lo' :| n' == 0 || FirstRun(re, w, lo', n');
    assert n != 0 ==> PrefixIn(re, w, lo);
    assert n' != 0 ==> PrefixIn(re, w, lo');
    if n != 0 && n' != 0 {
      if n <= n' { RunsAgree(re, w, lo, n, lo', n'); } else { RunsAgree(re, w, lo', n', lo, n); }
    }
  }

  /** Does a scan get as far as reading the character at i: no gap in the accepted prefix lengths before it? */
  ghost predicate Reads(re: Regex, w: string, i: nat) {
    forall j :: 1 <= j < i && PrefixIn(re, w, j) ==> PrefixIn(re, w, j + 1)
  }

  /** From every state after u that consumes c, following SPLIT edges ends. */
  ghost predicate StepSettles(m: seq<State>, start: int, u: string, c: char) {
    forall s :: s in StatesAfter(m, start, u) && Consumes(m[s], c) ==> Settled(m, m[s].out)
  }

  /** Following SPLIT edges ends wherever a scan of w gets to. */
  ghost predicate Scannable(m: seq<State>, re: Regex, start: int, w: string) {
    && Settled(m, start)
    && forall i :: 0 <= i < |w| && Reads(re, w, i) ==> StepSettles(m, start, w[..i], w[i])
  }

  lemma {:induction false} ReadsOn(m: seq<State>, re: Regex, start: int, w: string, itr: int, matched: bool, lo: int)
    requires Scannable(m, re, start, w) && 0 <= itr < |w| && ScannedTo(re, w, itr, matched, lo)
    ensures StepSettles(m, start, w[..itr], w[itr])
  {
    assert Reads(re, w, itr);
  }

  /** Patterns without nullable loops can be scanned on every input. */
  lemma {:induction false} AllScannable(m: seq<State>, re: Regex, w: string)
    requires IsMachine(m, re) && NoNullableLoop(re)
    ensures Scannable(m, re, Start(re, 0), w)
  {
    var start := Start(re, 0);
    AllSettled(m, re, start);
    forall i, s | 0 <= i < |w| && s in StatesAfter(m, start, w[..i]) && Consumes(m[s], w[i])
      ensures Settled(m, m[s].out)
    {
      ExitsInsideMachine(m, re, s);
      AllSettled(m, re, m[s].out);
    }
  }

  /** The pattern a(b*)* has a nullable loop, yet scanning x never gets to it. */
  lemma {:induction false} UnreachedLoop(m: seq<State>)
    requires var re := Cat(Atom(Token(LITERAL, 'a')), Star(Star(Atom(Token(LITERAL, 'b'))))); IsMachine(m, re)
    ensures var re := Cat(Atom(Token(LITERAL, 'a')), Star(Star(Atom(Token(LITERAL, 'b')))));
      !NoNullableLoop(re) && Scannable(m, re, Start(re, 0), "x")
  {
    var a, b := Atom(Token(LITERAL, 'a')), Atom(Token(LITERAL, 'b'));
    var re := Cat(a, Star(Star(b)));
    assert Fragment(m, a, 0, Start(Star(Star(b)), 1)) && Start(re, 0) == 0;
    assert m[0].kind == LITERAL_STATE && m[0].literal == 'a';
    assert Settles(m, 0, 0);
    StatesAfterNone(m, 0);
    ClosureOfPlain(m, 0);
    assert "x"[..0] == "";
  }

  class Nfa {
    var states: seq<State>
    var start: int
    var accept: int

    ghost predicate Valid(re: Regex)
      reads this
    {
      IsMachine(states, re) && LeavesOk(re) && start == Start(re, 0) && accept == Size(re) && |states| < MAX_NFA_STATES
    }

    constructor ()
      ensures states == []
    {
      states, start, accept := [], NO_STATE, NO_STATE;
    }

    method NewState(s: State) returns (id: int)
      modifies this`states
      ensures id == |old(states)| && states == old(states) + [s]
    {
      states := states + [s];
      id := |states| - 1;
    }

    /** Points the open exit of every terminal at next, which becomes the only terminal. */
    method Connect(f: Frag, next: int) returns (f': Frag)
      requires next != NO_STATE
      requires Distinct(f.terminals, 0, |states|)
      modifies this`states
      ensures IsPatched(old(states), states, f.terminals, next)
      ensures f' == Frag(f.start, [next])
    {
      ghost var m := states;
      for i := 0 to |f.terminals|
        invariant |states| == |m|
        invariant forall s :: 0 <= s < |m| ==> states[s] == if s in f.terminals[..i] then Patched(m[s], next) else m[s]
      {
        var t := f.terminals[i];
        assert t !in f.terminals[..i];
        assert f.terminals[..i + 1] == f.terminals[..i] + [t];
        if states[t].out == NO_STATE {
          states := states[t := states[t].(out := next)];
        } else {
          states := states[t := states[t].(out1 := next)];
        }
      }
      assert f.terminals[..|f.terminals|] == f.terminals;
      f' := Frag(f.start, [next]);
    }

    /** Loops the last fragment through a new SPLIT state. */
    method CloseLoop(frag: Frag, ghost re: Regex, ghost base: int) returns (next: int)
      requires IsOpen(states, frag, re, base) && base + Size(re) == |states|
      modifies this`states
      ensures next == |old(states)| && |states| == next + 1
      ensures Fragment(states, Plus(re), base, NO_STATE) && Fragment(states, Star(re), base, NO_STATE)
      ensures forall s :: 0 <= s < base ==> states[s] == old(states)[s]
    {
      ghost var m := states;
      next := NewState(SplitState(frag.start, NO_STATE));
      FragmentFrame(m, states, re, base, NO_STATE);
      ghost var m1 := states;
      TerminalsDistinct(re, base);
      assert Distinct(frag.terminals, 0, |states|);
      var _ := Connect(frag, next);
      ConnectedToSplit(m1, states, frag, re, base, next);
    }

    /** The reaction to '+': loop the topmost fragment, entering at its own entry. */
    method BuildPlus(frags: Stack<Frag>, ghost trees: Stack<Regex>) returns (frags': Stack<Frag>)
      requires frags.Push? && Laid(states, frags, trees, |states|)
      modifies this`states
      ensures trees.Push? && Laid(states, frags', Push(trees.below, Plus(trees.top)), |states|)
    {
      ghost var m, base := states, |states| - Size(trees.top);
      var next := CloseLoop(frags.top, trees.top, base);
      LaidFrame(m, states, frags.below, trees.below, base);
      frags' := Push(frags.below, Frag(frags.top.start, [next]));
    }

    /** The reaction to '*': loop the topmost fragment, entering at the SPLIT state. */
    method BuildStar(frags: Stack<Frag>, ghost trees: Stack<Regex>) returns (frags': Stack<Frag>)
      requires frags.Push? && Laid(states, frags, trees, |states|)
      modifies this`states
      ensures trees.Push? && Laid(states, frags', Push(trees.below, Star(trees.top)), |states|)
    {
      ghost var m, base := states, |states| - Size(trees.top);
      var next := CloseLoop(frags.top, trees.top, base);
      LaidFrame(m, states, frags.below, trees.below, base);
      frags' := Push(frags.below, Frag(next, [next]));
    }

    /** The reaction to '?': a SPLIT state before the topmost fragment whose other exit stays open. */
    method BuildOption(frags: Stack<Frag>, ghost trees: Stack<Regex>) returns (frags': Stack<Frag>)
      requires frags.Push? && Laid(states, frags, trees, |states|)
      modifies this`states
      ensures trees.Push?
      ensures Laid(states, frags', Push(trees.below, Opt(trees.top)), |states|)
    {
      ghost var re, hi := trees.top, |states|;
      ghost var base, m := hi - Size(re), states;
      var frag := frags.top;
      var next := NewState(SplitState(frag.start, NO_STATE));
      FragmentFrame(m, states, re, base, NO_STATE);
      LaidFrame(m, states, frags.below, trees.below, base);
      frags' := Push(frags.below, Frag(next, frag.terminals + [next]));
    }

    /** The reaction to '|': a SPLIT state between the two topmost fragments. */
    method BuildAlternative(frags: Stack<Frag>, ghost trees: Stack<Regex>) returns (frags': Stack<Frag>)
      requires frags.Push? && frags.below.Push? && Laid(states, frags, trees, |states|)
      modifies this`states
      ensures trees.Push? && trees.below.Push?
      ensures Laid(states, frags', Push(trees.below.below, Alt(trees.below.top, trees.top)), |states|)
    {
      ghost var a, b, hi := trees.below.top, trees.top, |states|;
      ghost var mid, m := hi - Size(b), states;
      ghost var base := mid - Size(a);
      var fragNext, frag := frags.top, frags.below.top;
      var newStart := NewState(SplitState(frag.start, fragNext.start));
      FragmentFrame(m, states, a, base, NO_STATE);
      FragmentFrame(m, states, b, mid, NO_STATE);
      SplitBetween(states, frag, fragNext, a, b, base);
      LaidFrame(m, states, frags.below.below, trees.below.below, base);
      frags' := Push(frags.below.below, Frag(newStart, frag.terminals + fragNext.terminals));
    }

    /** The reaction to '&': the lower of the two topmost fragments leaves to the upper one. */
    method BuildConcat(frags: Stack<Frag>, ghost trees: Stack<Regex>) returns (frags': Stack<Frag>)
      requires frags.Push? && frags.below.Push? && Laid(states, frags, trees, |states|)
      modifies this`states
      ensures trees.Push? && trees.below.Push?
      ensures Laid(states, frags', Push(trees.below.below, Cat(trees.below.top, trees.top)), |states|)
    {
      ghost var a, b, hi := trees.below.top, trees.top, |states|;
      ghost var mid, m := hi - Size(b), states;
      ghost var base := mid - Size(a);
      var fragNext, frag := frags.top, frags.below.top;
      TerminalsDistinct(a, base);
      assert Distinct(frag.terminals, 0, |states|);
      var f := Connect(frag, fragNext.start);
      ConnectedToNext(m, states, frag, fragNext, a, b, base);
      LaidFrame(m, states, frags.below.below, trees.below.below, base);
      frags' := Push(frags.below.below, f.(terminals := fragNext.terminals));
    }

    /** A new one-state fragment for a character or range. */
    method BuildLiteral(frags: Stack<Frag>, tok: Token, ghost trees: Stack<Regex>) returns (frags': Stack<Frag>)
      requires tok.kind != OPERATOR && Laid(states, frags, trees, |states|)
      modifies this`states
      ensures Laid(states, frags', Push(trees, Atom(tok)), |states|)
    {
      ghost var m := states;
      var s := NewState(State(StateKind(tok.kind), tok.ch, NO_STATE, NO_STATE));
      LaidFrame(m, states, frags, trees, |m|);
      frags' := Push(frags, Frag(s, [s]));
    }

    /**
      Builds the machine of a postfix program for one operand.  The result says
      whether the machine is small enough for the matcher.
     */
    /** One token of the postfix program; an operator without a case does nothing. */
    method BuildToken(frags: Stack<Frag>, tok: Token, ghost trees: Stack<Regex>) returns (frags': Stack<Frag>)
      requires Laid(states, frags, trees, |states|) && Apply(Operands(trees), tok).Operands?
      modifies this`states
      ensures Laid(states, frags', Apply(Operands(trees), tok).trees, |states|)
    {
      frags' := frags;
      if tok.kind != OPERATOR {
        frags' := BuildLiteral(frags, tok, trees);
      } else if tok.ch == '+' {
        frags' := BuildPlus(frags, trees);
      } else if tok.ch == '*' {
        frags' := BuildStar(frags, trees);
      } else if tok.ch == '?' {
        frags' := BuildOption(frags, trees);
      } else if tok.ch == '|' {
        frags' := BuildAlternative(frags, trees);
      } else if tok.ch == '&' {
        frags' := BuildConcat(frags, trees);
      }
    }

    method Build(pattern: seq<Token>, ghost re: Regex) returns (ok: bool)
      requires Evaluate(pattern) == Operands(Push(Bottom, re))
      modifies this
      ensures IsMachine(states, re) && LeavesOk(re) && start == Start(re, 0) && accept == Size(re)
      ensures ok <==> |states| < MAX_NFA_STATES
    {
      states := [];
      var fragments: Stack<Frag> := Bottom;
      ghost var trees: Stack<Regex> := Bottom;
      for i := 0 to |pattern|
        invariant Evaluate(pattern[..i]) == Operands(trees)
        invariant Laid(states, fragments, trees, |states|)
      {
        EvaluatePrefix(pattern, i + 1);
        assert pattern[..i + 1][..i] == pattern[..i];
        hide Apply, Laid;
        fragments := BuildToken(fragments, pattern[i], trees);
        trees := Evaluate(pattern[..i + 1]).trees;
      }
      assert pattern[..|pattern|] == pattern;
      EvaluatedLeavesOk(pattern);
      var top := fragments.top;
      assert fragments.below.Bottom?;
      ghost var m := states;
      accept := NewState(MATCH_STATE);
      FragmentFrame(m, states, re, 0, NO_STATE);
      ghost var m1 := states;
      TerminalsDistinct(re, 0);
      var _ := Connect(top, accept);
      ConnectedTop(m1, states, top, re, 0, accept);
      start := top.start;
      ok := |states| < MAX_NFA_STATES;
    }

    // ------------------------------------------------------------ matching

    /** Adds the states that SPLIT edges lead to from stateId; n bounds the recursion. */
    method AddSplit(stateId: int, nextStates: VectorSet, ghost n: nat)
      requires |states| < MAX_NFA_STATES && nextStates.Valid()
      requires stateId == NO_STATE || Settles(states, stateId, n)
      modifies nextStates`sz, nextStates.pSet
      ensures nextStates.Valid()
      ensures nextStates.Contents() ==
        old(nextStates.Contents()) + if stateId == NO_STATE then {} else Closure(states, stateId)
      decreases n
    {
      if stateId == NO_STATE {
        return;
      }
      var state := states[stateId];
      if state.kind == SPLIT {
        ClosureOfSplit(states, stateId);
        AddSplit(state.out, nextStates, n - 1);
        AddSplit(state.out1, nextStates, n - 1);
      } else {
        ClosureOfPlain(states, stateId);
        nextStates.Insert(stateId);
      }
    }

    method IsMatch(members: VectorSet) returns (r: bool)
      requires members.Valid() && forall t :: t in members.Contents() ==> 0 <= t < |states|
      ensures r <==> exists t :: t in members.Contents() && states[t].kind == MATCH
    {
      ghost var ids := members.pSet[..members.sz];
      assert forall j :: 0 <= j < |ids| ==> ids[j] as int in members.Contents();
      for k := 0 to members.sz as int
        invariant forall j :: 0 <= j < k ==> states[ids[j] as int].kind != MATCH
      {
        if states[members.pSet[k] as int].kind == MATCH {
          return true;
        }
      }
      return false;
    }

    /** One character: from every current state that consumes it, add the states after it. */
    method Advance(current: VectorSet, next: VectorSet, c: char, ghost re: Regex, ghost w: string)
      requires Valid(re) && StepSettles(states, start, w, c)
      requires current.Valid() && next.Valid() && current != next && current.pSet != next.pSet
      requires current.Contents() == StatesAfter(states, start, w) && next.Contents() == {}
      modifies next`sz, next.pSet
      ensures next.Valid() && next.Contents() == StatesAfter(states, start, w + [c])
    {
      ghost var ids := current.pSet[..current.sz];
      ghost var cur := current.Contents();
      for k := 0 to current.sz as int
        invariant next.Valid() && current.pSet[..current.sz] == ids
        invariant forall t :: t in next.Contents() <==> Stepped(states, ids[..k], c, t)
      {
        var id := current.pSet[k] as int;
        assert ids[k] as int in cur;
        var state := states[id];
        ExitsInsideMachine(states, re, id);
        ghost var before := next.Contents();
        if Consumes(state, c) {
          ghost var n :| Settles(states, state.out, n);
          AddSplit(state.out, next, n);
        }
        SteppedSnoc(states, ids, k, c);
      }
      assert ids[..|ids|] == ids;
      forall t ensures t in next.Contents() <==> t in StatesAfter(states, start, w + [c]) {
        StatesAfterNext(states, start, w, c, t);
        SteppedAll(states, ids, c, t);
      }
    }

    /** Consumes one character and swaps the buffers; says whether what was read so far is accepted. */
    method Consume(current: VectorSet, next: VectorSet, c: char, ghost re: Regex, ghost w: string)
      returns (matched: bool)
      requires Valid(re) && StepSettles(states, start, w, c)
      requires current.Valid() && next.Valid() && current != next && current.pSet != next.pSet
      requires current.Contents() == StatesAfter(states, start, w) && next.Contents() == {}
      modifies current, next, next.pSet
      ensures current.Valid() && next.Valid() && current.pSet == old(next.pSet) && next.pSet == old(current.pSet)
      ensures current.Contents() == StatesAfter(states, start, w + [c]) && next.Contents() == {}
      ensures matched <==> InLanguage(re, w + [c])
    {
      Advance(current, next, c, re, w);
      VectorSet.Swap(current, next);
      next.Clear();
      matched := IsMatch(current);
      AcceptsIffMatch(states, start, w + [c]);
      MachineAcceptsLanguage(states, re, w + [c]);
    }

    /** The two buffers before anything is read. */
    method Begin(ghost re: Regex) returns (current: VectorSet, next: VectorSet)
      requires Valid(re) && Settled(states, start)
      ensures fresh(current) && fresh(next) && fresh(current.pSet) && fresh(next.pSet)
      ensures current != next && current.pSet != next.pSet
      ensures current.Valid() && next.Valid() && current.Contents() == StatesAfter(states, start, "") &&
        next.Contents() == {}
    {
      current := new VectorSet();
      next := new VectorSet();
      ghost var n :| Settles(states, start, n);
      AddSplit(start, current, n);
      StatesAfterNone(states, start);
    }

    /**
      Where a match that begins at the start of the input ends, or 0: the end of
      the first unbroken run of accepted prefixes of one or more characters.
     */
    method Scan(input: string, ghost re: Regex) returns (end: nat)
      requires Valid(re) && Scannable(states, re, start, input)
      ensures IsScanEnd(re, input, end)
    {
      var currentStates, nextStates := Begin(re);
      var retVal, wasMatched := 0, false;
      ghost var lo, stopped := 0, false;
      var itr := 0;
      assert input[..0] == "" && ScannedTo(re, input, 0, false, lo);
      while itr != |input| && currentStates.sz != 0
        invariant itr <= |input|
        invariant fresh(currentStates) && fresh(currentStates.pSet) && fresh(nextStates) && fresh(nextStates.pSet)
        invariant currentStates.Valid() && nextStates.Valid()
        invariant currentStates != nextStates && currentStates.pSet != nextStates.pSet
        invariant currentStates.Contents() == StatesAfter(states, start, input[..itr])
        invariant nextStates.Contents() == {}
        invariant ScannedTo(re, input, itr, wasMatched, lo)
        invariant wasMatched ==> retVal + 1 == itr
        invariant !stopped
      {
        var next := itr + 1;
        assert input[..itr] + [input[itr]] == input[..next];
        ReadsOn(states, re, start, input, itr, wasMatched, lo);
        var matched := Consume(currentStates, nextStates, input[itr], re, input[..itr]);
        ScannedNext(re, input, itr, next, wasMatched, lo);
        assert matched == PrefixIn(re, input, next);
        if matched {
          retVal := itr;
          lo := if wasMatched then lo else next;
          wasMatched := true;
        } else if wasMatched {
          stopped := true;
          break;
        }
        itr := next;
      }
      if !stopped && itr < |input| {
        assert currentStates.pSet[..currentStates.sz] == [];
        NoStatesNoMore(states, re, start, input, itr);
      }
      ScanEnds(re, input, itr, wasMatched, lo);
      if wasMatched {
        return retVal + 1;
      }
      return 0;
    }
  }
}
