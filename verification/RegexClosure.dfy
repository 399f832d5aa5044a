/**
  SPLIT edges: which states they lead to, and when following them terminates.
 */
module RegexClosure {
  import opened Basics
  import opened RegexSyntax
  import opened RegexCode

  /** A rank per state that falls along every SPLIT edge. */
  ghost predicate Ranked(m: seq<State>, ranks: seq<nat>) {
    && |ranks| == |m|
    && forall s :: 0 <= s < |m| && m[s].kind == SPLIT ==>
         && 0 <= m[s].out < |m| && ranks[m[s].out] < ranks[s]
         && 0 <= m[s].out1 < |m| && ranks[m[s].out1] < ranks[s]
  }

  /** The rank of state s of a fragment whose exit has rank rk. */
  function Rank(re: Regex, base: int, rk: nat, s: int): nat {
    match re
    case Atom(_) => 0
    case Cat(a, b) =>
      var mid := base + Size(a);
      if s < mid then Rank(a, base, Rank(b, mid, rk, Start(b, mid)), s) else Rank(b, mid, rk, s)
    case Alt(a, b) =>
      var mid := base + Size(a);
      if s < mid then Rank(a, base, rk, s)
      else if s < mid + Size(b) then Rank(b, mid, rk, s)
      else 1 + Rank(a, base, rk, Start(a, base)) + Rank(b, mid, rk, Start(b, mid))
    case Opt(a) =>
      if s < base + Size(a) then Rank(a, base, rk, s) else 1 + rk + Rank(a, base, rk, Start(a, base))
    case _ =>
      var split := 1 + rk + Rank(re.body, base, 0, Start(re.body, base));
      if s < base + Size(re.body) then Rank(re.body, base, split, s) else split
  }

  /** The entry of a fragment that cannot accept the empty word does not depend on its exit. */
  lemma {:induction false} StartRankFixed(re: Regex, base: int, r0: nat, r1: nat)
    requires !Nullable(re)
    ensures Rank(re, base, r0, Start(re, base)) == Rank(re, base, r1, Start(re, base))
  {
    match re
    case Atom(_) =>
    case Cat(a, b) =>
      var mid := base + Size(a);
      if Nullable(a) { StartRankFixed(b, mid, r0, r1); }
      else { StartRankFixed(a, base, Rank(b, mid, r0, Start(b, mid)), Rank(b, mid, r1, Start(b, mid))); }
    case Alt(a, b) =>
      StartRankFixed(a, base, r0, r1);
      StartRankFixed(b, base + Size(a), r0, r1);
    case Plus(a) =>
      var x := Rank(a, base, 0, Start(a, base));
      StartRankFixed(a, base, 1 + r0 + x, 1 + r1 + x);
  }

  function RankTo(re: Regex, base: int, exit: int, rk: nat, t: int): nat {
    if t == exit then rk else Rank(re, base, rk, t)
  }

  /** Ranks fall along the SPLIT edges of a fragment without nullable loops. */
  lemma {:induction false} RankFalls(m: seq<State>, re: Regex, base: int, exit: int, rk: nat, s: int)
    requires Fragment(m, re, base, exit) && NoNullableLoop(re) && base <= s < base + Size(re) && m[s].kind == SPLIT
    ensures RankTo(re, base, exit, rk, m[s].out) < Rank(re, base, rk, s)
    ensures RankTo(re, base, exit, rk, m[s].out1) < Rank(re, base, rk, s)
    decreases re, 1
  {
    match re
    case Atom(_) =>
    case Cat(_, _) => RankFallsCat(m, re, base, exit, rk, s);
    case Alt(_, _) => RankFallsAlt(m, re, base, exit, rk, s);
    case Opt(a) =>
      if s < base + Size(a) { ExitsInside(m, a, base, exit, s); RankFalls(m, a, base, exit, rk, s); }
    case _ => RankFallsLoop(m, re, base, exit, rk, s);
  }

  lemma {:induction false} RankFallsCat(m: seq<State>, re: Regex, base: int, exit: int, rk: nat, s: int)
    requires re.Cat? && Fragment(m, re, base, exit) && NoNullableLoop(re) && base <= s < base + Size(re) &&
      m[s].kind == SPLIT
    ensures RankTo(re, base, exit, rk, m[s].out) < Rank(re, base, rk, s)
    ensures RankTo(re, base, exit, rk, m[s].out1) < Rank(re, base, rk, s)
    decreases re, 0
  {
    var a, b, mid := re.left, re.right, base + Size(re.left);
    if s < mid {
      ExitsInside(m, a, base, Start(b, mid), s);
      RankFalls(m, a, base, Start(b, mid), Rank(b, mid, rk, Start(b, mid)), s);
    } else {
      ExitsInside(m, b, mid, exit, s);
      RankFalls(m, b, mid, exit, rk, s);
    }
  }

  lemma {:induction false} RankFallsAlt(m: seq<State>, re: Regex, base: int, exit: int, rk: nat, s: int)
    requires re.Alt? && Fragment(m, re, base, exit) && NoNullableLoop(re) && base <= s < base + Size(re) &&
      m[s].kind == SPLIT
    ensures RankTo(re, base, exit, rk, m[s].out) < Rank(re, base, rk, s)
    ensures RankTo(re, base, exit, rk, m[s].out1) < Rank(re, base, rk, s)
    decreases re, 0
  {
    var a, b, mid := re.left, re.right, base + Size(re.left);
    if s < mid {
      ExitsInside(m, a, base, exit, s);
      RankFalls(m, a, base, exit, rk, s);
    } else if s < mid + Size(b) {
      ExitsInside(m, b, mid, exit, s);
      RankFalls(m, b, mid, exit, rk, s);
    }
  }

  lemma {:induction false} RankFallsLoop(m: seq<State>, re: Regex, base: int, exit: int, rk: nat, s: int)
    requires (re.Plus? || re.Star?) && Fragment(m, re, base, exit) && NoNullableLoop(re)
    requires base <= s < base + Size(re) && m[s].kind == SPLIT
    ensures RankTo(re, base, exit, rk, m[s].out) < Rank(re, base, rk, s)
    ensures RankTo(re, base, exit, rk, m[s].out1) < Rank(re, base, rk, s)
    decreases re, 0
  {
    var a, split := re.body, base + Size(re.body);
    var x := 1 + rk + Rank(a, base, 0, Start(a, base));
    assert Fragment(m, a, base, split) && NoNullableLoop(a) && !Nullable(a);
    assert Rank(re, base, rk, split) == x;
    if s < split {
      assert Rank(re, base, rk, s) == Rank(a, base, x, s);
      ExitsInside(m, a, base, split, s);
      RankFalls(m, a, base, split, x, s);
    } else {
      StartRankFixed(a, base, 0, x);
      assert Rank(re, base, rk, Start(a, base)) == Rank(a, base, x, Start(a, base));
    }
  }

  lemma {:induction false} MachineRanked(m: seq<State>, re: Regex) returns (ranks: seq<nat>)
    requires IsMachine(m, re) && NoNullableLoop(re)
    ensures Ranked(m, ranks)
  {
    var n := Size(re);
    ranks := seq(n + 1, s => RankTo(re, 0, n, 0, s));
    forall s | 0 <= s < |m| && m[s].kind == SPLIT
      ensures 0 <= m[s].out < |m| && ranks[m[s].out] < ranks[s]
      ensures 0 <= m[s].out1 < |m| && ranks[m[s].out1] < ranks[s]
    {
      ExitsInside(m, re, 0, n, s);
      RankFalls(m, re, 0, n, 0, s);
    }
  }

  /** A nullable body under + or * gives a cycle of SPLIT edges. */
  lemma {:induction false} NullableLoopCycles(m: seq<State>, re: Regex, base: int, exit: int) returns (t: Trail)
    requires Fragment(m, re, base, exit) && 0 <= exit < |m| && LeavesOk(re) && !NoNullableLoop(re)
    ensures Valid(m, t) && End(t) == t.s && Word(t) == "" && Length(t) > 0
    decreases re, 1
  {
    match re
    case Cat(_, _) => t := PairCycles(m, re, base, exit);
    case Alt(_, _) => t := PairCycles(m, re, base, exit);
    case Opt(a) => t := NullableLoopCycles(m, a, base, exit);
    case Plus(_) => t := BodyCycles(m, re, base, exit);
    case Star(_) => t := BodyCycles(m, re, base, exit);
    case Atom(_) =>
      assert false;
  }

  lemma {:induction false} PairCycles(m: seq<State>, re: Regex, base: int, exit: int) returns (t: Trail)
    requires (re.Cat? || re.Alt?) && Fragment(m, re, base, exit) && 0 <= exit < |m| && LeavesOk(re) &&
      !NoNullableLoop(re)
    ensures Valid(m, t) && End(t) == t.s && Word(t) == "" && Length(t) > 0
    decreases re, 0
  {
    var a, b, mid := re.left, re.right, base + Size(re.left);
    if !NoNullableLoop(a) {
      t := NullableLoopCycles(m, a, base, if re.Cat? then Start(b, mid) else exit);
    } else {
      t := NullableLoopCycles(m, b, mid, exit);
    }
  }

  lemma {:induction false} BodyCycles(m: seq<State>, re: Regex, base: int, exit: int) returns (t: Trail)
    requires (re.Plus? || re.Star?) && Fragment(m, re, base, exit) && 0 <= exit < |m| && LeavesOk(re) &&
      !NoNullableLoop(re)
    ensures Valid(m, t) && End(t) == t.s && Word(t) == "" && Length(t) > 0
    decreases re, 0
  {
    var a := re.body;
    if NoNullableLoop(a) {
      t := LoopCycle(m, a, base, exit);
    } else {
      t := NullableLoopCycles(m, a, base, base + Size(a));
    }
  }

  lemma {:induction false} LoopCycle(m: seq<State>, a: Regex, base: int, exit: int) returns (t: Trail)
    requires Fragment(m, a, base, base + Size(a)) && base + Size(a) < |m| && LeavesOk(a) && Nullable(a)
    requires m[base + Size(a)] == SplitState(Start(a, base), exit)
    ensures Valid(m, t) && End(t) == t.s && Word(t) == "" && Length(t) > 0
  {
    NullableIffEmpty(a);
    t := WordHasRun(m, a, base, base + Size(a), "");
    t := Split(base + Size(a), t);
  }

  lemma {:induction false} SilentRunFalls(m: seq<State>, ranks: seq<nat>, t: Trail)
    requires Ranked(m, ranks) && Valid(m, t) && Word(t) == ""
    ensures 0 <= End(t) < |m| && ranks[End(t)] + Length(t) <= ranks[t.s]
  {
    if t.Split? { SilentRunFalls(m, ranks, t.rest); }
  }

  /** Following SPLIT edges terminates exactly when no + or * wraps a body that accepts the empty word. */
  lemma {:induction false} RankedIffNoNullableLoop(m: seq<State>, re: Regex)
    requires IsMachine(m, re) && LeavesOk(re)
    ensures (exists ranks :: Ranked(m, ranks)) <==> NoNullableLoop(re)
  {
    if NoNullableLoop(re) {
      var ranks := MachineRanked(m, re);
    } else if ranks :| Ranked(m, ranks) {
      var t := NullableLoopCycles(m, re, 0, Size(re));
      SilentRunFalls(m, ranks, t);
    }
  }

  // ------------------------------------------- where following edges ends

  /** Following SPLIT edges from s ends within n edges, whichever are taken. */
  ghost predicate Settles(m: seq<State>, s: int, n: nat)
    decreases n
  {
    && 0 <= s < |m|
    && (m[s].kind == SPLIT ==> n > 0 && Settles(m, m[s].out, n - 1) && Settles(m, m[s].out1, n - 1))
  }

  ghost predicate Settled(m: seq<State>, s: int) { exists n :: Settles(m, s, n) }

  /** All exits of SPLIT states are states. */
  ghost predicate ExitsKnown(m: seq<State>) {
    forall s :: 0 <= s < |m| && m[s].kind == SPLIT ==> 0 <= m[s].out < |m| && 0 <= m[s].out1 < |m|
  }

  lemma {:induction false} SettlesBounds(m: seq<State>, s: int, n: nat, r: Trail)
    requires Settles(m, s, n) && Valid(m, r) && r.s == s && Word(r) == ""
    ensures Length(r) <= n
    decreases n
  {
    if r.Split? { SettlesBounds(m, r.rest.s, n - 1, r.rest); }
  }

  lemma {:induction false} LongRun(m: seq<State>, s: int, n: nat) returns (r: Trail)
    requires ExitsKnown(m) && 0 <= s < |m| && !Settles(m, s, n)
    ensures Valid(m, r) && r.s == s && Word(r) == "" && Length(r) > n
    decreases n
  {
    if n == 0 {
      r := Split(s, At(m[s].out));
    } else {
      var next := if Settles(m, m[s].out, n - 1) then m[s].out1 else m[s].out;
      r := LongRun(m, next, n - 1);
      r := Split(s, r);
    }
  }

  /** Following SPLIT edges from a state ends exactly when the runs from it that read nothing are bounded in length. */
  lemma {:induction false} SettlesIffBounded(m: seq<State>, s: int, n: nat)
    requires ExitsKnown(m) && 0 <= s < |m|
    ensures Settles(m, s, n) <==> forall r :: Valid(m, r) && r.s == s && Word(r) == "" ==> Length(r) <= n
  {
    if Settles(m, s, n) {
      forall r | Valid(m, r) && r.s == s && Word(r) == "" ensures Length(r) <= n { SettlesBounds(m, s, n, r); }
    } else {
      var r := LongRun(m, s, n);
    }
  }

  lemma {:induction false} RankSettles(m: seq<State>, ranks: seq<nat>, s: int, n: nat)
    requires Ranked(m, ranks) && 0 <= s < |m| && ranks[s] <= n
    ensures Settles(m, s, n)
    decreases n
  {
    if m[s].kind == SPLIT {
      RankSettles(m, ranks, m[s].out, n - 1);
      RankSettles(m, ranks, m[s].out1, n - 1);
    }
  }

  /** Without nullable loops it ends from every state. */
  lemma {:induction false} AllSettled(m: seq<State>, re: Regex, s: int)
    requires IsMachine(m, re) && NoNullableLoop(re) && 0 <= s < |m|
    ensures Settled(m, s)
  {
    var ranks := MachineRanked(m, re);
    RankSettles(m, ranks, s, ranks[s]);
  }

  // ------------------------------------------------------------ closure

  /** State t does not split and SPLIT edges lead from s to it. */
  ghost predicate Reaches(m: seq<State>, s: int, t: int) {
    0 <= t < |m| && m[t].kind != SPLIT && exists r :: Runs(m, r, s, t, "")
  }

  ghost function Closure(m: seq<State>, s: int): set<int> {
    set t | 0 <= t < |m| && Reaches(m, s, t)
  }

  lemma {:induction false} ClosureOfPlain(m: seq<State>, s: int)
    requires 0 <= s < |m| && m[s].kind != SPLIT
    ensures Closure(m, s) == {s}
  {
    assert Runs(m, At(s), s, s, "");
    forall t | Reaches(m, s, t) ensures t == s {
      var r :| Runs(m, r, s, t, "");
    }
  }

  lemma {:induction false} ClosureOfSplit(m: seq<State>, s: int)
    requires 0 <= s < |m| && m[s].kind == SPLIT && 0 <= m[s].out < |m| && 0 <= m[s].out1 < |m|
    ensures Closure(m, s) == Closure(m, m[s].out) + Closure(m, m[s].out1)
  {
    forall t | Reaches(m, s, t) ensures t in Closure(m, m[s].out) + Closure(m, m[s].out1) {
      var r :| Runs(m, r, s, t, "");
      assert Runs(m, r.rest, r.rest.s, t, "");
    }
    forall t | t in Closure(m, m[s].out) + Closure(m, m[s].out1) ensures Reaches(m, s, t) {
      var u := if Reaches(m, m[s].out, t) then m[s].out else m[s].out1;
      var r :| Runs(m, r, u, t, "");
      assert Runs(m, Split(s, r), s, t, "");
    }
  }

  // ------------------------------------------------------------ simulation

  /** The plain states a run from start can be in after reading w. */
  ghost predicate After(m: seq<State>, start: int, w: string, t: int) {
    0 <= t < |m| && m[t].kind != SPLIT && exists r :: Runs(m, r, start, t, w)
  }

  ghost function StatesAfter(m: seq<State>, start: int, w: string): set<int> {
    set t | 0 <= t < |m| && After(m, start, w, t)
  }

  lemma {:induction false} LastRead(m: seq<State>, r: Trail) returns (q: Trail, tail: Trail)
    requires Valid(m, r) && Word(r) != ""
    ensures Valid(m, q) && q.s == r.s && 0 <= End(q) < |m| && m[End(q)].kind != SPLIT
    ensures Word(r) == Word(q) + [Word(r)[|Word(r)| - 1]] && Consumes(m[End(q)], Word(r)[|Word(r)| - 1])
    ensures Valid(m, tail) && tail.s == m[End(q)].out && End(tail) == End(r) && Word(tail) == ""
  {
    if Word(r.rest) == "" {
      q, tail := At(r.s), r.rest;
    } else {
      q, tail := LastRead(m, r.rest);
      if r.Split? {
        q := Split(r.s, q);
      } else {
        Assoc([r.c], Word(q), [Word(r)[|Word(r)| - 1]]);
        q := Read(r.s, r.c, q);
      }
    }
  }

  /** One step of the simulation: what the next set of states is. */
  lemma {:induction false} StatesAfterNext(m: seq<State>, start: int, w: string, c: char, t: int)
    ensures t in StatesAfter(m, start, w + [c]) <==>
      exists s :: s in StatesAfter(m, start, w) && Consumes(m[s], c) && t in Closure(m, m[s].out)
  {
    if t in StatesAfter(m, start, w + [c]) {
      var r :| Runs(m, r, start, t, w + [c]);
      var q, tail := LastRead(m, r);
      assert w == (w + [c])[..|w|] == Word(q);
      var s := End(q);
      assert Runs(m, q, start, s, w) && s in StatesAfter(m, start, w);
      assert Runs(m, tail, m[s].out, t, "");
    }
    if s :| s in StatesAfter(m, start, w) && Consumes(m[s], c) && t in Closure(m, m[s].out) {
      var q :| Runs(m, q, start, s, w);
      var tail :| Runs(m, tail, m[s].out, t, "");
      var last := Read(s, c, tail);
      AppendRuns(m, q, last);
      assert Runs(m, Append(q, last), start, t, w + [c]);
    }
  }

  lemma {:induction false} StatesAfterNone(m: seq<State>, start: int)
    requires 0 <= start < |m|
    ensures StatesAfter(m, start, "") == Closure(m, start)
  {
  }

  /** A word is accepted exactly when the states after it include a MATCH state. */
  lemma {:induction false} AcceptsIffMatch(m: seq<State>, start: int, w: string)
    ensures Accepts(m, start, w) <==> exists t :: t in StatesAfter(m, start, w) && m[t].kind == MATCH
  {
    if Accepts(m, start, w) {
      var r :| Valid(m, r) && r.s == start && Word(r) == w && IsMatchState(m, End(r));
      assert Runs(m, r, start, End(r), w);
      assert End(r) in StatesAfter(m, start, w);
    }
    if t :| t in StatesAfter(m, start, w) && m[t].kind == MATCH {
      var r :| Runs(m, r, start, t, w);
      assert IsMatchState(m, End(r));
    }
  }

  /** Once no state is left, none comes back. */
  lemma {:induction false} EmptyStaysEmpty(m: seq<State>, start: int, u: string, v: string)
    requires StatesAfter(m, start, u) == {}
    ensures StatesAfter(m, start, u + v) == {}
    decreases |v|
  {
    if v == "" {
      assert u + v == u;
    } else {
      var n := |v| - 1;
      EmptyStaysEmpty(m, start, u, v[..n]);
      Assoc(u, v[..n], [v[n]]);
      assert v[..n] + [v[n]] == v;
      forall t ensures t !in StatesAfter(m, start, u + v) {
        StatesAfterNext(m, start, u + v[..n], v[n], t);
      }
    }
  }
}
