/**
  What callbacks and emits do, told on the list, the sinks and the trace of
  invocations alone.
 */
module EventLaws {
  import opened Basics
  import opened Events

  /** c stands before d. */
  ghost predicate Before(s: seq<Binder>, c: Binder, d: Binder) {
    exists i, j :: 0 <= i < j < |s| && s[i] == c && s[j] == d
  }

  // ------------------------------------------------------------- single actions

  lemma {:induction false} KeepBefore(s: seq<Binder>, t: set<Binder>, c: Binder, d: Binder)
    requires c !in t && d !in t
    ensures Before(Keep(s, t), c, d) <==> Before(s, c, d)
  {
    if s != [] {
      var rest, kept := s[1..], Keep(s[1..], t);
      KeepBefore(rest, t, c, d);
      KeepIn(rest, t, d);
      BeforeCons(s[0], rest, c, d);
      assert s == [s[0]] + rest;
      if s[0] !in t { BeforeCons(s[0], kept, c, d); } else { assert Keep(s, t) == kept; }
    }
  }

  lemma {:induction false} BeforeCons(x: Binder, s: seq<Binder>, c: Binder, d: Binder)
    ensures Before([x] + s, c, d) <==> (x == c && d in s) || Before(s, c, d)
  {
    var t := [x] + s;
    if Before(t, c, d) {
      var i, j :| 0 <= i < j < |t| && t[i] == c && t[j] == d;
      assert t[j] == s[j - 1];
      if i > 0 { assert s[i - 1] == c && s[j - 1] == d; }
    }
    if x == c && d in s {
      var j :| 0 <= j < |s| && s[j] == d;
      assert t[0] == c && t[j + 1] == d;
    }
    if Before(s, c, d) {
      var i, j :| 0 <= i < j < |s| && s[i] == c && s[j] == d;
      assert t[i + 1] == c && t[j + 1] == d;
    }
  }

  /** Unbinding takes a binder out; everything else stays, in its order. */
  lemma {:induction false} UnbindLaw(b: Binder, w: World)
    ensures var w' := Perform(Unbind(b), w);
      && (forall c :: c in w'.list <==> c in w.list && c != b)
      && (forall c, d :: c != b && d != b ==> (Before(w'.list, c, d) <==> Before(w.list, c, d)))
      && w'.sinks == w.sinks && w'.trace == w.trace
  {
    forall c ensures c in Keep(w.list, {b}) <==> c in w.list && c != b { KeepIn(w.list, {b}, c); }
    forall c, d | c != b && d != b ensures Before(Keep(w.list, {b}), c, d) <==> Before(w.list, c, d) {
      KeepBefore(w.list, {b}, c, d);
    }
  }

  /** Binding puts a binder in front with its sink; the others stay behind it, in their order. */
  lemma {:induction false} BindLaw(b: Binder, sink: nat, w: World)
    ensures var w' := Perform(Bind(b, sink), w);
      && w'.list != [] && w'.list[0] == b && b !in w'.list[1..]
      && (forall c :: c in w'.list <==> c in w.list || c == b)
      && (forall c, d :: c != b && d != b ==> (Before(w'.list, c, d) <==> Before(w.list, c, d)))
      && w'.sinks == w.sinks[b := sink] && w'.trace == w.trace
  {
    var kept := Keep(w.list, {b});
    assert ([b] + kept)[1..] == kept;
    forall c ensures c in kept <==> c in w.list && c != b { KeepIn(w.list, {b}, c); }
    forall c, d | c != b && d != b ensures Before([b] + kept, c, d) <==> Before(w.list, c, d) {
      KeepBefore(w.list, {b}, c, d);
      BeforeCons(b, kept, c, d);
    }
  }

  // ---------------------------------------------------------------- emits

  /**
    An emit whose callbacks do nothing calls exactly the binders of the list that
    have a sink, in list order, and changes nothing else.
   */
  lemma {:induction false} SilentEmit(w: World) returns (calls: seq<Binder>)
    requires NoRepeats(w.list)
    ensures Perform(Emit(Silent), w) == Run(Then(Emit(Silent), Done), w) == w.(trace := w.trace + calls)
    ensures NoRepeats(calls)
    ensures forall b :: b in calls <==> b in w.list && b in w.sinks && w.sinks[b] != 0
    ensures forall i, j :: 0 <= i < j < |calls| ==> Before(w.list, calls[i], calls[j])
  {
    calls := SilentWalk(w.list, Silent, w.(touched := {}));
    assert w.touched + {} == w.touched;
  }

  lemma {:induction false} SilentWalk(todo: seq<Binder>, p: Plan, w: World) returns (calls: seq<Binder>)
    requires NoRepeats(todo) && p.Silent? && w.touched == {}
    ensures Walk(todo, p, w) == (w.(trace := w.trace + calls), calls)
    ensures NoRepeats(calls)
    ensures forall b :: b in calls <==> b in todo && b in w.sinks && w.sinks[b] != 0
    ensures forall i, j :: 0 <= i < j < |calls| ==> Before(todo, calls[i], calls[j])
  {
    calls := [];
    if todo == [] {
      assert w.trace + [] == w.trace;
      assert Walk(todo, p, w) == (w, []);
    } else {
      var b, rest := todo[0], todo[1..];
      var sounds := b in w.sinks && w.sinks[b] != 0;
      var w' := if sounds then w.(trace := w.trace + [b]) else w;
      var later := SilentWalk(rest, p, w');
      calls := (if sounds then [b] else []) + later;
      assert todo == [b] + rest && w'.trace + later == w.trace + calls;
      assert w'.(trace := w'.trace + later) == w.(trace := w.trace + calls);
      if sounds {
        assert Walk(todo, p, w) == (Walk(rest, p, w').0, [b] + later);
      } else {
        assert Walk(todo, p, w) == Walk(rest, p, w');
        assert calls == later;
      }
      assert Walk(todo, p, w) == (w.(trace := w.trace + calls), calls);
      hide Walk;
      assert forall c :: c in todo <==> c == b || c in rest;
      forall i, j | 0 <= i < j < |calls| ensures Before(todo, calls[i], calls[j]) {
        BeforeCons(b, rest, calls[i], calls[j]);
      }
    }
  }

  /** Every call followed by what its callback added to the trace. */
  ghost function Woven(calls: seq<Binder>, inner: seq<seq<Binder>>): seq<Binder>
    requires |inner| == |calls|
  {
    if calls == [] then [] else [calls[0]] + inner[0] + Woven(calls[1..], inner[1..])
  }

  /** What the i-th callback of an emit does. */
  function ScriptAt(p: Plan, i: nat): Script {
    match p
    case Silent => Done
    case Responses(s, q) => if i == 0 then s else ScriptAt(q, i - 1)
  }

  /**
    The i-th call comes after all before it and what they brought about; in the
    world v it leaves, its callback adds its part.
   */
  ghost predicate Replied(p: Plan, trace: seq<Binder>, calls: seq<Binder>, inner: seq<seq<Binder>>, v: World, i: nat)
    requires |inner| == |calls| && i < |calls|
  {
    && v.trace == trace + Woven(calls[..i], inner[..i]) + [calls[i]]
    && Run(ScriptAt(p, i), v).trace == v.trace + inner[i]
  }

  lemma {:induction false} PerformGrows(a: Action, w: World) returns (more: seq<Binder>)
    ensures Perform(a, w).trace == w.trace + more
    decreases a
  {
    more := [];
    if a.Emit? { more := WalkGrows(w.list, a.plan, w.(touched := {})); }
  }

  lemma {:induction false} RunGrows(s: Script, w: World) returns (more: seq<Binder>)
    ensures Run(s, w).trace == w.trace + more
    decreases s
  {
    more := [];
    if s.Then? {
      var first := PerformGrows(s.first, w);
      var later := RunGrows(s.rest, Perform(s.first, w));
      more := first + later;
      Assoc(w.trace, first, later);
    }
  }

  lemma {:induction false} WalkGrows(todo: seq<Binder>, p: Plan, w: World) returns (more: seq<Binder>)
    ensures Walk(todo, p, w).0.trace == w.trace + more
    decreases p, |todo|
  {
    more := [];
    if todo == [] {
    } else if todo[0] in w.touched || !Calls(w, todo[0]) {
      more := WalkGrows(todo[1..], p, w);
    } else {
      var w' := w.(trace := w.trace + [todo[0]]);
      match p
      case Silent =>
        var later := WalkGrows(todo[1..], p, w');
        more := [todo[0]] + later;
        Assoc(w.trace, [todo[0]], later);
      case Responses(s, q) =>
        var reply := RunGrows(s, w');
        var later := WalkGrows(todo[1..], q, Run(s, w'));
        more := [todo[0]] + reply + later;
        assert w.trace + [todo[0]] + reply + later == w.trace + more;
    }
  }

  lemma {:induction false} WalkWeaves(todo: seq<Binder>, p: Plan, w: World)
    returns (inner: seq<seq<Binder>>, at: seq<World>)
    ensures var calls := Walk(todo, p, w).1;
      && |inner| == |calls| == |at| && Walk(todo, p, w).0.trace == w.trace + Woven(calls, inner)
      && (forall b :: b in calls ==> b in todo)
      && (forall i, j :: 0 <= i < j < |calls| ==> Before(todo, calls[i], calls[j]))
      && forall i: nat :: i < |calls| ==> Replied(p, w.trace, calls, inner, at[i], i)
    decreases p, |todo|
  {
    inner, at := [], [];
    if todo == [] {
      assert w.trace + [] == w.trace;
    } else if todo[0] in w.touched || !Calls(w, todo[0]) {
      inner, at := WalkWeaves(todo[1..], p, w);
      BehindFirst(todo, Walk(todo, p, w).1);
    } else {
      var w' := w.(trace := w.trace + [todo[0]]);
      var s, q := ScriptAt(p, 0), if p.Responses? then p.rest else p;
      var reply := RunGrows(s, w');
      var v := Run(s, w');
      var later, worlds := WalkWeaves(todo[1..], q, v);
      inner, at := [reply] + later, [w'] + worlds;
      FirstReplied(p, w.trace, todo, Walk(todo[1..], q, v).1, reply, later, w', worlds, q);
      assert Walk(todo, p, w).1 == [todo[0]] + Walk(todo[1..], q, v).1;
    }
  }

  lemma {:induction false} BehindFirst(todo: seq<Binder>, calls: seq<Binder>)
    requires todo != [] && forall b :: b in calls ==> b in todo[1..]
    requires forall i, j :: 0 <= i < j < |calls| ==> Before(todo[1..], calls[i], calls[j])
    ensures forall i, j :: 0 <= i < j < |calls| ==> Before(todo, calls[i], calls[j])
    ensures forall b :: b in calls ==> b in todo
    ensures forall b :: b in calls ==> Before(todo, todo[0], b)
  {
    assert todo == [todo[0]] + todo[1..];
    forall i, j | 0 <= i < j < |calls| ensures Before(todo, calls[i], calls[j]) {
      BeforeCons(todo[0], todo[1..], calls[i], calls[j]);
    }
    forall b | b in calls ensures Before(todo, todo[0], b) { BeforeCons(todo[0], todo[1..], todo[0], b); }
  }

  lemma {:induction false} FirstReplied(p: Plan, trace: seq<Binder>, todo: seq<Binder>, later: seq<Binder>,
      reply: seq<Binder>, inner: seq<seq<Binder>>, w: World, at: seq<World>, q: Plan)
    requires todo != [] && |inner| == |later| == |at| && w.trace == trace + [todo[0]]
    requires q == if p.Responses? then p.rest else p
    requires Run(ScriptAt(p, 0), w).trace == w.trace + reply
    requires forall b :: b in later ==> b in todo[1..]
    requires forall i, j :: 0 <= i < j < |later| ==> Before(todo[1..], later[i], later[j])
    requires forall i: nat :: i < |later| ==> Replied(q, w.trace + reply, later, inner, at[i], i)
    ensures var calls, all, worlds := [todo[0]] + later, [reply] + inner, [w] + at;
      && trace + Woven(calls, all) == w.trace + reply + Woven(later, inner)
      && (forall b :: b in calls ==> b in todo)
      && (forall i, j :: 0 <= i < j < |calls| ==> Before(todo, calls[i], calls[j]))
      && forall i: nat :: i < |calls| ==> Replied(p, trace, calls, all, worlds[i], i)
  {
    var calls, all, worlds := [todo[0]] + later, [reply] + inner, [w] + at;
    assert calls[1..] == later && all[1..] == inner;
    BehindFirst(todo, later);
    assert trace + ([todo[0]] + reply + Woven(later, inner)) == trace + [todo[0]] + reply + Woven(later, inner);
    forall i: nat | i < |calls| ensures Replied(p, trace, calls, all, worlds[i], i) {
      if i == 0 {
        assert trace + Woven(calls[..0], all[..0]) + [calls[0]] == w.trace;
      } else {
        ReplyShifted(p, q, trace, todo[0], later, reply, inner, at[i - 1], i - 1);
      }
    }
  }

  lemma {:induction false} ReplyShifted(p: Plan, q: Plan, trace: seq<Binder>, b: Binder, later: seq<Binder>,
      reply: seq<Binder>, inner: seq<seq<Binder>>, v: World, i: nat)
    requires |inner| == |later| && i < |later| && q == if p.Responses? then p.rest else p
    requires Replied(q, trace + [b] + reply, later, inner, v, i)
    ensures Replied(p, trace, [b] + later, [reply] + inner, v, i + 1)
  {
    var calls, all, k := [b] + later, [reply] + inner, i + 1;
    assert calls[..k] == [b] + later[..i] && all[..k] == [reply] + inner[..i];
    assert calls[..k][1..] == later[..i] && all[..k][1..] == inner[..i];
    assert trace + ([b] + reply + Woven(later[..i], inner[..i])) == trace + [b] + reply + Woven(later[..i], inner[..i]);
    assert v.trace == trace + Woven(calls[..k], all[..k]) + [calls[k]];
    assert ScriptAt(p, k) == ScriptAt(q, i);
  }

  /**
    An emit by a callback, however deep, adds to the trace the binders reached
    from the list at its start, once each and in list order, each followed by what
    its own callback adds.
   */
  lemma {:induction false} NestedEmit(p: Plan, w: World, pool: set<Binder>)
    returns (calls: seq<Binder>, inner: seq<seq<Binder>>, at: seq<World>)
    requires NoRepeats(w.list) && PlanUses(p, pool) && pool <= w.sinks.Keys
    ensures |inner| == |calls| == |at| && Perform(Emit(p), w).trace == w.trace + Woven(calls, inner)
    ensures NoRepeats(calls) && forall i, j :: 0 <= i < j < |calls| ==> Before(w.list, calls[i], calls[j])
    ensures forall b :: b in calls ==> b in w.list && b in w.sinks && w.sinks[b] != 0
    ensures forall i: nat :: i < |w.list| ==> (w.list[i] in calls <==> Reached(w.list, p, w.(touched := {}), i))
    ensures forall i: nat :: i < |calls| ==> Replied(p, w.trace, calls, inner, at[i], i)
  {
    var start := w.(touched := {});
    calls := Walk(w.list, p, start).1;
    inner, at := WalkWeaves(w.list, p, start);
    WalkCallsReached(w.list, p, start, pool);
  }

  // ------------------------------------------------------------- small stories

  /** Two binders with sinks: the first is called and replies, then the second if it still may be. */
  lemma {:induction false} PairEmit(a: Binder, b: Binder, s: Script, w: World)
    requires a != b && w.list == [a, b] && a in w.sinks && w.sinks[a] != 0
    ensures var w' := Perform(Emit(Responses(s, Silent)), w);
      var v := Run(s, w.(touched := {}, trace := w.trace + [a]));
      && w'.list == v.list && w'.sinks == v.sinks
      && w'.trace == v.trace + if b !in v.touched && b in v.sinks && v.sinks[b] != 0 then [b] else []
  {
    var w0 := w.(touched := {});
    var v := Run(s, w.(touched := {}, trace := w.trace + [a]));
    assert w0.(trace := w0.trace + [a]) == w.(touched := {}, trace := w.trace + [a]);
    assert [a, b][1..] == [b] && [b][1..] == [] && v.trace + [] == v.trace;
    assert Walk([], Silent, v.(trace := v.trace + [b])) == (v.(trace := v.trace + [b]), []);
    assert Walk([], Silent, v) == (v, []);
    assert Walk([a, b], Responses(s, Silent), w0).0 == Walk([b], Silent, v).0;
  }

  /** The first callback emits once more: both are called twice, the inner round first. */
  lemma {:induction false} EmitWithinEmit(a: Binder, b: Binder, w: World)
    requires a != b && w.list == [a, b] && a in w.sinks && b in w.sinks && w.sinks[a] != 0 && w.sinks[b] != 0
    ensures Perform(Emit(Responses(Then(Emit(Silent), Done), Silent)), w).trace == w.trace + [a, a, b, b]
  {
    var w1 := w.(touched := {}, trace := w.trace + [a]);
    PairEmit(a, b, Then(Emit(Silent), Done), w);
    SilentPair(a, b, w1);
    assert Run(Then(Emit(Silent), Done), w1) == Perform(Emit(Silent), w1);
    assert w.trace + [a] + [a, b] + [b] == w.trace + [a, a, b, b];
  }

  lemma {:induction false} SilentPair(a: Binder, b: Binder, w: World)
    requires a != b && w.list == [a, b] && a in w.sinks && b in w.sinks && w.sinks[a] != 0 && w.sinks[b] != 0
    ensures Perform(Emit(Silent), w) == w.(trace := w.trace + [a, b])
  {
    var w0 := w.(touched := {});
    assert [a, b][1..] == [b] && [b][1..] == [];
    assert Walk([b], Silent, w0.(trace := w0.trace + [a])).0 == w0.(trace := w0.trace + [a] + [b]);
    assert w.trace + [a] + [b] == w.trace + [a, b] && w.touched + {} == w.touched;
  }

  lemma {:induction false} KeepOfPair(a: Binder, b: Binder, c: Binder)
    requires a != b && c != a
    ensures Keep([a, b], {c}) == if b == c then [a] else [a, b]
  {
    assert [a, b][1..] == [b] && [b][1..] == [];
    assert Keep([b], {c}) == if b == c then [] else [b];
  }

  /** The first callback unbinds the second binder: it is not called and not in the list any more. */
  lemma {:induction false} UnboundIsSkipped(a: Binder, b: Binder, w: World)
    requires a != b && w.list == [a, b] && a in w.sinks && b in w.sinks && w.sinks[a] != 0 && w.sinks[b] != 0
    ensures var w' := Perform(Emit(Responses(Then(Unbind(b), Done), Silent)), w);
      w'.trace == w.trace + [a] && w'.list == [a]
  {
    var w1 := w.(touched := {}, trace := w.trace + [a]);
    PairEmit(a, b, Then(Unbind(b), Done), w);
    KeepOfPair(a, b, b);
    assert Run(Then(Unbind(b), Done), w1) == Perform(Unbind(b), w1);
  }

  /** The first callback binds a third binder: it is in front from then on, and not called by this emit. */
  lemma {:induction false} BoundHasToWait(a: Binder, b: Binder, c: Binder, sink: nat, w: World)
    requires a != b && c != a && c != b && w.list == [a, b] && c in w.sinks
    requires a in w.sinks && b in w.sinks && w.sinks[a] != 0 && w.sinks[b] != 0
    ensures var w' := Perform(Emit(Responses(Then(Bind(c, sink), Done), Silent)), w);
      w'.trace == w.trace + [a, b] && w'.list == [c, a, b] && w'.sinks == w.sinks[c := sink]
  {
    var w1 := w.(touched := {}, trace := w.trace + [a]);
    PairEmit(a, b, Then(Bind(c, sink), Done), w);
    KeepOfPair(a, b, c);
    assert Run(Then(Bind(c, sink), Done), w1) == Perform(Bind(c, sink), w1);
    assert w.trace + [a] + [b] == w.trace + [a, b];
  }
}
