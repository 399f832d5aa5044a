/**
  The event list of EXTERN_LIB/srutil/event/event.hpp: binders in a circular
  doubly linked list, walked by emit with a bookmark so that callbacks may
  bind, unbind and emit again.

  What callbacks do is given by scripts, so the results hold for every script.
  A plain reference semantics, which goes through a snapshot of the list and
  knows neither pointers nor bookmarks, says what an emit does; the linked list
  is proved to do exactly that.
 */
module Events {
  import opened Basics

  class Binder {
    var prev: Binder
    var next: Binder
    var sink: nat  // 0 stands for the null delegate

    constructor ()
      ensures prev == this && next == this && sink == 0
    {
      prev, next, sink := this, this, 0;
    }

    method Unbind()
      modifies this`next, this`prev, prev`next, next`prev
      ensures prev == next == this
      ensures old(prev) != this ==> old(prev).next == old(next)
      ensures old(next) != this ==> old(next).prev == old(prev)
    {
      prev.next := next;
      next.prev := prev;
      next, prev := this, this;
    }

    /** Links this in after that; a node attached to itself, or where it is already, ends up as its own successor. */
    method AttachAfter(that: Binder)
      modifies this`next, this`prev, that`next, that.next`prev
      ensures prev == that && that.next == this
      ensures that != this && old(that.next) != this ==> next == old(that.next) && old(that.next).prev == this
      ensures that == this || old(that.next) == this ==> next == this
      ensures that == this ==> old(that.next).prev == this
    {
      next := that.next;
      next.prev := this;
      that.next := this;
      prev := that;
    }
  }

  // --------------------------------------------------- what callbacks may do

  datatype Action = Bind(b: Binder, sink: nat) | Unbind(b: Binder) | Emit(plan: Plan)

  /** The actions of one callback invocation. */
  datatype Script = Done | Then(first: Action, rest: Script)

  /** What the callbacks of one emit do, in the order they are invoked. */
  datatype Plan = Silent | Responses(first: Script, rest: Plan)

  /** Only public binders are bound and unbound by callbacks. */
  ghost predicate ActionUses(a: Action, pool: set<Binder>) {
    match a
    case Bind(b, _) => b in pool
    case Unbind(b) => b in pool
    case Emit(p) => PlanUses(p, pool)
  }

  ghost predicate ScriptUses(s: Script, pool: set<Binder>) {
    match s
    case Done => true
    case Then(a, r) => ActionUses(a, pool) && ScriptUses(r, pool)
  }

  ghost predicate PlanUses(p: Plan, pool: set<Binder>) {
    match p
    case Silent => true
    case Responses(s, r) => ScriptUses(s, pool) && PlanUses(r, pool)
  }

  // ----------------------------------------------------- reference semantics

  /** The elements of s outside t. */
  ghost function Keep(s: seq<Binder>, t: set<Binder>): seq<Binder> {
    if s == [] then [] else (if s[0] in t then [] else [s[0]]) + Keep(s[1..], t)
  }

  /** Bound binders in list order, their sinks, those bound or unbound of late, and all invocations so far. */
  datatype World = World(list: seq<Binder>, sinks: map<Binder, nat>, touched: set<Binder>, trace: seq<Binder>)

  ghost predicate Calls(w: World, b: Binder) {
    b in w.sinks && w.sinks[b] != 0
  }

  ghost function Perform(a: Action, w: World): World
    decreases a
  {
    match a
    case Bind(b, k) => World([b] + Keep(w.list, {b}), w.sinks[b := k], w.touched + {b}, w.trace)
    case Unbind(b) => World(Keep(w.list, {b}), w.sinks, w.touched + {b}, w.trace)
    case Emit(p) => EmitTo(p, w).0
  }

  ghost function Run(s: Script, w: World): World
    decreases s
  {
    match s
    case Done => w
    case Then(a, r) => Run(r, Perform(a, w))
  }

  /** One emit: go through the binders attached now; returns the new world and the binders this emit called. */
  ghost function EmitTo(p: Plan, w: World): (World, seq<Binder>)
    decreases p
  {
    var r := Walk(w.list, p, w.(touched := {}));
    (r.0.(touched := w.touched + r.0.touched), r.1)
  }

  /** Calls the binders of the snapshot that have a sink and have not been bound or unbound since. */
  ghost function Walk(todo: seq<Binder>, p: Plan, w: World): (World, seq<Binder>)
    decreases p, |todo|
  {
    if todo == [] then (w, [])
    else if todo[0] in w.touched || !Calls(w, todo[0]) then Walk(todo[1..], p, w)
    else
      var w' := w.(trace := w.trace + [todo[0]]);
      var r := match p
               case Silent => Walk(todo[1..], p, w')
               case Responses(s, q) => Walk(todo[1..], q, Run(s, w'));
      (r.0, [todo[0]] + r.1)
  }

  // ------------------------------------------------------ about sequences

  lemma {:induction false} KeepConcat(a: seq<Binder>, b: seq<Binder>, t: set<Binder>)
    ensures Keep(a + b, t) == Keep(a, t) + Keep(b, t)
  {
    if a == [] {
      assert a + b == b;
    } else {
      assert (a + b)[1..] == a[1..] + b;
      KeepConcat(a[1..], b, t);
    }
  }

  lemma {:induction false} KeepTwice(s: seq<Binder>, t: set<Binder>, u: set<Binder>)
    ensures Keep(Keep(s, t), u) == Keep(s, t + u)
  {
    if s != [] {
      KeepTwice(s[1..], t, u);
      KeepConcat(if s[0] in t then [] else [s[0]], Keep(s[1..], t), u);
    }
  }

  lemma {:induction false} KeepIn(s: seq<Binder>, t: set<Binder>, b: Binder)
    ensures b in Keep(s, t) <==> b in s && b !in t
  {
    if s != [] {
      KeepIn(s[1..], t, b);
      assert s == [s[0]] + s[1..];
    }
  }

  lemma {:induction false} KeepAll(s: seq<Binder>, t: set<Binder>)
    requires forall b :: b in s ==> b !in t
    ensures Keep(s, t) == s
  {
    if s != [] { KeepAll(s[1..], t); }
  }

  lemma {:induction false} KeepCommutes(s: seq<Binder>, t: set<Binder>, u: set<Binder>)
    ensures Keep(Keep(s, t), u) == Keep(Keep(s, u), t)
  {
    KeepTwice(s, t, u);
    KeepTwice(s, u, t);
    assert t + u == u + t;
  }

  // -------------------------------------------- how callbacks change the list

  /** The list of w' is that of w without some touched binders, with touched binders put in front. */
  ghost predicate Evolved(w: World, w': World, added: seq<Binder>, t: set<Binder>, pool: set<Binder>) {
    && w'.list == added + Keep(w.list, t)
    && (forall b :: b in added ==> b in t)
    && w'.touched == w.touched + t && t <= pool
    && w'.sinks.Keys == w.sinks.Keys
    && forall b :: b in w.sinks && b !in t ==> w'.sinks[b] == w.sinks[b]
  }

  lemma {:induction false} EvolvedNot(w: World, pool: set<Binder>)
    ensures Evolved(w, w, [], {}, pool)
  {
    KeepAll(w.list, {});
  }

  lemma {:induction false} EvolvedTwice(w: World, w1: World, w2: World, a1: seq<Binder>, t1: set<Binder>,
      a2: seq<Binder>, t2: set<Binder>, pool: set<Binder>)
    requires Evolved(w, w1, a1, t1, pool) && Evolved(w1, w2, a2, t2, pool)
    ensures Evolved(w, w2, a2 + Keep(a1, t2), t1 + t2, pool)
  {
    KeepConcat(a1, Keep(w.list, t1), t2);
    KeepTwice(w.list, t1, t2);
    assert w2.list == a2 + (Keep(a1, t2) + Keep(w.list, t1 + t2)) == (a2 + Keep(a1, t2)) + Keep(w.list, t1 + t2);
    assert w2.touched == w.touched + (t1 + t2);
    forall b | b in a2 + Keep(a1, t2) ensures b in t1 + t2 {
      if b !in a2 { KeepIn(a1, t2, b); }
    }
    forall b | b in w.sinks && b !in t1 + t2 ensures w2.sinks[b] == w.sinks[b] { assert b in w1.sinks; }
  }

  lemma {:induction false} PerformEvolves(a: Action, w: World, pool: set<Binder>)
    returns (added: seq<Binder>, t: set<Binder>)
    requires ActionUses(a, pool) && pool <= w.sinks.Keys
    ensures Evolved(w, Perform(a, w), added, t, pool)
    decreases a
  {
    match a
    case Bind(b, _) => added, t := [b], {b};
    case Unbind(b) => added, t := [], {b};
    case Emit(p) => added, t := EmitEvolves(p, w, pool);
  }

  lemma {:induction false} RunEvolves(s: Script, w: World, pool: set<Binder>)
    returns (added: seq<Binder>, t: set<Binder>)
    requires ScriptUses(s, pool) && pool <= w.sinks.Keys
    ensures Evolved(w, Run(s, w), added, t, pool)
    decreases s
  {
    match s
    case Done =>
      added, t := [], {};
      EvolvedNot(w, pool);
    case Then(a, r) =>
      var a1, t1 := PerformEvolves(a, w, pool);
      var a2, t2 := RunEvolves(r, Perform(a, w), pool);
      EvolvedTwice(w, Perform(a, w), Run(s, w), a1, t1, a2, t2, pool);
      added, t := a2 + Keep(a1, t2), t1 + t2;
  }

  lemma {:induction false} EmitEvolves(p: Plan, w: World, pool: set<Binder>)
    returns (added: seq<Binder>, t: set<Binder>)
    requires PlanUses(p, pool) && pool <= w.sinks.Keys
    ensures Evolved(w, EmitTo(p, w).0, added, t, pool)
    decreases p
  {
    added, t := WalkEvolves(w.list, p, w.(touched := {}), pool);
  }

  lemma {:induction false} WalkEvolves(todo: seq<Binder>, p: Plan, w: World, pool: set<Binder>)
    returns (added: seq<Binder>, t: set<Binder>)
    requires PlanUses(p, pool) && pool <= w.sinks.Keys
    ensures Evolved(w, Walk(todo, p, w).0, added, t, pool)
    decreases p, |todo|
  {
    if todo == [] {
      added, t := [], {};
      EvolvedNot(w, pool);
    } else if todo[0] in w.touched || !Calls(w, todo[0]) {
      added, t := WalkEvolves(todo[1..], p, w, pool);
    } else {
      var w' := w.(trace := w.trace + [todo[0]]);
      match p
      case Silent =>
        added, t := WalkEvolves(todo[1..], p, w', pool);
      case Responses(s, q) =>
        var a1, t1 := RunEvolves(s, w', pool);
        var a2, t2 := WalkEvolves(todo[1..], q, Run(s, w'), pool);
        EvolvedTwice(w', Run(s, w'), Walk(todo, p, w).0, a1, t1, a2, t2, pool);
        added, t := a2 + Keep(a1, t2), t1 + t2;
    }
  }

  // ---------------------------------------------- a bookmark makes no difference

  ghost function Without(w: World, m: Binder): World {
    w.(list := Keep(w.list, {m}))
  }

  ghost predicate Inert(w: World, m: Binder, pool: set<Binder>) {
    m !in pool && m !in w.sinks && pool <= w.sinks.Keys
  }

  lemma {:induction false} PerformWithout(a: Action, w: World, m: Binder, pool: set<Binder>)
    requires ActionUses(a, pool) && Inert(w, m, pool)
    ensures Perform(a, Without(w, m)) == Without(Perform(a, w), m)
    decreases a
  {
    match a
    case Bind(b, _) =>
      KeepCommutes(w.list, {b}, {m});
      KeepConcat([b], Keep(w.list, {b}), {m});
    case Unbind(b) => KeepCommutes(w.list, {b}, {m});
    case Emit(p) => EmitWithout(p, w, m, pool);
  }

  lemma {:induction false} RunWithout(s: Script, w: World, m: Binder, pool: set<Binder>)
    requires ScriptUses(s, pool) && Inert(w, m, pool)
    ensures Run(s, Without(w, m)) == Without(Run(s, w), m)
    decreases s
  {
    match s
    case Done =>
    case Then(a, r) =>
      PerformWithout(a, w, m, pool);
      var _, _ := PerformEvolves(a, w, pool);
      RunWithout(r, Perform(a, w), m, pool);
  }

  lemma {:induction false} EmitWithout(p: Plan, w: World, m: Binder, pool: set<Binder>)
    requires PlanUses(p, pool) && Inert(w, m, pool)
    ensures EmitTo(p, Without(w, m)).0 == Without(EmitTo(p, w).0, m)
    decreases p
  {
    WalkWithout(w.list, p, w.(touched := {}), m, pool);
  }

  lemma {:induction false} WalkWithout(todo: seq<Binder>, p: Plan, w: World, m: Binder, pool: set<Binder>)
    requires PlanUses(p, pool) && Inert(w, m, pool)
    ensures Walk(Keep(todo, {m}), p, Without(w, m)) == (Without(Walk(todo, p, w).0, m), Walk(todo, p, w).1)
    decreases p, |todo|
  {
    if todo == [] {
    } else if todo[0] in w.touched || !Calls(w, todo[0]) {
      WalkWithout(todo[1..], p, w, m, pool);
      if todo[0] == m {
        assert Keep(todo, {m}) == Keep(todo[1..], {m});
      } else {
        assert Keep(todo, {m}) == [todo[0]] + Keep(todo[1..], {m});
        assert Keep(todo, {m})[1..] == Keep(todo[1..], {m});
      }
    } else {
      assert Keep(todo, {m})[1..] == Keep(todo[1..], {m});
      var w' := w.(trace := w.trace + [todo[0]]);
      match p
      case Silent =>
        WalkWithout(todo[1..], p, w', m, pool);
      case Responses(s, q) =>
        RunWithout(s, w', m, pool);
        var _, _ := RunEvolves(s, w', pool);
        WalkWithout(todo[1..], q, Run(s, w'), m, pool);
    }
  }

  // ------------------------------------------------------ who gets called

  /** The world when the walk has dealt with the first i binders of its snapshot. */
  ghost function WorldAt(todo: seq<Binder>, p: Plan, w: World, i: nat): World
    requires i <= |todo|
    decreases i
  {
    if i == 0 then w
    else if todo[0] in w.touched || !Calls(w, todo[0]) then WorldAt(todo[1..], p, w, i - 1)
    else
      var w' := w.(trace := w.trace + [todo[0]]);
      match p
      case Silent => WorldAt(todo[1..], p, w', i - 1)
      case Responses(s, q) => WorldAt(todo[1..], q, Run(s, w'), i - 1)
  }

  /** Binders of the snapshot whose turn comes before they are bound or unbound, and that have a sink. */
  ghost predicate Reached(todo: seq<Binder>, p: Plan, w: World, i: nat)
    requires i < |todo|
  {
    todo[i] !in WorldAt(todo, p, w, i).touched && Calls(WorldAt(todo, p, w, i), todo[i])
  }

  ghost predicate NoRepeats(s: seq<Binder>) {
    forall i, j :: 0 <= i < j < |s| ==> s[i] != s[j]
  }

  /**
    One walk calls, once each, exactly the binders of its snapshot that are
    reached; an untouched binder has the sink it had at the start.
   */
  lemma {:induction false} WalkCallsReached(todo: seq<Binder>, p: Plan, w: World, pool: set<Binder>)
    requires NoRepeats(todo) && PlanUses(p, pool) && pool <= w.sinks.Keys
    ensures var calls := Walk(todo, p, w).1;
      && NoRepeats(calls)
      && (forall b :: b in calls ==> b in todo && b !in w.touched && Calls(w, b))
      && forall i: nat :: i < |todo| ==> (todo[i] in calls <==> Reached(todo, p, w, i))
    decreases p, |todo|
  {
    var calls := Walk(todo, p, w).1;
    if todo != [] {
      var rest := todo[1..];
      assert forall i :: 1 <= i < |todo| ==> todo[i] == rest[i - 1];
      if todo[0] in w.touched || !Calls(w, todo[0]) {
        WalkCallsReached(rest, p, w, pool);
        WalkShift(todo, p, w, rest, p, w, calls);
      } else {
        var w' := w.(trace := w.trace + [todo[0]]);
        match p
        case Silent =>
          WalkCallsReached(rest, p, w', pool);
          WalkShift(todo, p, w, rest, p, w', Walk(rest, p, w').1);
          FirstCalled(todo, p, w, rest, Walk(rest, p, w').1);
        case Responses(s, q) =>
          var v := Run(s, w');
          var _, t := RunEvolves(s, w', pool);
          assert v.touched == w.touched + t && pool <= v.sinks.Keys;
          WalkCallsReached(rest, q, v, pool);
          var later := Walk(rest, q, v).1;
          forall b | b in later ensures b in rest && b !in w.touched && Calls(w, b) {
            assert b !in t && Calls(v, b);
          }
          WalkShift(todo, p, w, rest, q, v, later);
          FirstCalled(todo, p, w, rest, later);
      }
    }
  }

  /** The first of a snapshot, when it is called, comes before the calls to the rest. */
  lemma {:induction false} FirstCalled(todo: seq<Binder>, p: Plan, w: World, rest: seq<Binder>, later: seq<Binder>)
    requires todo != [] && rest == todo[1..] && NoRepeats(todo) && NoRepeats(later)
    requires todo[0] !in w.touched && Calls(w, todo[0])
    requires forall b :: b in later ==> b in rest && b !in w.touched && Calls(w, b)
    requires forall i: nat :: 1 <= i < |todo| ==> (todo[i] in later <==> Reached(todo, p, w, i))
    ensures var calls := [todo[0]] + later;
      && NoRepeats(calls)
      && (forall b :: b in calls ==> b in todo && b !in w.touched && Calls(w, b))
      && forall i: nat :: i < |todo| ==> (todo[i] in calls <==> Reached(todo, p, w, i))
  {
    assert todo == [todo[0]] + rest;
    assert WorldAt(todo, p, w, 0) == w;
    assert forall i :: 1 <= i < |todo| ==> todo[i] != todo[0];
  }

  /** Bookkeeping of the step from a snapshot to its tail. */
  lemma {:induction false} WalkShift(todo: seq<Binder>, p: Plan, w: World, rest: seq<Binder>, q: Plan, w': World,
      calls': seq<Binder>)
    requires todo != [] && rest == todo[1..]
    requires forall i: nat :: 1 <= i <= |todo| ==> WorldAt(todo, p, w, i) == WorldAt(rest, q, w', i - 1)
    requires forall i: nat :: i < |rest| ==> (rest[i] in calls' <==> Reached(rest, q, w', i))
    ensures forall i: nat :: 1 <= i < |todo| ==> (todo[i] in calls' <==> Reached(todo, p, w, i))
  {
    forall i: nat | 1 <= i < |todo| ensures todo[i] in calls' <==> Reached(todo, p, w, i) {
      assert todo[i] == rest[i - 1];
      assert WorldAt(todo, p, w, i) == WorldAt(rest, q, w', i - 1);
    }
  }

  // ---------------------------------------------------------- the linked list

  /** Consecutive nodes point at each other. */
  ghost predicate Ring(r: seq<Binder>)
    reads r`next, r`prev
  {
    forall i :: 0 <= i < |r| - 1 ==> r[i].next == r[i + 1] && r[i + 1].prev == r[i]
  }

  lemma {:induction false} KeepOne(s: seq<Binder>, k: nat)
    requires k < |s| && NoRepeats(s)
    ensures Keep(s, {s[k]}) == s[..k] + s[k + 1..]
  {
    var rest := s[1..];
    if k == 0 {
      forall b | b in rest ensures b !in {s[0]} { var i :| 0 <= i < |rest| && rest[i] == b; assert b == s[i + 1]; }
      KeepAll(rest, {s[0]});
      assert s[..0] + rest == rest;
    } else {
      assert rest[k - 1] == s[k] && s[0] != s[k];
      KeepOne(rest, k - 1);
      assert rest[k..] == s[k + 1..] && [s[0]] + rest[..k - 1] == s[..k];
      Assoc([s[0]], rest[..k - 1], rest[k..]);
    }
  }

  ghost function InsertAt(s: seq<Binder>, k: nat, b: Binder): seq<Binder>
    requires k <= |s|
  {
    s[..k] + [b] + s[k..]
  }

  lemma {:induction false} InsertedDistinct(s: seq<Binder>, k: nat, b: Binder)
    requires k <= |s| && NoRepeats(s) && b !in s
    ensures NoRepeats(InsertAt(s, k, b))
    ensures forall c :: c in InsertAt(s, k, b) <==> c in s || c == b
  {
    var t := InsertAt(s, k, b);
    assert forall i :: 0 <= i < |t| ==> t[i] == if i < k then s[i] else if i == k then b else s[i - 1];
    forall c ensures c in t <==> c in s || c == b {
      if c in s {
        var i :| 0 <= i < |s| && s[i] == c;
        assert t[if i < k then i else i + 1] == c;
      }
      if c == b { assert t[k] == c; }
    }
  }

  lemma {:induction false} RemovedDistinct(s: seq<Binder>, k: nat)
    requires k < |s| && NoRepeats(s)
    ensures NoRepeats(s[..k] + s[k + 1..])
    ensures forall c :: c in s[..k] + s[k + 1..] ==> c in s
  {
    var t := s[..k] + s[k + 1..];
    assert forall i :: 0 <= i < |t| ==> t[i] == if i < k then s[i] else s[i + 1];
  }

  /** The ring of a list, its head at both ends. */
  ghost function Closed(head: Binder, list: seq<Binder>): seq<Binder> {
    [head] + list + [head]
  }

  lemma {:induction false} ClosedDistinct(head: Binder, list: seq<Binder>)
    requires NoRepeats(list) && head !in list
    ensures forall i, j :: 0 <= i < j <= |list| ==> Closed(head, list)[i] != Closed(head, list)[j]
    ensures forall i, j :: 1 <= i < j <= |list| + 1 ==> Closed(head, list)[i] != Closed(head, list)[j]
  {
  }

  /** Where the nodes of a ring are once one is inserted or removed. */
  lemma {:induction false} InsertedRing(head: Binder, list: seq<Binder>, k: nat, b: Binder)
    requires k <= |list|
    ensures var r, r' := Closed(head, list), Closed(head, list[..k] + [b] + list[k..]);
      |r'| == |r| + 1 && forall i :: 0 <= i < |r'| ==>
        r'[i] == if i <= k then r[i] else if i == k + 1 then b else r[i - 1]
  {
  }

  lemma {:induction false} RemovedRing(head: Binder, list: seq<Binder>, k: nat)
    requires k < |list|
    ensures var r, r' := Closed(head, list), Closed(head, list[..k] + list[k + 1..]);
      |r'| == |r| - 1 && forall i :: 0 <= i < |r'| ==> r'[i] == if i <= k then r[i] else r[i + 1]
  {
  }

  lemma {:induction false} RingNext(head: Binder, list: seq<Binder>, k: nat)
    requires Ring(Closed(head, list)) && k <= |list|
    ensures ([head] + list)[k].next == (list + [head])[k]
  {
    var r := Closed(head, list);
    assert r[k] == ([head] + list)[k] && r[k + 1] == (list + [head])[k];
  }

  lemma {:induction false} NextInside(head: Binder, list: seq<Binder>, k: nat)
    requires Ring(Closed(head, list)) && k < |list|
    ensures ([head] + list)[k + 1] == list[k] && (list[k].next == head || list[k].next in list)
  {
    RingNext(head, list, k + 1);
    assert (list + [head])[k + 1] == if k + 1 < |list| then list[k + 1] else head;
  }

  lemma {:induction false} RingConsistent(head: Binder, list: seq<Binder>)
    requires Ring(Closed(head, list))
    ensures forall b :: b == head || b in list ==> b.next.prev == b
  {
    var r := Closed(head, list);
    assert r[0].next == r[1];
    forall b | b in list ensures b.next.prev == b {
      var i :| 0 <= i < |list| && list[i] == b;
      assert r[i + 1] == b && r[i + 1].next == r[i + 2];
    }
  }

  lemma {:induction false} RingNeighbours(head: Binder, list: seq<Binder>, k: nat)
    requires Ring(Closed(head, list)) && k < |list|
    ensures list[k].next == (list + [head])[k + 1] && list[k].prev == ([head] + list)[k]
  {
    var r := Closed(head, list);
    assert r[k] == ([head] + list)[k] && r[k + 1] == list[k] && r[k + 2] == (list + [head])[k + 1];
  }

  lemma {:induction false} NextOf(head: Binder, list: seq<Binder>, front: seq<Binder>, b: Binder, rest: seq<Binder>)
    requires Ring(Closed(head, list)) && list == front + [b] + rest
    ensures b.next == (rest + [head])[0]
  {
    RingNeighbours(head, list, |front|);
    assert (list + [head])[|front| + 1] == (rest + [head])[0];
  }

  lemma {:induction false} StillInside(s: seq<Binder>, k: nat)
    requires k < |s| && NoRepeats(s)
    ensures forall b :: b in s[..k] + s[k + 1..] <==> b in s && b != s[k]
  {
    KeepOne(s, k);
    forall b ensures b in s[..k] + s[k + 1..] <==> b in s && b != s[k] { KeepIn(s, {s[k]}, b); }
  }

  /** Where a bookmark is after callbacks have changed the list around it. */
  lemma {:induction false} MarkStays(front: seq<Binder>, m: Binder, rest: seq<Binder>, added: seq<Binder>,
      t: set<Binder>)
    requires m !in t
    ensures added + Keep(front + [m] + rest, t) == (added + Keep(front, t)) + [m] + Keep(rest, t)
  {
    KeepConcat(front + [m], rest, t);
    KeepConcat(front, [m], t);
  }

  function Later(p: Plan): Plan {
    match p
    case Silent => Silent
    case Responses(_, q) => q
  }

  /** The world after the next callback, that of binder b, has been invoked and has responded. */
  ghost function Responded(p: Plan, w: World, b: Binder): World {
    Reply(p, w.(trace := w.trace + [b]))
  }

  ghost function Reply(p: Plan, w: World): World {
    match p
    case Silent => w
    case Responses(s, _) => Run(s, w)
  }

  lemma {:induction false} ResponseEvolves(p: Plan, w: World, pool: set<Binder>)
    returns (added: seq<Binder>, t: set<Binder>)
    requires PlanUses(p, pool) && pool <= w.sinks.Keys
    ensures Evolved(w, Reply(p, w), added, t, pool)
  {
    match p
    case Silent =>
      added, t := [], {};
      EvolvedNot(w, pool);
    case Responses(s, _) => added, t := RunEvolves(s, w, pool);
  }

  /** Without its bookmark the world after a callback is the one the callback makes of the list without it. */
  lemma {:induction false} MarkIsInvisible(p: Plan, w: World, marked: World, b: Binder, m: Binder, k: nat, pos: nat,
      pool: set<Binder>)
    requires PlanUses(p, pool) && pool == w.sinks.Keys && m !in pool && k <= |w.list|
    requires marked == w.(list := w.list[..k] + [m] + w.list[k..], trace := w.trace + [b]) && NoRepeats(marked.list)
    requires var l := Reply(p, marked).list;
      NoRepeats(l) && pos < |l| && l[pos] == m
    ensures var w' := Reply(p, marked);
      Responded(p, w, b) == w'.(list := w'.list[..pos] + w'.list[pos + 1..])
  {
    KeepOne(marked.list, k);
    assert marked.list[..k] + marked.list[k + 1..] == w.list;
    match p
    case Silent => KeepOne(marked.list, pos);
    case Responses(s, _) =>
      KeepOne(Run(s, marked).list, pos);
      RunWithout(s, marked, m, pool);
  }

  lemma {:induction false} InsertedAfter(w: World, marked: World, front: seq<Binder>, b: Binder, rest: seq<Binder>,
      m: Binder)
    requires w.list == front + [b] + rest
    requires marked.list == w.list[..|front| + 1] + [m] + w.list[|front| + 1..]
    ensures marked.list == (front + [b]) + [m] + rest
  {
  }

  /** After the reply the bookmark still separates what is left of the list before it from what is left after it. */
  lemma {:induction false} MarkAfterReply(p: Plan, w: World, marked: World, front: seq<Binder>, b: Binder,
      rest: seq<Binder>, m: Binder, pool: set<Binder>)
    returns (front': seq<Binder>, t: set<Binder>)
    requires PlanUses(p, pool) && pool == w.sinks.Keys && m !in pool
    requires w.list == front + [b] + rest
    requires marked == w.(list := (front + [b]) + [m] + rest, trace := w.trace + [b]) && NoRepeats(marked.list)
    requires NoRepeats(Reply(p, marked).list)
    ensures var w' := Reply(p, marked);
      && w'.list == front' + [m] + Keep(rest, t) && w'.touched == w.touched + t
      && |front'| < |w'.list| && w'.list[|front'|] == m
      && Responded(p, w, b) == w'.(list := w'.list[..|front'|] + w'.list[|front'| + 1..])
      && w'.list[..|front'|] + w'.list[|front'| + 1..] == front' + Keep(rest, t)
  {
    var added;
    added, t := ResponseEvolves(p, marked, pool);
    MarkStays(front + [b], m, rest, added, t);
    front' := added + Keep(front + [b], t);
    var l, pos, k := Reply(p, marked).list, |front'|, |front| + 1;
    assert l[pos] == m && l[..pos] == front' && l[pos + 1..] == Keep(rest, t);
    assert w.list[..k] == front + [b] && w.list[k..] == rest;
    MarkIsInvisible(p, w, marked, b, m, k, pos, pool);
  }

  lemma {:induction false} Begins(w0: World, plan: Plan)
    ensures Resumes(w0, plan, w0.list, plan, w0, [])
  {
    var calls := Walk(w0.list, plan, w0).1;
    assert [] + calls == calls;
  }

  /** When nothing of the snapshot is left in the list the walk is over. */
  lemma {:induction false} Ends(w0: World, plan: Plan, todo: seq<Binder>, p: Plan, w: World, calls: seq<Binder>)
    requires Resumes(w0, plan, todo, p, w, calls) && Keep(todo, w.touched) == []
    ensures Walk(w0.list, plan, w0) == (w, calls)
    decreases |todo|
  {
    if todo == [] {
      assert calls + [] == calls;
    } else {
      Ends(w0, plan, todo[1..], p, w, calls);
    }
  }

  /** The walk begun in w0 with the whole plan has made these calls and goes on with todo and p in world w. */
  ghost predicate Resumes(w0: World, plan: Plan, todo: seq<Binder>, p: Plan, w: World, calls: seq<Binder>) {
    Walk(w0.list, plan, w0) == (Walk(todo, p, w).0, calls + Walk(todo, p, w).1)
  }

  /** Drops the binders of the snapshot that are no longer to be called because they were bound or unbound. */
  lemma {:induction false} SkipTouched(w0: World, plan: Plan, todo: seq<Binder>, p: Plan, w: World, calls: seq<Binder>)
    returns (todo': seq<Binder>)
    requires Resumes(w0, plan, todo, p, w, calls) && Keep(todo, w.touched) != []
    ensures Resumes(w0, plan, todo', p, w, calls) && |todo'| <= |todo|
    ensures todo' != [] && todo'[0] !in w.touched && Keep(todo', w.touched) == Keep(todo, w.touched)
    decreases |todo|
  {
    if todo[0] in w.touched {
      assert Keep(todo, w.touched) == Keep(todo[1..], w.touched);
      todo' := SkipTouched(w0, plan, todo[1..], p, w, calls);
    } else {
      todo' := todo;
    }
  }

  lemma {:induction false} SkipSilent(w0: World, plan: Plan, todo: seq<Binder>, p: Plan, w: World, calls: seq<Binder>)
    requires todo != [] && Resumes(w0, plan, todo, p, w, calls) && !Calls(w, todo[0])
    ensures Resumes(w0, plan, todo[1..], p, w, calls)
  {
  }

  lemma {:induction false} CallResumes(w0: World, plan: Plan, todo: seq<Binder>, p: Plan, w: World, calls: seq<Binder>)
    requires todo != [] && Resumes(w0, plan, todo, p, w, calls) && todo[0] !in w.touched && Calls(w, todo[0])
    ensures Resumes(w0, plan, todo[1..], Later(p), Responded(p, w, todo[0]), calls + [todo[0]])
  {
    var w' := w.(trace := w.trace + [todo[0]]);
    var r := match p case Silent => Walk(todo[1..], p, w') case Responses(s, q) => Walk(todo[1..], q, Run(s, w'));
    assert calls + ([todo[0]] + r.1) == calls + [todo[0]] + r.1;
  }

  class EventSource {
    const head: Binder
    ghost var list: seq<Binder>
    ghost var marks: set<Binder>
    ghost var pool: set<Binder>
    ghost var sinks: map<Binder, nat>
    ghost var touched: set<Binder>
    ghost var trace: seq<Binder>

    ghost predicate Linked()
      reads this`list, head`next, head`prev, list`next, list`prev
    {
      NoRepeats(list) && head !in list && Ring(Closed(head, list))
    }

    /** The list is a ring of public binders and bookmarks; public binders outside it point at themselves. */
    ghost predicate Valid()
      reads this`list, this`marks, this`pool, this`sinks, head, list, pool, marks
    {
      && Linked() && head.sink == 0
      && head !in pool && head !in marks && pool !! marks
      && (forall b :: b in list ==> b in pool || b in marks)
      && (forall m :: m in marks ==> m in list && m.sink == 0)
      && (forall b :: b in pool && b !in list ==> b.next == b && b.prev == b)
      && sinks.Keys == pool && (forall b :: b in pool ==> b.sink == sinks[b])
    }

    ghost function State(): World
      reads this
    {
      World(list, sinks, touched, trace)
    }

    constructor (ghost binders: set<Binder>)
      requires forall b :: b in binders ==> b.next == b && b.prev == b
      ensures Valid() && list == [] && marks == {} && pool == binders && fresh(head)
    {
      head := new Binder();
      list, marks, pool, touched, trace := [], {}, binders, {}, [];
      sinks := map b | b in binders :: b.sink;
    }

    /** Links b in after that, which keeps the ring unless b is in the list already. */
    method AttachAt(b: Binder, that: Binder, ghost k: nat)
      requires Linked() && b != head && k <= |list| && that == ([head] + list)[k]
      modifies this`list, b`next, b`prev, that`next, that.next`prev
      ensures b !in old(list) ==> Linked() && list == InsertAt(old(list), k, b)
      ensures b in old(list) ==> list == old(list) && b.prev == that && (old(that.next) == b ==> b.next == b)
    {
      ghost var r := Closed(head, list);
      ClosedDistinct(head, list);
      assert r[k] == that && that.next == r[k + 1];
      b.AttachAfter(that);
      if b !in list {
        InsertedDistinct(list, k, b);
        InsertedRing(head, list, k, b);
        list := InsertAt(list, k, b);
        ghost var r' := Closed(head, list);
        hide Closed, NoRepeats;
        forall i | 0 <= i < |r'| - 1 ensures r'[i].next == r'[i + 1] && r'[i + 1].prev == r'[i] {
          assert r'[i] == if i <= k then r[i] else if i == k + 1 then b else r[i - 1];
          assert r'[i + 1] == if i < k then r[i + 1] else if i == k then b else r[i];
        }
      }
    }

    /** Takes b out of the list, where it is at position k, or leaves it alone outside with k negative. */
    method Detach(b: Binder, ghost k: int)
      requires Linked() && k < |list|
      requires if k >= 0 then list[k] == b else b !in list && b != head && b.next == b == b.prev
      modifies this`list, b`next, b`prev, b.prev`next, b.next`prev
      ensures Linked() && list == (if k >= 0 then old(list)[..k] + old(list)[k + 1..] else old(list))
      ensures b.next == b == b.prev
    {
      ghost var r := Closed(head, list);
      ClosedDistinct(head, list);
      assert k >= 0 ==> r[k + 1] == b && b.prev == r[k] && b.next == r[k + 2];
      assert k < 0 ==> forall i :: 0 <= i < |r| ==> r[i] != b;
      b.Unbind();
      if k >= 0 {
        RemovedDistinct(list, k);
        RemovedRing(head, list, k);
        list := list[..k] + list[k + 1..];
        ghost var r' := Closed(head, list);
        hide Closed, NoRepeats;
        forall i | 0 <= i < |r'| - 1 ensures r'[i].next == r'[i + 1] && r'[i + 1].prev == r'[i] {
          assert r'[i] == (if i <= k then r[i] else r[i + 1]) && r'[i + 1] == (if i < k then r[i + 1] else r[i + 2]);
        }
      }
    }

    /** Takes a public binder out of the list, where it is at position k, or leaves it outside with k negative. */
    method Release(b: Binder, ghost k: int)
      requires Valid() && b in pool && k < |list| && (if k >= 0 then list[k] == b else b !in list)
      modifies this`list, pool, marks, head
      ensures Valid() && b !in list && list == (if k >= 0 then old(list)[..k] + old(list)[k + 1..] else old(list))
    {
      if k >= 0 {
        RingNeighbours(head, list, k);
        StillInside(list, k);
      }
      hide Ring, Closed, NoRepeats;
      Detach(b, k);
    }

    /** event_binder::unbind on a public binder, in the list or not. */
    method UnbindBinder(b: Binder)
      requires Valid() && b in pool
      modifies this`list, this`touched, pool, marks, head
      ensures Valid() && State() == Perform(Unbind(b), old(State())) && b !in list
    {
      ghost var k := -1;
      if b in list {
        k :| 0 <= k < |list| && list[k] == b;
        KeepOne(list, k);
      } else {
        KeepAll(list, {b});
      }
      hide Keep, Ring, Closed, NoRepeats;
      Release(b, k);
      touched := touched + {b};
    }

    /** event_binder::bind: leave whatever list it is in, then go to the front of this one. */
    method BindBinder(b: Binder, sink: nat)
      requires Valid() && b in pool
      modifies this`list, this`sinks, this`touched, pool, marks, head
      ensures Valid() && State() == Perform(Bind(b, sink), old(State()))
    {
      UnbindBinder(b);
      SourceBind(b, sink);
    }

    /** Every node is the predecessor of its successor. */
    ghost predicate Consistent(nodes: seq<Binder>)
      reads nodes`next, (set b | b in nodes :: b.next)`prev
    {
      forall b :: b in nodes ==> b.next.prev == b
    }

    /** Links b in behind the head; when b is in the list already its neighbours and it no longer agree. */
    method LinkFirst(b: Binder)
      requires Linked() && b != head
      modifies this`list, b`next, b`prev, head`next, head.next`prev
      ensures b !in old(list) ==> Linked() && list == [b] + old(list)
      ensures b in old(list) ==> list == old(list)
      ensures Consistent([head, b] + old(list)) <==> b !in old(list)
    {
      ghost var before, p := list, b;
      RingNext(head, list, 0);
      if b in list {
        ghost var k :| 0 <= k < |list| && list[k] == b;
        if k > 0 {
          RingNext(head, list, k);
          p := list[k - 1];
        }
        assert p != head && (p == b ==> head.next == b) && (p != b ==> p in list && p.next == b);
      }
      AttachAt(b, head, 0);
      hide Ring, Closed, NoRepeats;
      if b in before {
        assert p in [head, b] + before && p.next.prev == head != p;
      } else {
        assert list == [b] + before;
        RingConsistent(head, list);
      }
    }

    method SetSink(b: Binder, sink: nat)
      requires b in pool
      modifies this`sinks, this`touched, b`sink
      ensures old(Valid()) ==> Valid()
      ensures sinks == old(sinks)[b := sink] && touched == old(touched) + {b}
    {
      touched := touched + {b};
      sinks := sinks[b := sink];
      b.sink := sink;
    }

    /**
      event_source::bind, which does not unbind first: a binder outside the list
      goes to its front, and for one inside the links stop agreeing.
     */
    method SourceBind(b: Binder, sink: nat)
      requires Valid() && b in pool
      modifies this`list, this`sinks, this`touched, pool, marks, head
      ensures b !in old(list) ==>
        && Valid() && list == [b] + old(list) && touched == old(touched) + {b}
        && sinks == old(sinks)[b := sink] && trace == old(trace)
      ensures b in old(list) ==> list == old(list)
      ensures Consistent([head, b] + old(list)) <==> b !in old(list)
    {
      RingNext(head, list, 0);
      hide Ring, Closed, NoRepeats, Consistent;
      LinkFirst(b);
      assert b !in old(list) ==> Valid();
      SetSink(b, sink);
    }

    /** One action of a callback. */
    method Act(a: Action)
      requires Valid() && ActionUses(a, pool)
      modifies this`list, this`sinks, this`marks, this`touched, this`trace, pool, marks, head
      ensures Valid() && pool == old(pool) && marks == old(marks) && State() == Perform(a, old(State()))
      decreases a, 0
    {
      match a
      case Bind(b, sink) => BindBinder(b, sink);
      case Unbind(b) => UnbindBinder(b);
      case Emit(p) => var _ := EmitPlan(p);
    }

    /** The body of one callback. */
    method Respond(s: Script)
      requires Valid() && ScriptUses(s, pool)
      modifies this`list, this`sinks, this`marks, this`touched, this`trace, pool, marks, head
      ensures Valid() && pool == old(pool) && marks == old(marks) && State() == Run(s, old(State()))
      decreases s, 0
    {
      match s
      case Done =>
      case Then(a, r) =>
        Act(a);
        Respond(r);
    }

    /** A new bookmark right after the binder about to be called. */
    method PlaceMark(current: Binder, ghost k: nat) returns (bookmark: Binder)
      requires Valid() && k < |list| && list[k] == current
      modifies this`list, this`marks, pool, marks, head
      ensures Valid() && fresh(bookmark) && marks == old(marks) + {bookmark} && bookmark !in old(marks)
      ensures State() == old(State()).(list := old(list)[..k + 1] + [bookmark] + old(list)[k + 1..])
    {
      bookmark := new Binder();
      NextInside(head, list, k);
      hide Ring, Closed, NoRepeats;
      LinkMark(bookmark, current, k);
    }

    method LinkMark(bookmark: Binder, current: Binder, ghost k: nat)
      requires Valid() && k < |list| && list[k] == current && bookmark.sink == 0
      requires bookmark != head && bookmark !in pool && bookmark !in marks && bookmark !in list
      modifies this`list, this`marks, bookmark`next, bookmark`prev, current`next, current.next`prev
      ensures Valid() && marks == old(marks) + {bookmark}
      ensures list == InsertAt(old(list), k + 1, bookmark)
    {
      ghost var before := list;
      NextInside(head, list, k);
      InsertedDistinct(before, k + 1, bookmark);
      hide Ring, Closed, NoRepeats, InsertAt;
      AttachAt(bookmark, current, k + 1);
      marks := marks + {bookmark};
    }

    /** Takes a bookmark out again. */
    method RemoveMark(bookmark: Binder, ghost k: nat)
      requires Valid() && bookmark in marks && k < |list| && list[k] == bookmark
      modifies this`list, this`marks, pool, marks, head
      ensures Valid() && marks == old(marks) - {bookmark}
      ensures State() == old(State()).(list := old(list)[..k] + old(list)[k + 1..])
    {
      RingNeighbours(head, list, k);
      StillInside(list, k);
      Detach(bookmark, k);
      marks := marks - {bookmark};
    }

    /** The next callback of an emit. */
    method ReplyTo(p: Plan)
      requires Valid() && PlanUses(p, pool)
      modifies this`list, this`sinks, this`marks, this`touched, this`trace, pool, marks, head
      ensures Valid() && pool == old(pool) && marks == old(marks) && State() == Reply(p, old(State()))
      decreases p, 0
    {
      match p
      case Silent =>
      case Responses(s, _) => Respond(s);
    }

    /** Invokes one binder's callback behind a bookmark; returns the node the walk goes on from. */
    method Invoke(current: Binder, p: Plan, ghost front: seq<Binder>, ghost rest: seq<Binder>)
      returns (next: Binder, ghost front': seq<Binder>, ghost t: set<Binder>)
      requires Valid() && PlanUses(p, pool) && list == front + [current] + rest
      modifies this`list, this`sinks, this`marks, this`touched, this`trace, pool, marks, head
      ensures Valid() && pool == old(pool) && marks == old(marks)
      ensures State() == Responded(p, old(State()), current) && touched == old(touched) + t
      ensures list == front' + Keep(rest, t) && next == (Keep(rest, t) + [head])[0]
      decreases p, 1
    {
      ghost var k := |front|;
      ghost var w := State();
      var bookmark := PlaceMark(current, k);
      trace := trace + [current];
      ghost var marked := State();
      InsertedAfter(w, marked, front, current, rest, bookmark);
      ReplyTo(p);
      front', t := MarkAfterReply(p, w, marked, front, current, rest, bookmark, pool);
      ghost var pos := |front'|;
      NextOf(head, list, front', bookmark, Keep(rest, t));
      next := bookmark.next;
      RemoveMark(bookmark, pos);
    }

    /** Calls every binder of the list that has a sink, however the callbacks change the list meanwhile. */
    method EmitPlan(plan: Plan) returns (ghost calls: seq<Binder>)
      requires Valid() && PlanUses(plan, pool)
      modifies this`list, this`sinks, this`marks, this`touched, this`trace, pool, marks, head
      ensures Valid() && pool == old(pool) && marks == old(marks)
      ensures State() == EmitTo(plan, old(State())).0 && calls == EmitTo(plan, old(State())).1
      decreases plan, 3
    {
      ghost var before := touched;
      touched := {};
      calls := WalkList(plan);
      touched := before + touched;
    }

    /** Who an emit calls, told of the list it starts from: those reached, once each, and nobody else. */
    method EmitCalls(plan: Plan) returns (ghost calls: seq<Binder>)
      requires Valid() && PlanUses(plan, pool)
      modifies this`list, this`sinks, this`marks, this`touched, this`trace, pool, marks, head
      ensures Valid() && pool == old(pool) && marks == old(marks)
      ensures NoRepeats(calls) && forall b :: b in calls ==> b in old(list) && Calls(old(State()), b)
      ensures forall i: nat :: i < |old(list)| ==>
        (old(list)[i] in calls <==> Reached(old(list), plan, old(State()).(touched := {}), i))
    {
      WalkCallsReached(list, plan, State().(touched := {}), pool);
      calls := EmitPlan(plan);
    }

    lemma {:induction false} FirstKept(todo: seq<Binder>, t: set<Binder>, last: Binder)
      requires todo != [] && todo[0] !in t
      ensures Keep(todo, t) == [todo[0]] + Keep(todo[1..], t) && (Keep(todo, t) + [last])[0] == todo[0]
    {
    }

    method WalkList(plan: Plan) returns (ghost calls: seq<Binder>)
      requires Valid() && PlanUses(plan, pool) && touched == {}
      modifies this`list, this`sinks, this`marks, this`touched, this`trace, pool, marks, head
      ensures Valid() && pool == old(pool) && marks == old(marks)
      ensures (State(), calls) == Walk(old(list), plan, old(State()))
      decreases plan, 2
    {
      hide Keep, Walk;
      calls := [];
      ghost var w0 := State();
      ghost var w, todo, front, rest := w0, list, [], list;
      var p := plan;
      RingNext(head, list, 0);
      KeepAll(list, {});
      Begins(w0, plan);
      var current := head.next;
      while current != head
        invariant Valid() && pool == old(pool) && marks == old(marks)
        invariant p == plan || p < plan
        invariant PlanUses(p, pool)
        invariant State() == w && list == front + rest && rest == Keep(todo, w.touched) && current == (rest + [head])[0]
        invariant Resumes(w0, plan, todo, p, w, calls)
        decreases |todo|
      {
        todo := SkipTouched(w0, plan, todo, p, w, calls);
        FirstKept(todo, w.touched, head);
        rest := Keep(todo[1..], w.touched);
        if current.sink != 0 {
          ghost var t;
          current, front, t := Invoke(current, p, front, rest);
          KeepTwice(todo[1..], w.touched, t);
          CallResumes(w0, plan, todo, p, w, calls);
          calls := calls + [todo[0]];
          w := State();
          p := Later(p);
          rest := Keep(rest, t);
        } else {
          SkipSilent(w0, plan, todo, p, w, calls);
          NextOf(head, list, front, current, rest);
          front := front + [current];
          current := current.next;
        }
        todo := todo[1..];
      }
      Ends(w0, plan, todo, p, w, calls);
    }
  }

  /** Bound twice through the source, a binder leaves links that do not agree. */
  method BindTwice(binder: Binder, sink: nat) returns (source: EventSource)
    requires binder.next == binder && binder.prev == binder
    modifies binder
    ensures source.list == [binder] && !source.Consistent([source.head, binder])
  {
    source := new EventSource({binder});
    source.SourceBind(binder, sink);
    assert [binder] + [] == [binder];
    source.SourceBind(binder, sink);
    assert forall b :: b in [source.head, binder] + [binder] <==> b in [source.head, binder];
  }
}
