/**
  The named counters of CORE/BASE/appstats.cpp: the table that hands out one slot
  per name, and the lock-free update of a counter by any number of threads.
 */
module AppStats {
  import opened Basics

  // ------------------------------------------------------------ finding a slot

  /** The table of statistics; the constructor of AppStat runs under its mutex. */
  class StatTable {
    const slots: array<Option<string>>

    /** Claimed slots come first, and no name has two of them. */
    ghost predicate Valid()
      reads slots
    {
      && (forall i, j :: 0 <= i < j < slots.Length && slots[j].Some? ==> slots[i].Some?)
      && (forall i, j :: 0 <= i < j < slots.Length && slots[i].Some? ==> slots[i] != slots[j])
    }

    constructor (size: nat)
      ensures Valid() && slots.Length == size && forall i :: 0 <= i < size ==> slots[i] == None
    {
      slots := new Option<string>[size](_ => None);
    }

    /** std::find_if for a name, or for a free slot. */
    method FindIf(name: Option<string>) returns (k: nat)
      ensures k <= slots.Length && (k < slots.Length ==> slots[k] == name)
      ensures forall i :: 0 <= i < k ==> slots[i] != name
    {
      k := 0;
      while k < slots.Length && slots[k] != name
        invariant k <= slots.Length && forall i :: 0 <= i < k ==> slots[i] != name
      {
        k := k + 1;
      }
    }

    /** A handle for a name: the slot that has it, or else the first free one, which must exist. */
    method Claim(name: string) returns (k: nat)
      requires Valid()
      requires exists i :: 0 <= i < slots.Length && (slots[i] == None || slots[i] == Some(name))
      modifies slots
      ensures Valid() && k < slots.Length && slots[k] == Some(name)
      ensures forall i :: 0 <= i < slots.Length && i != k ==> slots[i] == old(slots[i])
      ensures old(slots[k]) != Some(name) ==> old(slots[k]) == None && forall i :: 0 <= i < k ==> old(slots[i]).Some?
    {
      k := FindIf(Some(name));
      if k == slots.Length {
        k := FindIf(None);
        slots[k] := Some(name);
      }
    }
  }

  /** The names that have no slot yet. */
  ghost function Missing(slots: seq<Option<string>>, names: seq<string>): set<string> {
    set n | n in names && Some(n) !in slots
  }

  /** The free slots. */
  ghost function Free(slots: seq<Option<string>>): set<int> {
    set k | 0 <= k < |slots| && slots[k] == None
  }

  /** A name that has a slot leaves the names still to come as they are missing; a new one uses up a free slot. */
  lemma {:induction false} OneLess(before: seq<Option<string>>, after: seq<Option<string>>, names: seq<string>, k: nat)
    requires names != [] && k < |before| && |Missing(before, names)| <= |Free(before)|
    requires after == before[k := Some(names[0])]
    requires if Some(names[0]) in before then after == before else before[k] == None
    ensures |Missing(after, names[1..])| <= |Free(after)|
  {
    var rest := names[1..];
    assert names == [names[0]] + rest;
    if Some(names[0]) in before {
      assert Missing(after, rest) <= Missing(before, names);
      SubsetSize(Missing(after, rest), Missing(before, names));
    } else {
      assert Free(after) == Free(before) - {k} && k in Free(before);
      forall n | n in Missing(after, rest) ensures n in Missing(before, names) - {names[0]} {
        assert after[k] == Some(names[0]);
        assert forall i :: 0 <= i < |before| && i != k ==> after[i] == before[i];
      }
      assert names[0] in Missing(before, names);
      SubsetSize(Missing(after, rest), Missing(before, names) - {names[0]});
    }
  }

  lemma {:induction false} SubsetSize<T>(a: set<T>, b: set<T>)
    requires a <= b
    ensures |a| <= |b|
  {
    if a != {} {
      var x :| x in a;
      SubsetSize(a - {x}, b - {x});
    }
  }

  /**
    As long as there is a free slot for every name without one, handles share a slot
    exactly when their names are equal.
   */
  method ClaimAll(table: StatTable, names: seq<string>) returns (handles: seq<nat>)
    requires table.Valid() && |Missing(table.slots[..], names)| <= |Free(table.slots[..])|
    modifies table.slots
    ensures |handles| == |names|
    ensures forall i, j :: 0 <= i < |names| && 0 <= j < |names| ==> (handles[i] == handles[j] <==> names[i] == names[j])
  {
    handles := [];
    assert names[0..] == names;
    for n := 0 to |names|
      invariant table.Valid() && |handles| == n
      invariant forall i :: 0 <= i < n ==> handles[i] < table.slots.Length && table.slots[handles[i]] == Some(names[i])
      invariant |Missing(table.slots[..], names[n..])| <= |Free(table.slots[..])|
    {
      ghost var before := table.slots[..];
      RoomFor(before, names[n..]);
      var k := table.Claim(names[n]);
      assert table.slots[..] == before[k := Some(names[n])];
      assert names[n..][0] == names[n] && names[n..][1..] == names[n + 1..];
      if Some(names[n]) in before {
        ghost var i :| 0 <= i < |before| && before[i] == Some(names[n]);
        assert table.slots[i] == Some(names[n]) == table.slots[k];
      }
      OneLess(before, table.slots[..], names[n..], k);
      handles := handles + [k];
    }
    forall i, j | 0 <= i < |names| && 0 <= j < |names| ensures handles[i] == handles[j] <==> names[i] == names[j] {
      assert table.slots[handles[i]] == Some(names[i]) && table.slots[handles[j]] == Some(names[j]);
    }
  }

  lemma {:induction false} RoomFor(slots: seq<Option<string>>, names: seq<string>)
    requires names != [] && |Missing(slots, names)| <= |Free(slots)|
    ensures exists i :: 0 <= i < |slots| && (slots[i] == None || slots[i] == Some(names[0]))
  {
    if Some(names[0]) !in slots {
      assert names[0] in Missing(slots, names);
      var k :| k in Free(slots);
    }
  }

  // --------------------------------------------------------- updating a counter

  const TWO_32 := 0x1_0000_0000

  /** increment() is one atomic step; the others load and then compare and exchange until that succeeds. */
  datatype Call = Bump | Increment(amount: nat) | Reset

  /**
    In its loop a thread is about to load, or has loaded a value, when the log had
    a certain length, and worked out the new one.
   */
  datatype Pc = AtLoad | AtExchange(oldValue: nat, newValue: nat, seen: nat)

  datatype Thread = Thread(todo: seq<Call>, pc: Pc)

  /** The log names the thread and the call of every update that took effect. */
  datatype System = System(counter: nat, threads: seq<Thread>, log: seq<(nat, Call)>)

  function NewValue(v: nat, c: Call): nat {
    match c
    case Bump => (v + 1) % TWO_32
    case Increment(amount) => (v + amount) % TWO_32
    case Reset => 0
  }

  /** The call of thread t takes effect and leaves value v. */
  function Commit(s: System, t: nat, v: nat): System
    requires t < |s.threads| && s.threads[t].todo != []
  {
    var c := s.threads[t].todo[0];
    System(v, s.threads[t := Thread(s.threads[t].todo[1..], AtLoad)], s.log + [(t, c)])
  }

  /** One atomic step of thread t. */
  function Step(s: System, t: nat): System {
    if t >= |s.threads| || s.threads[t].todo == [] then s
    else if s.threads[t].todo[0] == Bump then Commit(s, t, NewValue(s.counter, Bump))
    else
      match s.threads[t].pc
      case AtLoad =>
        var pc := AtExchange(s.counter, NewValue(s.counter, s.threads[t].todo[0]), |s.log|);
        s.(threads := s.threads[t := s.threads[t].(pc := pc)])
      case AtExchange(oldValue, newValue, _) =>
        if s.counter == oldValue then Commit(s, t, newValue)
        else s.(threads := s.threads[t := s.threads[t].(pc := AtLoad)])
  }

  /** Any interleaving: a schedule says which thread moves next. */
  function Run(s: System, schedule: seq<nat>): System
    decreases |schedule|
  {
    if schedule == [] then s else Run(Step(s, schedule[0]), schedule[1..])
  }

  /** The logged calls, one after another. */
  function Replay(v: nat, log: seq<(nat, Call)>): nat {
    if log == [] then v else NewValue(Replay(v, log[..|log| - 1]), log[|log| - 1].1)
  }

  function CallsOf(log: seq<(nat, Call)>, t: nat): seq<Call> {
    if log == [] then []
    else CallsOf(log[..|log| - 1], t) + (if log[|log| - 1].0 == t then [log[|log| - 1].1] else [])
  }

  ghost predicate Consistent(start: System, s: System) {
    && s.counter == Replay(start.counter, s.log) && |s.threads| == |start.threads|
    && (forall t :: 0 <= t < |s.threads| ==> CallsOf(s.log, t) + s.threads[t].todo == start.threads[t].todo)
    && (forall t :: 0 <= t < |s.threads| && s.threads[t].pc.AtExchange? ==> Loaded(start, s, s.threads[t]))
  }

  /** What a thread works with is what it loaded and what its call makes of that. */
  ghost predicate Loaded(start: System, s: System, th: Thread)
    requires th.pc.AtExchange?
  {
    && th.todo != [] && th.pc.newValue == NewValue(th.pc.oldValue, th.todo[0])
    && th.pc.seen <= |s.log| && th.pc.oldValue == Replay(start.counter, s.log[..th.pc.seen])
  }

  /** All threads at the beginning of their calls, nothing logged. */
  ghost predicate Fresh(s: System) {
    s.log == [] && forall t :: 0 <= t < |s.threads| ==> s.threads[t].pc == AtLoad
  }

  lemma {:induction false} CommitKeeps(start: System, s: System, t: nat)
    requires Consistent(start, s) && t < |s.threads| && s.threads[t].todo != []
    ensures Consistent(start, Commit(s, t, NewValue(s.counter, s.threads[t].todo[0])))
  {
    var c := s.threads[t].todo[0];
    var r := Commit(s, t, NewValue(s.counter, c));
    assert r.log[..|s.log|] == s.log;
    forall u | 0 <= u < |s.threads| ensures CallsOf(r.log, u) + r.threads[u].todo == start.threads[u].todo {
      if u == t { assert s.threads[t].todo == [c] + s.threads[t].todo[1..]; }
    }
    forall u | 0 <= u < |r.threads| && r.threads[u].pc.AtExchange? ensures Loaded(start, r, r.threads[u]) {
      assert Loaded(start, s, s.threads[u]);
      assert r.log[..r.threads[u].pc.seen] == s.log[..r.threads[u].pc.seen];
    }
  }

  lemma {:induction false} StepKeeps(start: System, s: System, t: nat)
    requires Consistent(start, s)
    ensures Consistent(start, Step(s, t))
  {
    if t < |s.threads| && s.threads[t].todo != [] {
      assert s.log[..|s.log|] == s.log;
      if s.threads[t].pc.AtExchange? { assert Loaded(start, s, s.threads[t]); }
      if s.threads[t].todo[0] == Bump || (s.threads[t].pc.AtExchange? && s.counter == s.threads[t].pc.oldValue) {
        CommitKeeps(start, s, t);
      }
    }
  }

  /**
    Under every interleaving the counter is what the logged calls give one after
    another, and the log holds the calls of every thread once each, in order.
   */
  lemma {:induction false} EveryInterleaving(start: System, s: System, schedule: seq<nat>)
    requires Consistent(start, s)
    ensures Consistent(start, Run(s, schedule))
    decreases |schedule|
  {
    if schedule != [] {
      StepKeeps(start, s, schedule[0]);
      EveryInterleaving(start, Step(s, schedule[0]), schedule[1..]);
    }
  }

  lemma FreshIsConsistent(s: System)
    requires Fresh(s)
    ensures Consistent(s, s)
  {
  }

  /** The increments logged since the last reset, or since the start. */
  function SinceReset(v: nat, log: seq<(nat, Call)>): nat {
    if log == [] then v
    else
      match log[|log| - 1].1
      case Bump => SinceReset(v, log[..|log| - 1]) + 1
      case Increment(amount) => SinceReset(v, log[..|log| - 1]) + amount
      case Reset => 0
  }

  /** A counter is the sum modulo 2^32 of the increments that took effect since the last reset. */
  lemma {:induction false} CounterIsSum(v: nat, log: seq<(nat, Call)>)
    requires v < TWO_32
    ensures Replay(v, log) == SinceReset(v, log) % TWO_32
    decreases |log|
  {
    if log != [] {
      CounterIsSum(v, log[..|log| - 1]);
      match log[|log| - 1].1
      case Bump => AddModulo(SinceReset(v, log[..|log| - 1]), 1);
      case Increment(amount) => AddModulo(SinceReset(v, log[..|log| - 1]), amount);
      case Reset =>
    }
  }

  lemma AddModulo(a: nat, b: nat)
    ensures (a % TWO_32 + b) % TWO_32 == (a + b) % TWO_32
  {
  }

  /** Counter conservation, over all threads, calls and schedules. */
  lemma {:induction false} CounterConserved(start: System, schedule: seq<nat>)
    requires Fresh(start) && start.counter < TWO_32
    ensures var end := Run(start, schedule); end.counter == SinceReset(start.counter, end.log) % TWO_32
  {
    FreshIsConsistent(start);
    EveryInterleaving(start, start, schedule);
    CounterIsSum(start.counter, Run(start, schedule).log);
  }

  /** When all threads are done, each has logged exactly its own calls in order. */
  lemma {:induction false} NothingLostOrDoubled(start: System, schedule: seq<nat>, t: nat)
    requires Fresh(start) && t < |start.threads|
    requires forall u :: 0 <= u < |start.threads| ==>
      u < |Run(start, schedule).threads| && Run(start, schedule).threads[u].todo == []
    ensures CallsOf(Run(start, schedule).log, t) == start.threads[t].todo
  {
    FreshIsConsistent(start);
    EveryInterleaving(start, start, schedule);
    var calls := CallsOf(Run(start, schedule).log, t);
    assert calls + [] == calls;
  }

  /** An exchange fails only if some other call took effect since the load: the loops are lock-free. */
  lemma {:induction false} FailureMeansProgress(start: System, s: System, t: nat)
    requires Consistent(start, s) && t < |s.threads| && s.threads[t].pc.AtExchange?
    requires s.counter != s.threads[t].pc.oldValue
    ensures |s.log| > s.threads[t].pc.seen
  {
    assert Loaded(start, s, s.threads[t]);
    assert s.log[..|s.log|] == s.log;
  }

  // ------------------------------------------------------------------ progress

  /** From s to r the first call of thread t took effect, once, and no other thread did anything. */
  ghost predicate TookEffect(s: System, t: nat, r: System)
    requires t < |s.threads| && s.threads[t].todo != []
  {
    && r.counter == NewValue(s.counter, s.threads[t].todo[0])
    && r.log == s.log + [(t, s.threads[t].todo[0])]
    && |r.threads| == |s.threads| && r.threads[t] == Thread(s.threads[t].todo[1..], AtLoad)
    && forall u :: 0 <= u < |s.threads| && u != t ==> r.threads[u] == s.threads[u]
  }

  /** An exchange on an unchanged counter takes effect, and puts the new value in place. */
  lemma {:induction false} ExchangeSucceeds(start: System, s: System, t: nat)
    requires Consistent(start, s) && t < |s.threads| && s.threads[t].pc.AtExchange?
    requires s.threads[t].todo != [] && s.threads[t].todo[0] != Bump && s.counter == s.threads[t].pc.oldValue
    ensures TookEffect(s, t, Step(s, t))
    ensures Step(s, t).counter == s.threads[t].pc.newValue
  {
    assert Loaded(start, s, s.threads[t]);
  }

  /** A thread that runs undisturbed completes its call in two steps from the load, and in three from anywhere. */
  lemma {:induction false} CallCompletes(start: System, s: System, t: nat) returns (schedule: seq<nat>)
    requires Consistent(start, s) && t < |s.threads| && s.threads[t].todo != []
    ensures |schedule| <= (if s.threads[t].pc == AtLoad then 2 else 3) && forall u :: u in schedule ==> u == t
    ensures TookEffect(s, t, Run(s, schedule))
  {
    var s1 := Step(s, t);
    if s.threads[t].pc.AtExchange? { assert Loaded(start, s, s.threads[t]); }
    if s.threads[t].todo[0] == Bump || (s.threads[t].pc.AtExchange? && s.counter == s.threads[t].pc.oldValue) {
      schedule := [t];
      assert schedule[1..] == [] && Run(s1, []) == s1;
    } else if s.threads[t].pc == AtLoad {
      schedule := [t, t];
      RunsTwice(s, t);
    } else {
      schedule := [t] + [t, t];
      RunsTwice(s1, t);
      assert schedule[1..] == [t, t];
    }
  }

  lemma {:induction false} RunsTwice(s: System, t: nat)
    ensures Run(s, [t, t]) == Step(Step(s, t), t)
  {
    var s1 := Step(s, t);
    assert [t, t][1..] == [t] && [t][1..] == [] && Run(Step(s1, t), []) == Step(s1, t);
    assert Run(s1, [t]) == Step(s1, t);
  }

  lemma {:induction false} RunConcat(s: System, a: seq<nat>, b: seq<nat>)
    ensures Run(s, a + b) == Run(Run(s, a), b)
    decreases |a|
  {
    if a == [] {
      assert a + b == b;
    } else {
      assert (a + b)[1..] == a[1..] + b;
      RunConcat(Step(s, a[0]), a[1..], b);
    }
  }

  /** So it completes all its calls, two steps for each and one more at most, whatever state the others are in. */
  lemma {:induction false} ThreadCompletes(start: System, s: System, t: nat) returns (schedule: seq<nat>)
    requires Consistent(start, s) && t < |s.threads|
    ensures |schedule| <= 2 * |s.threads[t].todo| + (if s.threads[t].pc == AtLoad then 0 else 1)
    ensures var r := Run(s, schedule);
      && Consistent(start, r) && |r.threads| == |s.threads| && r.threads[t].todo == []
      && forall u :: 0 <= u < |s.threads| && u != t ==> r.threads[u] == s.threads[u]
    decreases |s.threads[t].todo|
  {
    schedule := [];
    if s.threads[t].todo != [] {
      var first := CallCompletes(start, s, t);
      EveryInterleaving(start, s, first);
      var later := ThreadCompletes(start, Run(s, first), t);
      schedule := first + later;
      RunConcat(s, first, later);
    }
  }

  /** From every state that is reached some schedule completes all threads. */
  lemma {:induction false} AllComplete(start: System, before: seq<nat>) returns (schedule: seq<nat>)
    requires Fresh(start)
    ensures var r := Run(start, before + schedule);
      |r.threads| == |start.threads| && forall u :: 0 <= u < |r.threads| ==> r.threads[u].todo == []
  {
    var s := Run(start, before);
    EveryInterleaving(start, start, before);
    schedule := [];
    for t := 0 to |s.threads|
      invariant Consistent(start, Run(s, schedule))
      invariant forall u :: 0 <= u < t ==> Run(s, schedule).threads[u].todo == []
    {
      var more := ThreadCompletes(start, Run(s, schedule), t);
      RunConcat(s, schedule, more);
      schedule := schedule + more;
    }
    RunConcat(start, before, schedule);
  }

  /** How many of its own steps thread t is from the end of its call while no call takes effect. */
  function Needs(s: System, t: nat): nat
    requires t < |s.threads| && s.threads[t].todo != []
  {
    if s.threads[t].todo[0] == Bump then 1
    else
      match s.threads[t].pc
      case AtLoad => 2
      case AtExchange(oldValue, _, _) => if s.counter == oldValue then 1 else 3
  }

  lemma {:induction false} LogOnlyGrows(s: System, schedule: seq<nat>)
    ensures |Run(s, schedule).log| >= |s.log|
    decreases |schedule|
  {
    if schedule != [] { LogOnlyGrows(Step(s, schedule[0]), schedule[1..]); }
  }

  lemma {:induction false} StepsTowards(s: System, t: nat, schedule: seq<nat>)
    requires t < |s.threads| && s.threads[t].todo != [] && multiset(schedule)[t] >= Needs(s, t)
    ensures |Run(s, schedule).log| > |s.log|
    decreases |schedule|
  {
    if schedule == [] {
      assert false;
    } else {
      var u, rest, s1 := schedule[0], schedule[1..], Step(s, schedule[0]);
      assert schedule == [u] + rest && multiset(schedule) == multiset([u]) + multiset(rest);
      if |s1.log| > |s.log| {
        LogOnlyGrows(s1, rest);
      } else {
        assert s1.counter == s.counter && s1.log == s.log;
        StepsTowards(s1, t, rest);
      }
    }
  }

  /**
    The loops are lock-free: under every schedule in which some unfinished thread
    moves three times, some call takes effect.
   */
  lemma {:induction false} LockFree(s: System, t: nat, schedule: seq<nat>)
    requires t < |s.threads| && s.threads[t].todo != [] && multiset(schedule)[t] >= 3
    ensures |Run(s, schedule).log| > |s.log|
  {
    StepsTowards(s, t, schedule);
  }

  /** One thread, one increment, two steps. */
  lemma OneIncrement(v: nat, amount: nat)
    ensures Run(System(v, [Thread([Increment(amount)], AtLoad)], []), [0, 0]).counter == (v + amount) % 0x1_0000_0000
  {
    RunsTwice(System(v, [Thread([Increment(amount)], AtLoad)], []), 0);
  }
}
