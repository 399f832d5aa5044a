/**
  The state machine of CORE/UTIL/state_machine.cpp.

  A run is a list of operations on the machine; a state's update callback may
  request a transition, the other callbacks do not.  The log records the
  callbacks in the order in which the machine makes them.
 */
module StateMachines {
  import opened Basics

  type StateId = int

  /** STATE_INVALID; states have positive ids. */
  const NO_STATE: StateId := 0

  datatype Event = Entered(id: StateId) | Exited(id: StateId) | Updated(id: StateId) | Terminated(id: StateId)

  datatype Op = AddState(id: StateId) | Update(request: Option<StateId>) | RequestTransition(target: StateId) | Term

  datatype Machine = Machine(states: seq<StateId>, cur: StateId, next: StateId, log: seq<Event>)

  const START := Machine([], NO_STATE, NO_STATE, [])

  // ------------------------------------------------------ what operations do

  function Changed(m: Machine): Machine {
    if m.cur == m.next then m
    else
      var log := m.log + (if m.cur in m.states then [Exited(m.cur)] else []);
      if m.next in m.states then m.(cur := m.next, log := log + [Entered(m.next)])
      else m.(cur := NO_STATE, log := log)
  }

  function Updating(m: Machine, request: Option<StateId>): Machine {
    var c := Changed(m);
    if c.cur !in c.states then c
    else c.(log := c.log + [Updated(c.cur)], next := if request.Some? then request.value else c.next)
  }

  function Terminations(states: seq<StateId>): seq<Event> {
    if states == [] then [] else Terminations(states[..|states| - 1]) + [Terminated(states[|states| - 1])]
  }

  function Terminating(m: Machine): Machine {
    var log := m.log + (if m.cur in m.states then [Exited(m.cur)] else []);
    m.(states := [], log := log + Terminations(m.states))
  }

  function Adding(m: Machine, id: StateId): Machine {
    if id in m.states then m
    else m.(states := m.states + [id], next := if m.cur == NO_STATE && m.next == NO_STATE then id else m.next)
  }

  function Apply(m: Machine, op: Op): Machine {
    match op
    case AddState(id) => Adding(m, id)
    case Update(request) => Updating(m, request)
    case RequestTransition(target) => m.(next := target)
    case Term => Terminating(m)
  }

  function Run(m: Machine, ops: seq<Op>): Machine
    decreases |ops|
  {
    if ops == [] then m else Run(Apply(m, ops[0]), ops[1..])
  }

  // -------------------------------------------------------- the discipline

  datatype Phase = Idle | Active(id: StateId) | Broken

  function Next(p: Phase, e: Event): Phase {
    match e
    case Entered(id) => if p == Idle then Active(id) else Broken
    case Exited(id) => if p == Active(id) then Idle else Broken
    case Updated(id) => if p == Active(id) then p else Broken
    case Terminated(_) => p
  }

  /** Enter and exit of one state at a time, and updates only between them; anything else is Broken for good. */
  function PhaseOf(log: seq<Event>): Phase {
    if log == [] then Idle
    else
      var p := PhaseOf(log[..|log| - 1]);
      if p == Broken then Broken else Next(p, log[|log| - 1])
  }

  ghost predicate Distinct(states: seq<StateId>) {
    forall i, j :: 0 <= i < j < |states| ==> states[i] != states[j]
  }

  /** At most one state is active, and it is the current one. */
  ghost predicate Disciplined(m: Machine) {
    && Distinct(m.states) && NO_STATE !in m.states
    && PhaseOf(m.log) == if m.cur in m.states then Active(m.cur) else Idle
  }

  /** A state may be added unless it is still the current one of a machine that has been terminated. */
  predicate MayAdd(m: Machine, id: StateId) { id != NO_STATE && (id in m.states || id != m.cur) }

  predicate Careful(m: Machine, ops: seq<Op>)
    decreases |ops|
  {
    ops != [] ==> (ops[0].AddState? ==> MayAdd(m, ops[0].id)) && Careful(Apply(m, ops[0]), ops[1..])
  }

  lemma {:induction false} PhaseSnoc(log: seq<Event>, e: Event)
    ensures PhaseOf(log + [e]) == if PhaseOf(log) == Broken then Broken else Next(PhaseOf(log), e)
  {
    assert (log + [e])[..|log|] == log;
  }

  lemma {:induction false} PhaseOfTerminations(log: seq<Event>, states: seq<StateId>)
    ensures PhaseOf(log + Terminations(states)) == PhaseOf(log)
    decreases |states|
  {
    if states == [] {
      assert log + [] == log;
    } else {
      var init, last := states[..|states| - 1], Terminated(states[|states| - 1]);
      PhaseOfTerminations(log, init);
      assert log + (Terminations(init) + [last]) == (log + Terminations(init)) + [last];
      PhaseSnoc(log + Terminations(init), last);
    }
  }

  lemma {:induction false} ChangeKeeps(m: Machine)
    requires Disciplined(m)
    ensures Disciplined(Changed(m))
  {
    if m.cur != m.next {
      var log := m.log + (if m.cur in m.states then [Exited(m.cur)] else []);
      PhaseSnoc(m.log, Exited(m.cur));
      assert m.log + [] == m.log;
      PhaseSnoc(log, Entered(m.next));
    }
  }

  /** Every operation keeps the discipline. */
  lemma {:induction false} StepKeeps(m: Machine, op: Op)
    requires Disciplined(m) && (op.AddState? ==> MayAdd(m, op.id))
    ensures Disciplined(Apply(m, op))
  {
    match op
    case AddState(_) =>
    case Update(_) =>
      ChangeKeeps(m);
      PhaseSnoc(Changed(m).log, Updated(Changed(m).cur));
    case RequestTransition(_) =>
    case Term =>
      var log := m.log + (if m.cur in m.states then [Exited(m.cur)] else []);
      PhaseSnoc(m.log, Exited(m.cur));
      assert m.log + [] == m.log;
      PhaseOfTerminations(log, m.states);
  }

  /** Over every run that adds states with care, through unknown targets and termination, the discipline holds. */
  lemma {:induction false} RunsAreDisciplined(m: Machine, ops: seq<Op>)
    requires Disciplined(m) && Careful(m, ops)
    ensures Disciplined(Run(m, ops)) && PhaseOf(Run(m, ops).log) != Broken
    decreases |ops|
  {
    if ops != [] {
      StepKeeps(m, ops[0]);
      RunsAreDisciplined(Apply(m, ops[0]), ops[1..]);
    }
  }

  /** The log is past repair, or a state counts as current that has been left and not entered again. */
  ghost predicate Spoilt(m: Machine) {
    PhaseOf(m.log) == Broken || (m.cur in m.states && PhaseOf(m.log) == Idle)
  }

  lemma {:induction false} BrokenStays(log: seq<Event>, more: seq<Event>)
    requires PhaseOf(log) == Broken
    ensures PhaseOf(log + more) == Broken
    decreases |more|
  {
    if more == [] {
      assert log + more == log;
    } else {
      var n := |more| - 1;
      BrokenStays(log, more[..n]);
      PhaseSnoc(log + more[..n], more[n]);
      assert log + more == (log + more[..n]) + [more[n]];
    }
  }

  lemma {:induction false} LogGrows(m: Machine, op: Op) returns (more: seq<Event>)
    ensures Apply(m, op).log == m.log + more
  {
    more := Apply(m, op).log[|m.log|..];
  }

  /** After a careless addition the very next update or termination breaks the discipline. */
  lemma {:induction false} CarelessBreaks(m: Machine, op: Op)
    requires Spoilt(m) && (op.Update? || op.Term?)
    ensures PhaseOf(Apply(m, op).log) == Broken
  {
    if PhaseOf(m.log) == Broken {
      var more := LogGrows(m, op);
      BrokenStays(m.log, more);
    } else if op.Term? {
      PhaseSnoc(m.log, Exited(m.cur));
      PhaseOfTerminations(m.log + [Exited(m.cur)], m.states);
    } else {
      IdleUpdateBreaks(m, op.request);
    }
  }

  lemma {:induction false} IdleUpdateBreaks(m: Machine, request: Option<StateId>)
    requires m.cur in m.states && PhaseOf(m.log) == Idle
    ensures PhaseOf(Updating(m, request).log) == Broken
  {
    if m.cur == m.next {
      PhaseSnoc(m.log, Updated(m.cur));
    } else {
      var log, after := m.log + [Exited(m.cur)], Updating(m, request).log;
      PhaseSnoc(m.log, Exited(m.cur));
      assert after == log + after[|log|..];
      BrokenStays(log, after[|log|..]);
    }
  }

  /** Nothing that is done to a spoilt machine mends it. */
  lemma {:induction false} SpoiltStays(m: Machine, op: Op)
    requires Spoilt(m)
    ensures Spoilt(Apply(m, op))
  {
    if op.Update? || op.Term? { CarelessBreaks(m, op); }
  }

  lemma {:induction false} SpoiltRun(m: Machine, ops: seq<Op>)
    requires Spoilt(m)
    ensures Spoilt(Run(m, ops))
    decreases |ops|
  {
    if ops != [] {
      SpoiltStays(m, ops[0]);
      SpoiltRun(Apply(m, ops[0]), ops[1..]);
    }
  }

  /** The ids a run adds are ids of states. */
  ghost predicate RealStates(ops: seq<Op>) {
    forall i :: 0 <= i < |ops| && ops[i].AddState? ==> ops[i].id != NO_STATE
  }

  /** A run keeps the discipline exactly when all its additions are careful. */
  lemma {:induction false} DisciplinedIffCareful(m: Machine, ops: seq<Op>)
    requires Disciplined(m) && RealStates(ops)
    ensures Disciplined(Run(m, ops)) <==> Careful(m, ops)
    decreases |ops|
  {
    if ops != [] {
      var op, rest, m' := ops[0], ops[1..], Apply(m, ops[0]);
      assert RealStates(rest) by { assert forall i :: 0 <= i < |rest| ==> rest[i] == ops[i + 1]; }
      if op.AddState? && !MayAdd(m, op.id) {
        SpoiltRun(m', rest);
      } else {
        StepKeeps(m, op);
        DisciplinedIffCareful(m', rest);
      }
    }
  }

  /** Such a machine is reached by terminating a machine whose state is then added again. */
  lemma TerminatedMachineIsCareless()
    ensures var m := Run(START, [AddState(1), Update(None), Term]); Disciplined(m) && !MayAdd(m, 1)
  {
    var ops := [AddState(1), Update(None), Term];
    var m1 := Apply(START, ops[0]);
    assert m1.states == [1];
    var m2 := Apply(m1, ops[1]);
    assert m2.cur == 1 && m2.states == [1];
    var m3 := Apply(m2, ops[2]);
    assert ops[1..][1..] == [Term] && ops[1..][1..][1..] == [];
    StepKeeps(START, ops[0]);
    StepKeeps(m1, ops[1]);
    StepKeeps(m2, ops[2]);
    assert Run(START, ops) == m3;
  }

  // -------------------------------------------------------------- transitions

  ghost predicate Additions(ops: seq<Op>) {
    forall i :: 0 <= i < |ops| ==> ops[i].AddState? && ops[i].id != NO_STATE
  }

  /** Adding states touches neither the active state nor what has been requested. */
  lemma {:induction false} AdditionsOnlyAdd(m: Machine, adds: seq<Op>)
    requires Additions(adds) && (m.cur != NO_STATE || m.next != NO_STATE)
    ensures var n := Run(m, adds); n.cur == m.cur && n.next == m.next && n.log == m.log
    ensures forall id :: id in Run(m, adds).states <==> id in m.states || Op.AddState(id) in adds
    decreases |adds|
  {
    if adds != [] {
      assert adds == [adds[0]] + adds[1..];
      AdditionsOnlyAdd(Apply(m, adds[0]), adds[1..]);
    }
  }

  /**
    What is requested of an active machine, by its update callback or from
    outside, happens in the next update, whatever states are added in between:
    the active state is left, the other one entered and updated; an unknown one
    leaves nothing active; a request for the active state only drops others.
   */
  lemma {:induction false} RequestIsServed(m: Machine, ask: Op, target: StateId, adds: seq<Op>,
      request: Option<StateId>)
    requires Disciplined(m) && Additions(adds)
    requires ask == Op.Update(Some(target)) || ask == Op.RequestTransition(target)
    requires Apply(m, ask).cur in Apply(m, ask).states
    ensures var asked := Apply(m, ask);
      var served := Apply(Run(asked, adds), Op.Update(request));
      if target == asked.cur then served.log == asked.log + [Updated(target)] && served.cur == target
      else if target in asked.states || Op.AddState(target) in adds then
        served.log == asked.log + [Exited(asked.cur), Entered(target), Updated(target)] && served.cur == target
      else served.log == asked.log + [Exited(asked.cur)] && served.cur == NO_STATE
  {
    var asked := Apply(m, ask);
    StepKeeps(m, ask);
    assert asked.next == target;
    AdditionsOnlyAdd(asked, adds);
    var log := asked.log + [Exited(asked.cur)];
    if target == asked.cur {
    } else if target in asked.states || Op.AddState(target) in adds {
      assert log + [Entered(target)] + [Updated(target)] ==
        asked.log + [Exited(asked.cur), Entered(target), Updated(target)];
    } else {
      var m' := Changed(Run(asked, adds));
      assert m'.log == log && m'.cur == NO_STATE;
      assert NO_STATE !in m'.states;
    }
  }

  /** An update whose callback requests nothing is followed by an update of the same state. */
  lemma {:induction false} NothingRequested(m: Machine, adds: seq<Op>, request: Option<StateId>)
    requires Disciplined(m) && Additions(adds) && Apply(m, Op.Update(None)).cur in Apply(m, Op.Update(None)).states
    ensures var first := Apply(m, Op.Update(None));
      var second := Apply(Run(first, adds), Op.Update(request));
      second.log == first.log + [Updated(first.cur)] && second.cur == first.cur
  {
    StepKeeps(m, Op.Update(None));
    AdditionsOnlyAdd(Apply(m, Op.Update(None)), adds);
  }

  /** The state that is added first is entered and updated by the first update. */
  lemma {:induction false} FirstStateStarts(id: StateId, adds: seq<Op>, request: Option<StateId>)
    requires id != NO_STATE && Additions(adds)
    ensures var m := Apply(Run(Apply(START, Op.AddState(id)), adds), Op.Update(request));
      m.log == [Entered(id), Updated(id)] && m.cur == id
  {
    AdditionsOnlyAdd(Apply(START, Op.AddState(id)), adds);
    assert [] + [Entered(id)] + [Updated(id)] == [Entered(id), Updated(id)];
    assert Changed(Run(Apply(START, Op.AddState(id)), adds)).log == [] + [Entered(id)];
  }

  /** Termination leaves the active state and terminates all states in the order of their addition. */
  lemma {:induction false} TermEndsAll(m: Machine)
    ensures var r := Apply(m, Op.Term);
      var ends := seq(|m.states|, i requires 0 <= i < |m.states| => Terminated(m.states[i]));
      r.states == [] && r.log == (if m.cur in m.states then m.log + [Exited(m.cur)] else m.log) + ends
  {
    TerminationsInOrder(m.states);
    assert m.log + [] == m.log;
  }

  lemma {:induction false} TerminationsInOrder(states: seq<StateId>)
    ensures Terminations(states) == seq(|states|, i requires 0 <= i < |states| => Terminated(states[i]))
  {
    if states != [] { TerminationsInOrder(states[..|states| - 1]); }
  }

  // --------------------------------------------------------------- the class

  class StateMachine {
    var states: seq<StateId>
    var cur: StateId
    var next: StateId
    ghost var log: seq<Event>

    ghost predicate Valid()
      reads this`states
    {
      Distinct(states) && NO_STATE !in states
    }

    ghost function State(): Machine
      reads this
    {
      Machine(states, cur, next, log)
    }

    constructor ()
      ensures Valid() && State() == START
    {
      states, cur, next, log := [], NO_STATE, NO_STATE, [];
    }

    /** std::find over the states. */
    method Find(id: StateId) returns (k: nat)
      ensures k <= |states|
      ensures k < |states| ==> states[k] == id
      ensures k == |states| <==> id !in states
    {
      k := 0;
      while k < |states| && states[k] != id
        invariant k <= |states| && id !in states[..k]
      {
        k := k + 1;
      }
    }

    method AddState(id: StateId) returns (ok: bool)
      requires Valid() && id != NO_STATE
      modifies this
      ensures Valid() && State() == Apply(old(State()), Op.AddState(id)) && ok == (id !in old(states))
    {
      var k := Find(id);
      if k < |states| { return false; }
      states := states + [id];
      if cur == NO_STATE && next == NO_STATE { next := id; }
      ok := true;
    }

    /** The loop looks for the state to leave and the state to enter at once. */
    method ChangeStates()
      requires Valid()
      modifies this`cur, this`log
      ensures State() == Changed(old(State()))
    {
      if cur != next {
        var found := false;
        for i := 0 to |states|
          invariant cur == old(cur)
          invariant log == old(log) + if cur in states[..i] then [Exited(cur)] else []
          invariant found <==> next in states[..i]
        {
          assert states[..i + 1] == states[..i] + [states[i]];
          if states[i] == cur {
            log := log + [Exited(cur)];
          } else if states[i] == next {
            found := true;
          }
        }
        assert states[..|states|] == states;
        if found {
          log := log + [Entered(next)];
          cur := next;
        } else {
          cur := NO_STATE;
        }
      }
    }

    /** The request is what the update callback asks for, if anything. */
    method Update(request: Option<StateId>) returns (ok: bool)
      requires Valid()
      modifies this
      ensures Valid() && State() == Apply(old(State()), Op.Update(request)) && ok == (cur in states)
    {
      ChangeStates();
      var k := Find(cur);
      if k == |states| { return false; }
      log := log + [Updated(states[k])];
      if request.Some? { RequestTransition(request.value); }
      ok := true;
    }

    method RequestTransition(target: StateId)
      modifies this`next
      ensures next == target
    {
      next := target;
    }

    method Term()
      requires Valid()
      modifies this
      ensures Valid() && State() == Apply(old(State()), Op.Term)
    {
      var k := Find(cur);
      if k < |states| { log := log + [Exited(states[k])]; }
      ghost var before := log;
      for i := 0 to |states|
        invariant log == before + Terminations(states[..i]) && states == old(states) && cur == old(cur) &&
          next == old(next)
      {
        assert states[..i + 1][..i] == states[..i];
        log := log + [Terminated(states[i])];
      }
      assert states[..|states|] == states;
      states := [];
    }
  }
}
