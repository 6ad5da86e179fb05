/**
  `StateMachine<Base, States...>` of src/state_machine.h: the protocol by
  which states' `entry`, `loop` and `exit` actions run. States are numbered
  by their position in the `States...` list; what the actions do is the
  concern of each machine, so here they are recorded in a trace.
 */
module StateMachine {

  /** One action of one state, in the order the machine runs them. */
  datatype Action = Entry(s: nat) | LoopOf(s: nat) | Exit(s: nat)

  /** The current state and whether `loop()` has not yet been called. */
  datatype Machine = Machine(current: nat, firstRun: bool)

  datatype Out = Out(m: Machine, trace: seq<Action>)

  /** The constructor: the first state of the list, first run pending. */
  function New(): (m: Machine)
    ensures m.current == 0 && m.firstRun
  {
    Machine(0, true)
  }

  /** `transition_to<next>()`: exit the current state, switch, enter the next. */
  function TransitionTo(m: Machine, next: nat): (o: Out)
    ensures o.m.current == next && o.m.firstRun == m.firstRun
    ensures o.trace == [Exit(m.current), Entry(next)]
  {
    Out(m.(current := next), [Exit(m.current), Entry(next)])
  }

  /** `loop()`: the first call enters the current state before its loop; later calls only loop. */
  function Loop(m: Machine): (o: Out)
    ensures o.m.current == m.current && !o.m.firstRun
    ensures m.firstRun ==> o.trace == [Entry(m.current), LoopOf(m.current)]
    ensures !m.firstRun ==> o.trace == [LoopOf(m.current)]
  {
    if m.firstRun then Out(Machine(m.current, false), [Entry(m.current), LoopOf(m.current)])
    else Out(m, [LoopOf(m.current)])
  }

  /** `is_current_state<S>()`. */
  predicate IsCurrent(m: Machine, s: nat) {
    m.current == s
  }

  /** A call of the machine from outside: a transition or a loop. */
  datatype Call = Goto(next: nat) | Tick

  function Step(m: Machine, c: Call): (o: Out)
    ensures o.m.current == (if c.Goto? then c.next else m.current)
    ensures o.m.firstRun == (m.firstRun && c.Goto?)
    ensures |o.trace| == (if c.Tick? && !m.firstRun then 1 else 2)
  {
    match c
    case Goto(next) => TransitionTo(m, next)
    case Tick => Loop(m)
  }

  function Run(m: Machine, cs: seq<Call>): (o: Out)
    ensures !o.m.firstRun <==> !m.firstRun || Tick in cs
    ensures |o.trace| >= |cs|
    decreases |cs|
  {
    if cs == [] then Out(m, [])
    else
      var o := Step(m, cs[0]);
      var rest := Run(o.m, cs[1..]);
      Out(rest.m, o.trace + rest.trace)
  }

  /** How many times state `s` is entered in a trace. */
  function Entries(tr: seq<Action>, s: nat): nat {
    if tr == [] then 0 else (if tr[0] == Entry(s) then 1 else 0) + Entries(tr[1..], s)
  }

  lemma EntriesAppend(a: seq<Action>, b: seq<Action>, s: nat)
    ensures Entries(a + b, s) == Entries(a, s) + Entries(b, s)
  {
    if a == [] {
      assert a + b == b;
    } else {
      assert (a + b)[0] == a[0] && (a + b)[1..] == a[1..] + b;
      EntriesAppend(a[1..], b, s);
    }
  }

  /** How many calls are transitions to `s`. */
  function Gotos(cs: seq<Call>, s: nat): nat {
    if cs == [] then 0 else (if cs[0] == Goto(s) then 1 else 0) + Gotos(cs[1..], s)
  }

  /**
    After the first loop, each state's entry runs exactly as often as the
    machine transitions to it: loops add no entries.
   */
  lemma {:induction false} EntriesFollowTransitions(m: Machine, cs: seq<Call>, s: nat)
    requires !m.firstRun
    ensures Entries(Run(m, cs).trace, s) == Gotos(cs, s)
    ensures !Run(m, cs).m.firstRun
    decreases |cs|
  {
    if cs != [] {
      var o := Step(m, cs[0]);
      EntriesFollowTransitions(o.m, cs[1..], s);
      EntriesAppend(o.trace, Run(o.m, cs[1..]).trace, s);
      match cs[0] {
        case Goto(n) =>
          assert o.trace == [Exit(m.current), Entry(n)];
          assert Entries(o.trace, s) == (if n == s then 1 else 0) by {
            assert o.trace[1..] == [Entry(n)];
            assert o.trace[1..][1..] == [];
          }
        case Tick =>
          assert o.trace == [LoopOf(m.current)];
          assert o.trace[1..] == [];
      }
    }
  }

  /**
    A transition made before the first `loop()` enters the target state
    twice: once in the transition and again when the first loop runs.
   */
  lemma TransitionBeforeFirstLoop(next: nat)
    ensures Run(New(), [Goto(next), Tick]).trace == [Exit(0), Entry(next), Entry(next), LoopOf(next)]
    ensures IsCurrent(Run(New(), [Goto(next), Tick]).m, next)
  {
    var o1 := TransitionTo(New(), next);
    var o2 := Loop(o1.m);
    assert Run(o1.m, [Tick]).trace == o2.trace + [];
    assert [Goto(next), Tick][1..] == [Tick];
  }
}
