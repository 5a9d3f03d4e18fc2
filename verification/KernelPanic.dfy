/** The panic handler under any interleaving of panics on any number of CPUs,
    including panics inside the handler itself. */
module KernelPanic {
  import opened Wrappers

  datatype Phase =
    | Running
    | AtGate                     // interrupts are off, about to compare-exchange
    | Refused                    // the exchange failed, about to load the winner
    | Suspended                  // waits for interrupts for ever
    | Unlocking                  // panic_force_unlock() on the console
    | Reporting                  // the first messages
    | Counting                   // abort_if_double_panic()
    | Backtracing
    | Concluding                 // the last messages
    | Aborting                   // "Panic in panic"
    | Polling                    // poll_for_reboot()

  /** `counter` is the 8-bit PANIC_COUNTER; `counted` and `backtraces` are how
      often it was incremented, and how often the backtrace was entered. */
  datatype State = State(first: Option<nat>, counter: nat, phases: seq<Phase>, counted: nat, backtraces: nat)

  datatype Action = Panic | Proceed

  const COUNTER_RANGE := 256

  function Goto(s: State, c: nat, p: Phase): State
    requires c < |s.phases|
  {
    s.(phases := s.phases[c := p])
  }

  /** Where code runs that may panic. Waiting for a reboot or an interrupt does not. */
  predicate MayPanic(p: Phase) {
    p.Running? || p.Unlocking? || p.Reporting? || p.Backtracing? || p.Concluding? || p.Aborting?
  }

  /** One step of CPU `c`. A panic never returns to what it interrupted. */
  function Step(s: State, c: nat, a: Action): Option<State>
    requires c < |s.phases|
  {
    match a
    case Panic => if MayPanic(s.phases[c]) then Some(Goto(s, c, AtGate)) else None
    case Proceed =>
      match s.phases[c]
      case Running => Some(s)
      case AtGate =>
        if s.first.None? then Some(Goto(s, c, Unlocking).(first := Some(c))) else Some(Goto(s, c, Refused))
      case Refused => Some(Goto(s, c, if s.first == Some(c) then Unlocking else Suspended))
      case Suspended => None
      case Unlocking => Some(Goto(s, c, Reporting))
      case Reporting => Some(Goto(s, c, Counting))
      case Counting =>
        var t := s.(counter := (s.counter + 1) % COUNTER_RANGE, counted := s.counted + 1);
        if s.counter >= 1 then Some(Goto(t, c, Aborting))
        else Some(Goto(t, c, Backtracing).(backtraces := s.backtraces + 1))
      case Backtracing => Some(Goto(s, c, Concluding))
      case Concluding => Some(Goto(s, c, Polling))
      case Aborting => Some(Goto(s, c, Polling))
      case Polling => None
  }

  /** Beyond the gate. */
  predicate Passed(p: Phase) {
    p.Unlocking? || p.Reporting? || p.Counting? || p.Backtracing? || p.Concluding? || p.Aborting? || p.Polling?
  }

  /** The first exchange decides, and every full turn of the counter allows one
      backtrace. */
  predicate Inv(s: State) {
    && (forall c: nat | c < |s.phases| && Passed(s.phases[c]) :: s.first == Some(c))
    && (forall c: nat | c < |s.phases| && s.phases[c].Refused? :: s.first.Some?)
    && s.counter == s.counted % COUNTER_RANGE
    && s.backtraces == (s.counted + COUNTER_RANGE - 1) / COUNTER_RANGE
  }

  predicate Init(s: State) {
    s.first.None? && s.counter == 0 && s.counted == 0 && s.backtraces == 0
      && forall c | 0 <= c < |s.phases| :: s.phases[c].Running?
  }

  /** Counting up by one starts a new turn exactly at a multiple. */
  lemma NextTurn(n: nat)
    ensures (n + 1) % COUNTER_RANGE == (n % COUNTER_RANGE + 1) % COUNTER_RANGE
    ensures (n + COUNTER_RANGE) / COUNTER_RANGE ==
            (n + COUNTER_RANGE - 1) / COUNTER_RANGE + if n % COUNTER_RANGE == 0 then 1 else 0
  {
  }

  lemma StepKeeps(s: State, c: nat, a: Action)
    requires Inv(s) && c < |s.phases| && Step(s, c, a).Some?
    ensures var t := Step(s, c, a).value;
            && Inv(t) && |t.phases| == |s.phases| && (s.first.Some? ==> t.first == s.first) && s.counted <= t.counted
            && (s.phases[c].Suspended? ==> t.phases[c].Suspended?)
  {
    NextTurn(s.counted);
  }

  datatype Event = Event(cpu: nat, action: Action)

  predicate Follows(s: State, e: Event, t: State) {
    e.cpu < |s.phases| && Step(s, e.cpu, e.action) == Some(t)
  }

  predicate Run(states: seq<State>, events: seq<Event>) {
    |states| == |events| + 1 && forall i | 0 <= i < |events| :: Follows(states[i], events[i], states[i + 1])
  }

  lemma EventKeeps(s: State, e: Event, t: State)
    requires Inv(s) && Follows(s, e, t)
    ensures Inv(t) && (s.first.Some? ==> t.first == s.first) && s.counted <= t.counted
  {
    hide Step, Inv;
    StepKeeps(s, e.cpu, e.action);
  }

  lemma {:induction false} RunKeeps(states: seq<State>, events: seq<Event>, i: nat)
    requires Run(states, events) && Init(states[0]) && i < |states|
    ensures Inv(states[i])
  {
    if i > 0 {
      hide Follows, Inv;
      RunKeeps(states, events, i - 1);
      assert Follows(states[i - 1], events[i - 1], states[i - 1 + 1]);
      EventKeeps(states[i - 1], events[i - 1], states[i]);
    }
  }

  lemma {:induction false} WinnerStays(states: seq<State>, events: seq<Event>, i: nat, j: nat)
    requires Run(states, events) && Init(states[0]) && i <= j < |states|
    ensures states[i].first.Some? ==> states[j].first == states[i].first
    ensures states[i].counted <= states[j].counted
    decreases j - i
  {
    if i < j {
      hide Follows, Inv, Init;
      WinnerStays(states, events, i, j - 1);
      RunKeeps(states, events, j - 1);
      assert Follows(states[j - 1], events[j - 1], states[j - 1 + 1]);
      EventKeeps(states[j - 1], events[j - 1], states[j]);
    }
  }

  /** In every run, at any two moments, the CPUs beyond the gate are one and the
      same: the one that won the exchange. */
  lemma OneCpuPasses(states: seq<State>, events: seq<Event>, i: nat, j: nat, c: nat, d: nat)
    requires Run(states, events) && Init(states[0]) && i < |states| && j < |states|
    requires c < |states[i].phases| && Passed(states[i].phases[c])
    requires d < |states[j].phases| && Passed(states[j].phases[d])
    ensures c == d && states[i].first == Some(c)
  {
    RunKeeps(states, events, i);
    RunKeeps(states, events, j);
    if i <= j { WinnerStays(states, events, i, j); } else { WinnerStays(states, events, j, i); }
  }

  /** In every run the backtrace is entered at most once if and only if the
      double-panic check is reached at most 256 times. */
  lemma BacktraceOnce(states: seq<State>, events: seq<Event>)
    requires Run(states, events) && Init(states[0])
    ensures var s := states[|events|]; s.backtraces <= 1 <==> s.counted <= 256
    ensures var s := states[|events|]; s.backtraces == 0 <==> s.counted == 0
  {
    RunKeeps(states, events, |events|);
  }

  // ------------------------------------------------------ what the handler does

  /** CPU `c` alone takes `n` steps. */
  function Onwards(s: State, c: nat, n: nat): Option<State> {
    if n == 0 then Some(s)
    else match Onwards(s, c, n - 1)
      case None => None
      case Some(t) => if c < |t.phases| then Step(t, c, Proceed) else None
  }

  lemma PhaseTwice(s: State, c: nat, p: Phase, q: Phase)
    requires c < |s.phases|
    ensures s.phases[c := p][c := q] == s.phases[c := q]
  {
  }

  /** The first CPU to panic unlocks the console, reports, counts itself, prints the
      backtrace and the last messages, in this order, and then waits for a reboot. */
  lemma WinnerGoesThrough(s: State, c: nat)
    requires c < |s.phases| && s.phases[c].AtGate? && s.first.None? && s.counter == 0
    ensures Onwards(s, c, 1) == Some(Goto(s, c, Unlocking).(first := Some(c)))
    ensures Onwards(s, c, 2) == Some(Goto(s, c, Reporting).(first := Some(c)))
    ensures Onwards(s, c, 3) == Some(Goto(s, c, Counting).(first := Some(c)))
    ensures var t := s.(first := Some(c), counter := 1, counted := s.counted + 1, backtraces := s.backtraces + 1);
            && Onwards(s, c, 4) == Some(Goto(t, c, Backtracing))
            && Onwards(s, c, 5) == Some(Goto(t, c, Concluding))
            && Onwards(s, c, 6) == Some(Goto(t, c, Polling)) && Onwards(s, c, 7) == None
  {
    var t := s.(first := Some(c), counter := 1, counted := s.counted + 1, backtraces := s.backtraces + 1);
    assert Onwards(s, c, 1) == Some(Goto(s, c, Unlocking).(first := Some(c)));
    PhaseTwice(s, c, Unlocking, Reporting);
    assert Onwards(s, c, 2) == Some(Goto(s, c, Reporting).(first := Some(c)));
    PhaseTwice(s, c, Reporting, Counting);
    assert Onwards(s, c, 3) == Some(Goto(s, c, Counting).(first := Some(c)));
    PhaseTwice(s, c, Counting, Backtracing);
    assert Onwards(s, c, 4) == Some(Goto(t, c, Backtracing));
    PhaseTwice(s, c, Backtracing, Concluding);
    assert Onwards(s, c, 5) == Some(Goto(t, c, Concluding));
    PhaseTwice(s, c, Concluding, Polling);
    assert Onwards(s, c, 6) == Some(Goto(t, c, Polling));
  }

  /** Every other CPU is suspended for good, and a further panic of the first one is
      let through again but gets no second backtrace. */
  lemma OthersStop(s: State, c: nat, d: nat)
    requires c < |s.phases| && s.phases[c].AtGate? && s.first == Some(d)
    ensures Onwards(s, c, 2) == Some(Goto(s, c, if c == d then Unlocking else Suspended))
    ensures c != d ==> Onwards(s, c, 3) == None
  {
    assert Onwards(s, c, 1) == Some(Goto(s, c, Refused));
    PhaseTwice(s, c, Refused, if c == d then Unlocking else Suspended);
    assert Onwards(s, c, 2) == Some(Goto(s, c, if c == d then Unlocking else Suspended));
  }

  /** A panic in the handler is found out at the counter. */
  lemma DoublePanicAborts(s: State, c: nat)
    requires c < |s.phases| && s.phases[c].Counting? && 1 <= s.counter < 256
    ensures var t := Goto(s.(counter := (s.counter + 1) % 256, counted := s.counted + 1), c, Aborting);
            Step(s, c, Proceed) == Some(t) && Step(t, c, Proceed) == Some(Goto(t, c, Polling))
  {
  }

  // ----------------------------------------------- the bound can be exceeded

  ghost predicate Reaches(s: State, t: State) {
    exists states: seq<State>, events: seq<Event> ::
      Run(states, events) && states[0] == s && states[|events|] == t
  }

  lemma OneStep(s: State, e: Event, t: State)
    requires Follows(s, e, t)
    ensures Reaches(s, t)
  {
    assert Run([s, t], [e]);
  }

  lemma ReachesTrans(s: State, t: State, u: State)
    requires Reaches(s, t) && Reaches(t, u)
    ensures Reaches(s, u)
  {
    hide Follows;
    var states: seq<State>, events: seq<Event> :| Run(states, events) && states[0] == s && states[|events|] == t;
    var more: seq<State>, later: seq<Event> :| Run(more, later) && more[0] == t && more[|later|] == u;
    var all, n := states + more[1..], |events|;
    forall i | 0 <= i < |events + later| ensures Follows(all[i], (events + later)[i], all[i + 1]) {
      if i < n {
        assert Follows(states[i], events[i], states[i + 1]);
      } else {
        assert Follows(more[i - n], later[i - n], more[i - n + 1]);
      }
    }
    assert Run(all, events + later);
  }

  /** One CPU, which panics again in each "Panic in panic" message. */
  function Nested(n: nat): State {
    State(Some(0), n % COUNTER_RANGE, [if n % COUNTER_RANGE == 1 then Backtracing else Aborting], n,
          (n + COUNTER_RANGE - 1) / COUNTER_RANGE)
  }

  /** The only CPU goes on to a given state. */
  lemma Onward(s: State, a: Action, t: State)
    requires |s.phases| == 1 == |t.phases| && Step(s, 0, a).Some?
    requires Step(s, 0, a).value.(phases := t.phases) == t && Step(s, 0, a).value.phases[0] == t.phases[0]
    ensures Reaches(s, t)
  {
    var u := Step(s, 0, a).value;
    assert u.phases == t.phases;
    OneStep(s, Event(0, a), t);
  }

  /** From entering the handler to the counter. */
  lemma ToCounter(s: State, t: State)
    requires s.phases == [AtGate] && t == s.(phases := [Counting], first := Some(0))
    requires s.first.None? || s.first == Some(0)
    ensures Reaches(s, t)
  {
    var passed, report := s.(phases := [Unlocking], first := Some(0)), s.(phases := [Reporting], first := Some(0));
    hide Reaches;
    if s.first.Some? {
      var refused := s.(phases := [Refused]);
      Onward(s, Proceed, refused);
      Onward(refused, Proceed, passed);
      ReachesTrans(s, refused, passed);
    } else {
      Onward(s, Proceed, passed);
    }
    Onward(passed, Proceed, report);
    Onward(report, Proceed, t);
    ReachesTrans(s, passed, report);
    ReachesTrans(s, report, t);
  }

  lemma CountedOnce(s: State, n: nat)
    requires n > 0 && s.phases == [Counting] && s.first == Some(0)
    requires s == var before := if n == 1 then State(None, 0, [Running], 0, 0) else Nested(n - 1);
                  before.(phases := [Counting], first := Some(0))
    ensures Reaches(s, Nested(n))
  {
    hide Reaches;
    NextTurn(n - 1);
    Onward(s, Proceed, Nested(n));
  }

  lemma {:induction false} NestedReached(n: nat)
    requires n > 0
    ensures Reaches(State(None, 0, [Running], 0, 0), Nested(n))
  {
    var init := State(None, 0, [Running], 0, 0);
    var before := if n == 1 then init else Nested(n - 1);
    var gate, counting := before.(phases := [AtGate]), before.(phases := [Counting], first := Some(0));
    hide Reaches;
    Onward(before, Panic, gate);
    ToCounter(gate, counting);
    CountedOnce(counting, n);
    hide Nested;
    ReachesTrans(before, gate, counting);
    ReachesTrans(before, counting, Nested(n));
    if n > 1 {
      NestedReached(n - 1);
      ReachesTrans(init, before, Nested(n));
    }
  }

  /** Unbounded nesting wraps the counter around: a second backtrace. */
  lemma SecondBacktrace()
    ensures exists s :: Reaches(State(None, 0, [Running], 0, 0), s) && s.backtraces == 2 && s.phases == [Backtracing]
  {
    NestedReached(COUNTER_RANGE + 1);
    var s := Nested(COUNTER_RANGE + 1);
    assert s.backtraces == 2 && s.phases == [Backtracing];
  }
}
