/** The kernel's spinlock under any interleaving of any number of CPUs, with its
    same-CPU deadlock detector and the forced unlock of the panic path. */
module Spinlock {
  import opened Wrappers

  /** Where a CPU is in the code of the lock. A CPU that holds the lock can call
      lock() and try_with_lock() again, so that holding is kept separately. */
  datatype Phase =
    | Outside
    | ReadingMode | ReadingLocked | ReadingOwner   // detect_same_cpu_deadlock()
    | Spinning                                     // the compare-exchange loop of lock()
    | Trying                                       // the one compare-exchange of try_with_lock()
    | Acquired                                     // about to store the owner
    | Inside                                       // the guard is alive
    | Dropping                                     // about to clear the owner
    | Releasing                                    // about to clear the lock
    | Fired                                        // the detector's assertion has failed
    | Gone                                         // halted, or in the panic handler

  datatype Cpu = Cpu(phase: Phase, holding: bool)

  /** `orphan`: the lock was taken by a guard that will never be dropped. */
  datatype State = State(locked: bool, owner: Option<nat>, panicMode: bool, cpus: seq<Cpu>, orphan: bool)

  datatype Action =
    | Lock | TryLock | LoadMode | LoadLocked | LoadOwner | CompareExchange | StoreOwner
    | Drop | ClearOwner | Unlock
    | Abandon          // a panic or a halt: whatever the CPU was doing is never resumed
    | EnterPanicMode | ForceOwner | ForceUnlock | Handler

  function Goto(s: State, c: nat, phase: Phase): State
    requires c < |s.cpus|
  {
    s.(cpus := s.cpus[c := s.cpus[c].(phase := phase)])
  }

  /** One atomic step of CPU `c`, if it is at a point where it can take it. */
  function Step(s: State, c: nat, a: Action): Option<State>
    requires c < |s.cpus|
  {
    var me := s.cpus[c];
    match a
    case Lock => if me.phase.Outside? || me.phase.Inside? then Some(Goto(s, c, ReadingMode)) else None
    case TryLock => if me.phase.Outside? || me.phase.Inside? then Some(Goto(s, c, Trying)) else None
    case LoadMode =>
      if me.phase.ReadingMode? then Some(Goto(s, c, if s.panicMode then Spinning else ReadingLocked)) else None
    case LoadLocked =>
      if me.phase.ReadingLocked? then Some(Goto(s, c, if s.locked then ReadingOwner else Spinning)) else None
    case LoadOwner =>
      if me.phase.ReadingOwner? then Some(Goto(s, c, if s.owner == Some(c) then Fired else Spinning)) else None
    case CompareExchange =>
      if !me.phase.Spinning? && !me.phase.Trying? then None
      else if !s.locked then Some(s.(locked := true, cpus := s.cpus[c := Cpu(Acquired, true)]))
      else if me.phase.Spinning? then Some(s)
      else Some(Goto(s, c, if me.holding then Inside else Outside))
    case StoreOwner => if me.phase.Acquired? then Some(Goto(s, c, Inside).(owner := Some(c))) else None
    case Drop => if me.phase.Inside? then Some(Goto(s, c, Dropping)) else None
    case ClearOwner => if me.phase.Dropping? then Some(Goto(s, c, Releasing).(owner := None)) else None
    case Unlock =>
      if me.phase.Releasing? then Some(s.(locked := false, cpus := s.cpus[c := Cpu(Outside, false)])) else None
    case Abandon =>
      if me.phase.Gone? then None
      else Some(s.(cpus := s.cpus[c := Cpu(Gone, false)], orphan := s.orphan || me.holding))
    case EnterPanicMode => if me.phase.Gone? then Some(s.(panicMode := true)) else None
    case ForceOwner => if me.phase.Gone? && s.panicMode then Some(s.(owner := None)) else None
    case ForceUnlock => if me.phase.Gone? && s.panicMode then Some(s.(locked := false, orphan := false)) else None
    // The handler goes on to print, which takes the lock like anyone else
    case Handler => if me.phase.Gone? && s.panicMode then Some(Goto(s, c, Outside)) else None
  }

  // ------------------------------------------------------------- the invariant

  predicate Holds(s: State, c: nat) { c < |s.cpus| && s.cpus[c].holding }

  ghost predicate Held(s: State) { exists c: nat :: Holds(s, c) }

  /** Somebody holds the lock, or nobody ever will again, exactly when it is set. */
  ghost predicate LockOk(s: State) {
    && (forall c: nat, d: nat | Holds(s, c) && Holds(s, d) :: c == d)
    && (s.locked <==> s.orphan || Held(s))
    && !(s.orphan && Held(s))
    && (s.owner.Some? ==> s.orphan || Holds(s, s.owner.value))
  }

  predicate CpuOk(s: State, c: nat)
    requires c < |s.cpus|
  {
    var me := s.cpus[c];
    && (me.phase.Acquired? || me.phase.Inside? || me.phase.Dropping? || me.phase.Releasing? || me.phase.Fired? ==>
         me.holding)
    && (me.phase.Outside? || me.phase.Gone? ==> !me.holding)
    && (me.holding ==> s.owner == if me.phase.Acquired? || me.phase.Releasing? then None else Some(c))
    && (!me.holding && s.owner == Some(c) ==>
         me.phase.Gone? || (s.panicMode && !me.phase.ReadingLocked? && !me.phase.ReadingOwner?))
    && (me.holding && me.phase.Spinning? ==> s.panicMode)
  }

  ghost predicate Inv(s: State) { LockOk(s) && forall c | 0 <= c < |s.cpus| :: CpuOk(s, c) }

  predicate Init(s: State) {
    !s.locked && s.owner.None? && !s.panicMode && !s.orphan
      && forall c | 0 <= c < |s.cpus| :: s.cpus[c] == Cpu(Outside, false)
  }

  lemma LockStep(s: State, c: nat, a: Action)
    requires Inv(s) && c < |s.cpus| && Step(s, c, a).Some? && !a.ForceOwner? && !a.ForceUnlock?
    ensures LockOk(Step(s, c, a).value)
  {
    var t := Step(s, c, a).value;
    assert CpuOk(s, c);
    forall d: nat | d != c ensures Holds(t, d) <==> Holds(s, d) {}
    assert Holds(s, c) <==> s.cpus[c].holding;
    assert Holds(t, c) <==> t.cpus[c].holding;
  }

  lemma CpuStep(s: State, c: nat, a: Action, d: nat)
    requires Inv(s) && c < |s.cpus| && Step(s, c, a).Some? && !a.ForceOwner? && !a.ForceUnlock? && d < |s.cpus|
    ensures CpuOk(Step(s, c, a).value, d)
  {
    assert CpuOk(s, c) && CpuOk(s, d);
    assert Holds(s, c) <==> s.cpus[c].holding;
    assert Holds(s, d) <==> s.cpus[d].holding;
  }

  /** Every step but the two forced stores keeps the invariant. */
  lemma StepKeeps(s: State, c: nat, a: Action)
    requires Inv(s) && c < |s.cpus| && Step(s, c, a).Some? && !a.ForceOwner? && !a.ForceUnlock?
    ensures Inv(Step(s, c, a).value)
  {
    hide CpuOk, LockOk;
    LockStep(s, c, a);
    forall d | 0 <= d < |s.cpus| ensures CpuOk(Step(s, c, a).value, d) { CpuStep(s, c, a, d); }
  }

  // -------------------------------------------------------- the forced unlock

  /** Clearing the owner is safe exactly when no CPU that still runs is recorded in it. */
  lemma ForceOwnerKeeps(s: State, c: nat)
    requires Inv(s) && c < |s.cpus| && Step(s, c, ForceOwner).Some?
    ensures Inv(Step(s, c, ForceOwner).value) <==> !(s.owner.Some? && Holds(s, s.owner.value))
  {
    var t := Step(s, c, ForceOwner).value;
    assert forall d: nat :: Holds(t, d) <==> Holds(s, d);
    if s.owner.Some? && Holds(s, s.owner.value) {
      assert CpuOk(s, s.owner.value);
      assert !CpuOk(t, s.owner.value);
    } else {
      forall d | 0 <= d < |s.cpus| ensures CpuOk(t, d) {
        assert CpuOk(s, d);
        assert Holds(s, d) <==> s.cpus[d].holding;
      }
    }
  }

  /** Clearing the lock is safe exactly when no CPU that still runs holds it. */
  lemma ForceUnlockKeeps(s: State, c: nat)
    requires Inv(s) && c < |s.cpus| && Step(s, c, ForceUnlock).Some?
    ensures Inv(Step(s, c, ForceUnlock).value) <==> !Held(s) && s.owner.None?
  {
    var t := Step(s, c, ForceUnlock).value;
    assert forall d: nat :: Holds(t, d) <==> Holds(s, d);
    if !Held(s) && s.owner.None? {
      forall d | 0 <= d < |s.cpus| ensures CpuOk(t, d) {
        assert CpuOk(s, d);
        assert Holds(s, d) <==> s.cpus[d].holding;
      }
    }
  }

  // ------------------------------------------------------------------- runs

  datatype Event = Event(cpu: nat, action: Action)

  predicate Run(states: seq<State>, events: seq<Event>) {
    && |states| == |events| + 1
    && forall i | 0 <= i < |events| :: Follows(states[i], events[i], states[i + 1])
  }

  predicate Follows(s: State, e: Event, t: State) {
    e.cpu < |s.cpus| && Step(s, e.cpu, e.action) == Some(t)
  }

  /** Forced stores come only when no CPU that still runs holds the lock. */
  ghost predicate Careful(s: State, e: Event) {
    && (e.action.ForceOwner? ==> !(s.owner.Some? && Holds(s, s.owner.value)))
    && (e.action.ForceUnlock? ==> !Held(s) && s.owner.None?)
  }

  lemma {:induction false} RunKeeps(states: seq<State>, events: seq<Event>, i: nat)
    requires Run(states, events) && Init(states[0]) && i < |states|
    requires forall j | 0 <= j < |events| :: Careful(states[j], events[j])
    ensures Inv(states[i])
  {
    hide CpuOk, Step, Holds;
    if i == 0 {
      InitInv(states[0]);
    } else {
      RunKeeps(states, events, i - 1);
      assert Follows(states[i - 1], events[i - 1], states[i - 1 + 1]) && Careful(states[i - 1], events[i - 1]);
      CarefulStep(states[i - 1], events[i - 1]);
    }
  }

  lemma InitInv(s: State)
    requires Init(s)
    ensures Inv(s)
  {
    assert forall c: nat :: !Holds(s, c);
  }

  lemma CarefulStep(s: State, e: Event)
    requires Inv(s) && e.cpu < |s.cpus| && Step(s, e.cpu, e.action).Some? && Careful(s, e)
    ensures Inv(Step(s, e.cpu, e.action).value)
  {
    hide Inv, Step;
    if e.action.ForceOwner? {
      ForceOwnerKeeps(s, e.cpu);
    } else if e.action.ForceUnlock? {
      ForceUnlockKeeps(s, e.cpu);
    } else {
      StepKeeps(s, e.cpu, e.action);
    }
  }

  /** Mutual exclusion, the meaning of the owner field, and the detector, in every
      state of every run: at most one CPU is between its compare-exchange and its
      release, `owner_cpu` names a CPU only while that CPU holds the lock (or never
      will give it back), and the assertion has failed on a CPU only if that CPU
      holds the lock. */
  lemma EveryState(states: seq<State>, events: seq<Event>, i: nat)
    requires Run(states, events) && Init(states[0]) && i < |states|
    requires forall j | 0 <= j < |events| :: Careful(states[j], events[j])
    ensures var s := states[i];
            && (forall c, d | 0 <= c < |s.cpus| && 0 <= d < |s.cpus| && s.cpus[c].phase.Inside?
                 && s.cpus[d].phase.Inside? :: c == d)
            && (forall c: nat | s.owner == Some(c) :: s.orphan || Holds(s, c))
            && (forall c | 0 <= c < |s.cpus| && s.cpus[c].phase.Fired? :: Holds(s, c))
            && (!s.panicMode ==> forall c | 0 <= c < |s.cpus| && s.cpus[c].phase.Spinning? :: !Holds(s, c))
  {
    RunKeeps(states, events, i);
    var s := states[i];
    forall c | 0 <= c < |s.cpus|
      ensures s.cpus[c].phase.Fired? || s.cpus[c].phase.Inside? ==> Holds(s, c)
      ensures !s.panicMode && s.cpus[c].phase.Spinning? ==> !Holds(s, c)
    {
      assert CpuOk(s, c);
    }
  }

  /** The detector decides exactly: outside panic mode a CPU that calls lock()
      while it holds the lock is led to the failing assertion by each of its
      loads, and no other CPU is. */
  lemma DetectorExact(s: State, c: nat)
    requires Inv(s) && c < |s.cpus|
    ensures s.cpus[c].phase.ReadingMode? && !s.panicMode ==> Step(s, c, LoadMode).value.cpus[c].phase.ReadingLocked?
    ensures s.cpus[c].phase.ReadingLocked? && Holds(s, c) ==> Step(s, c, LoadLocked).value.cpus[c].phase.ReadingOwner?
    ensures s.cpus[c].phase.ReadingOwner? ==>
              (Step(s, c, LoadOwner).value.cpus[c].phase.Fired? <==> Holds(s, c))
  {
    assert CpuOk(s, c);
  }

  // -------------------------------------------- panic while the holder is halted

  /** Nobody can get at a lock whose guard is gone for good. */
  ghost predicate Stuck(s: State) { Inv(s) && s.orphan }

  lemma StuckStays(s: State, e: Event)
    requires Stuck(s) && e.cpu < |s.cpus| && Step(s, e.cpu, e.action).Some? && !e.action.ForceUnlock?
    ensures var t := Step(s, e.cpu, e.action).value;
            Stuck(t) && (s.owner.None? || e.action.ForceOwner? ==> t.owner.None?)
  {
    assert Careful(s, e) by {
      if s.owner.Some? { assert !Holds(s, s.owner.value); }
    }
    CarefulStep(s, e);
    var t := Step(s, e.cpu, e.action).value;
    assert CpuOk(s, e.cpu);
    assert !Holds(s, e.cpu);
  }

  lemma {:induction false} StuckRun(states: seq<State>, events: seq<Event>, i: nat)
    requires Run(states, events) && Stuck(states[0]) && i < |states|
    requires forall j | 0 <= j < i :: !events[j].action.ForceUnlock?
    ensures Stuck(states[i])
    ensures (exists j :: 0 <= j < i && events[j].action.ForceOwner?) ==> states[i].owner.None?
  {
    hide Stuck, Step;
    if i > 0 {
      StuckRun(states, events, i - 1);
      assert Follows(states[i - 1], events[i - 1], states[i - 1 + 1]);
      StuckStays(states[i - 1], events[i - 1]);
    }
  }

  /** If the holder has halted, the two forced stores restore the invariant and
      free the lock, whatever other CPUs do before, between and after them. */
  lemma ForcedUnlockRestores(states: seq<State>, events: seq<Event>, i: nat, j: nat)
    requires Run(states, events) && Stuck(states[0])
    requires i < j < |events| && events[i].action.ForceOwner? && events[j].action.ForceUnlock?
    requires forall k | 0 <= k < j :: !events[k].action.ForceUnlock?
    ensures forall k | 0 <= k <= j :: Inv(states[k]) && states[k].locked
    ensures Inv(states[j + 1]) && !states[j + 1].locked && states[j + 1].owner.None? && !Held(states[j + 1])
  {
    forall k | 0 <= k <= j ensures Inv(states[k]) && states[k].locked { StuckRun(states, events, k); }
    StuckRun(states, events, j);
    assert Follows(states[j], events[j], states[j + 1]);
    ForceUnlockKeeps(states[j], events[j].cpu);
    assert forall d: nat :: Holds(states[j + 1], d) <==> Holds(states[j], d);
  }

  /** The state after the first `n` of the actions, taken by CPU `c` alone. */
  function Play(s: State, c: nat, actions: seq<Action>, n: nat): Option<State>
    requires n <= |actions|
  {
    if n == 0 then Some(s)
    else match Play(s, c, actions, n - 1)
      case None => None
      case Some(t) => if c < |t.cpus| then Step(t, c, actions[n - 1]) else None
  }

  lemma GotoTwice(s: State, c: nat, p: Phase, q: Phase)
    requires c < |s.cpus|
    ensures Goto(Goto(s, c, p), c, q) == Goto(s, c, q)
  {
    var me := s.cpus[c];
    assert s.cpus[c := me.(phase := p)][c := me.(phase := q)] == s.cpus[c := me.(phase := q)];
  }

  /** The condition is needed: whenever CPU `d` is in the critical section and CPU
      `c` panics, `c` can force the lock, take it, and be in there as well. */
  lemma ForcedOnLiveHolder(s: State, c: nat, d: nat)
    requires c < |s.cpus| && d < |s.cpus| && s.panicMode && s.cpus[c] == Cpu(Gone, false)
             && s.cpus[d] == Cpu(Inside, true)
    ensures var way := [ForceOwner, ForceUnlock, Handler, Lock, LoadMode, CompareExchange, StoreOwner];
            var r := Play(s, c, way, 7);
            && r.Some? && |r.value.cpus| == |s.cpus|
            && r.value.cpus[c].phase.Inside? && r.value.cpus[d].phase.Inside?
  {
    var way := [ForceOwner, ForceUnlock, Handler, Lock, LoadMode, CompareExchange, StoreOwner];
    var s2 := s.(owner := None, locked := false, orphan := false);
    assert Play(s, c, way, 1) == Some(s.(owner := None));
    assert Play(s, c, way, 2) == Some(s2);
    assert Play(s, c, way, 3) == Some(Goto(s2, c, Outside));
    GotoTwice(s2, c, Outside, ReadingMode);
    assert Play(s, c, way, 4) == Some(Goto(s2, c, ReadingMode));
    GotoTwice(s2, c, ReadingMode, Spinning);
    assert Play(s, c, way, 5) == Some(Goto(s2, c, Spinning));
    assert s2.cpus[c := Cpu(Spinning, false)][c := Cpu(Acquired, true)] == s2.cpus[c := Cpu(Acquired, true)];
    assert Play(s, c, way, 6) == Some(s2.(locked := true, cpus := s.cpus[c := Cpu(Acquired, true)]));
  }
}
