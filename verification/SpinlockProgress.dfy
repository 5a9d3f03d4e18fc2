/** That the spinlock can be taken and given back: what a CPU gets that goes on. */
module SpinlockProgress {
  import opened Wrappers
  import opened Spinlock

  /** A compare-exchange takes the lock exactly if nobody has it; otherwise lock() goes
      on spinning, try_with_lock() gives up, and nothing else changes. */
  lemma TakesFreeLock(s: State, c: nat)
    requires Inv(s) && c < |s.cpus| && (s.cpus[c].phase.Spinning? || s.cpus[c].phase.Trying?)
    ensures var r := Step(s, c, CompareExchange);
            && r.Some? && |r.value.cpus| == |s.cpus| && r.value.locked
            && (if !Held(s) && !s.orphan then r.value.cpus[c] == Cpu(Acquired, true) && Holds(r.value, c)
                else if s.cpus[c].phase.Spinning? then r.value == s
                else r.value == Goto(s, c, if Holds(s, c) then Inside else Outside))
            && forall d | 0 <= d < |s.cpus| && d != c :: r.value.cpus[d] == s.cpus[d]
  {
  }

  /** No CPU that still runs is ever without a next step. */
  lemma NeverStandsStill(s: State, c: nat) returns (a: Action)
    requires c < |s.cpus| && !s.cpus[c].phase.Gone? && !s.cpus[c].phase.Fired?
    ensures Step(s, c, a).Some? && !a.Abandon?
  {
    a := match s.cpus[c].phase
      case Outside => Lock
      case ReadingMode => LoadMode
      case ReadingLocked => LoadLocked
      case ReadingOwner => LoadOwner
      case Spinning => CompareExchange
      case Trying => CompareExchange
      case Acquired => StoreOwner
      case Inside => Drop
      case Dropping => ClearOwner
      case Releasing => Unlock
      case _ => Abandon;
  }

  lemma SetTwice(s: State, c: nat, x: Cpu, y: Cpu)
    requires c < |s.cpus|
    ensures s.cpus[c := x][c := y] == s.cpus[c := y]
  {
  }

  /** lock() on a lock that is free leads into the critical section, with the CPU as
      the owner. */
  lemma LockLeadsIn(s: State, c: nat)
    requires c < |s.cpus| && s.cpus[c] == Cpu(Outside, false) && !s.locked && !s.panicMode
    ensures Play(s, c, [Lock, LoadMode, LoadLocked, CompareExchange, StoreOwner], 5) ==
            Some(s.(locked := true, owner := Some(c), cpus := s.cpus[c := Cpu(Inside, true)]))
  {
    var way := [Lock, LoadMode, LoadLocked, CompareExchange, StoreOwner];
    assert Play(s, c, way, 1) == Some(Goto(s, c, ReadingMode));
    GotoTwice(s, c, ReadingMode, ReadingLocked);
    assert Play(s, c, way, 2) == Some(Goto(s, c, ReadingLocked));
    GotoTwice(s, c, ReadingLocked, Spinning);
    assert Play(s, c, way, 3) == Some(Goto(s, c, Spinning));
    SetTwice(s, c, Cpu(Spinning, false), Cpu(Acquired, true));
    var t := s.(locked := true, cpus := s.cpus[c := Cpu(Acquired, true)]);
    assert Play(s, c, way, 4) == Some(t);
    SetTwice(s, c, Cpu(Acquired, true), Cpu(Inside, true));
    assert Step(t, c, StoreOwner) == Some(t.(owner := Some(c), cpus := s.cpus[c := Cpu(Inside, true)]));
  }

  /** The same for try_with_lock(). */
  lemma TryLeadsIn(s: State, c: nat)
    requires c < |s.cpus| && s.cpus[c] == Cpu(Outside, false) && !s.locked
    ensures Play(s, c, [TryLock, CompareExchange, StoreOwner], 3) ==
            Some(s.(locked := true, owner := Some(c), cpus := s.cpus[c := Cpu(Inside, true)]))
  {
    var way := [TryLock, CompareExchange, StoreOwner];
    assert Play(s, c, way, 1) == Some(Goto(s, c, Trying));
    SetTwice(s, c, Cpu(Trying, false), Cpu(Acquired, true));
    var t := s.(locked := true, cpus := s.cpus[c := Cpu(Acquired, true)]);
    assert Play(s, c, way, 2) == Some(t);
    SetTwice(s, c, Cpu(Acquired, true), Cpu(Inside, true));
    assert Step(t, c, StoreOwner) == Some(t.(owner := Some(c), cpus := s.cpus[c := Cpu(Inside, true)]));
  }

  /** Dropping the guard frees the lock and leaves no owner, for anyone to take. */
  lemma DropFrees(s: State, c: nat)
    requires Inv(s) && c < |s.cpus| && s.cpus[c].phase.Inside?
    ensures var r := Play(s, c, [Drop, ClearOwner, Unlock], 3);
            && r == Some(s.(locked := false, owner := None, cpus := s.cpus[c := Cpu(Outside, false)]))
            && !Held(r.value) && !r.value.orphan
  {
    var way := [Drop, ClearOwner, Unlock];
    assert CpuOk(s, c) && Holds(s, c);
    assert Play(s, c, way, 1) == Some(Goto(s, c, Dropping));
    GotoTwice(s, c, Dropping, Releasing);
    assert Play(s, c, way, 2) == Some(Goto(s, c, Releasing).(owner := None));
    SetTwice(s, c, Cpu(Releasing, true), Cpu(Outside, false));
    var t := s.(locked := false, owner := None, cpus := s.cpus[c := Cpu(Outside, false)]);
    assert Play(s, c, way, 3) == Some(t);
    forall d: nat ensures !Holds(t, d) { assert d != c ==> !Holds(s, d); }
  }
}
