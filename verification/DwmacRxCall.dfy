/** What one call of receive_packets() has to return, and that it ends. */
module DwmacRxCall {
  import opened DmaMemory
  import opened DwmacRx

  /** A run with the actions that make it up. */
  ghost predicate RunBy(trace: seq<Rx>, acts: seq<Action>) {
    && |trace| == |acts| + 1 && Init(trace[0]) && NoDirty(trace[0].buf)
    && forall n | 0 <= n < |acts| :: StepBy(trace[n], acts[n], trace[n + 1])
  }

  ghost predicate StepBy(s: Rx, a: Action, t: Rx) { WellFormed(s) && t == Step(s, a) }

  lemma RunInv(trace: seq<Rx>, acts: seq<Action>, n: nat)
    requires RunBy(trace, acts) && n <= |acts|
    ensures Inv(trace[n])
  {
    hide Step, Inv, WellFormed, Init, NoDirty;
    forall k | 0 <= k < |trace| - 1 ensures CanStep(trace[k], trace[k + 1]) {
      assert StepBy(trace[k], acts[k], trace[k + 1]);
    }
    RunKeeps(trace, n);
  }

  // -------------------------------------------------------- what a call returns

  /** As long as one of the first `due` completions is not handled, the call goes on,
      and does not take a stale copy of the descriptor for one that is not complete. */
  ghost predicate Due(s: Rx, due: nat) {
    s.consumed < due ==>
      !s.pc.Idle? && (s.pc.Look? && s.rxIdx in s.desc.cache ==> !s.desc.cache[s.rxIdx].content.Own())
  }

  /** The next descriptor that is due is with the CPU. */
  lemma NextIsOurs(s: Rx)
    requires Inv(s) && s.consumed < |s.completed| && !s.pc.FlushDesc?
    ensures s.rxIdx < |s.desc.ram| && !s.desc.ram[s.rxIdx].Own()
  {
    hide Intact, Fresh, Frames, Slot, Next, Progress;
    assert WaitingOk(s, s.consumed);
  }

  lemma DueKeptByDriver(s: Rx, due: nat)
    requires Inv(s) && due <= |s.completed| && Due(s, due)
    ensures Due(DriverStep(s), due)
  {
    if s.consumed < due && !s.pc.FlushDesc? { NextIsOurs(s); }
    assert WellFormed(s);
    hide Inv, Intact, Fresh, Frames, Slot, Next, Progress;
  }

  lemma DueKept(s: Rx, a: Action, due: nat)
    requires Inv(s) && due <= |s.completed| && Due(s, due)
    ensures WellFormed(s) && Due(Step(s, a), due) && |s.completed| <= |Step(s, a).completed|
    ensures s.completed <= Step(s, a).completed && s.consumed <= Step(s, a).consumed
  {
    if s.consumed < due && !s.pc.FlushDesc? { NextIsOurs(s); }
    assert WellFormed(s);
    if a.Driver? { DueKeptByDriver(s, due); }
    hide Inv, Intact, Fresh, Frames, Slot, Next, Progress, Stored;
  }

  lemma {:induction false} CallGoesOn(trace: seq<Rx>, acts: seq<Action>, a: nat, b: nat)
    requires RunBy(trace, acts) && a < b <= |acts| && acts[a].Receive? && trace[a].pc.Idle?
    ensures Due(trace[b], |trace[a].completed|) && trace[a].completed <= trace[b].completed
  {
    hide Step, Inv, WellFormed, Init, NoDirty;
    assert StepBy(trace[b - 1], acts[b - 1], trace[b - 1 + 1]);
    RunInv(trace, acts, b - 1);
    if a < b - 1 {
      CallGoesOn(trace, acts, a, b - 1);
      DueKept(trace[b - 1], acts[b - 1], |trace[a].completed|);
    } else {
      CallStarts(trace[a]);
    }
  }

  lemma CallStarts(s: Rx)
    requires WellFormed(s) && s.pc.Idle?
    ensures Step(s, Receive) == s.(pc := Check)
  {
  }

  lemma {:induction false} FramesGrow(cs: seq<Completion>, n: nat)
    requires n <= |cs|
    ensures Frames(cs[..n]) <= Frames(cs)
    decreases |cs|
  {
    if n < |cs| {
      FramesGrow(cs[..|cs| - 1], n);
      assert cs[..|cs| - 1][..n] == cs[..n];
    } else {
      assert cs[..n] == cs;
    }
  }

  /** A call handles at least every descriptor that is complete when it begins: when
      the driver is idle again, it has returned all their frames of acceptable length. */
  lemma CallReturnsAll(trace: seq<Rx>, acts: seq<Action>, a: nat, b: nat)
    requires RunBy(trace, acts) && a < b <= |acts| && acts[a].Receive? && trace[a].pc.Idle? && trace[b].pc.Idle?
    ensures |trace[a].completed| <= trace[b].consumed <= |trace[b].completed|
    ensures Frames(trace[a].completed) <= trace[b].received
  {
    hide Step, Inv, WellFormed, Init, NoDirty, Frames;
    CallGoesOn(trace, acts, a, b);
    RunInv(trace, acts, b);
    var n, s := |trace[a].completed|, trace[b];
    IdleReturned(s);
    var cs := s.completed[..s.consumed];
    FramesGrow(cs, n);
    assert cs[..n] == trace[a].completed;
  }

  /** The frames returned are those of length 1 to 1600, each once and in order. */
  lemma {:induction false} FramesByPosition(cs: seq<Completion>, j: nat)
    requires j < |cs|
    ensures 0 < cs[j].length <= 1600 ==>
              |Frames(cs[..j])| < |Frames(cs)| && Frames(cs)[|Frames(cs[..j])|] == cs[j].bytes
    ensures |Frames(cs[..j + 1])| == |Frames(cs[..j])| + if 0 < cs[j].length <= 1600 then 1 else 0
  {
    var upTo := cs[..j + 1];
    assert upTo[..|upTo| - 1] == cs[..j] && upTo[|upTo| - 1] == cs[j];
    FramesGrow(cs, j + 1);
  }

  lemma IdleReturned(s: Rx)
    requires Inv(s) && s.pc.Idle?
    ensures s.consumed <= |s.completed| && s.received == Frames(s.completed[..s.consumed])
  {
    hide Progress, Frames;
  }

  // ------------------------------------------------------------- that a call ends

  /** How much a call has to do if no more frames arrive. */
  function Work(s: Rx): int
    requires s.consumed <= |s.completed|
  {
    (|s.completed| - s.consumed) * 5000 +
    match s.pc
    case Idle => 0
    case Look => 1
    case Check => 2
    case FlushDesc => 3
    case FlushBuf(_, k) => 0 - k
    case Read(_, got) => -100 - |got|
    case Arm(field) => -2000 - field
  }

  /** The lines that are flushed are those that the frame touches. */
  ghost predicate Bounded(s: Rx) { s.pc.FlushBuf? ==> s.pc.k <= 26 }

  lemma LookSeesOwn(s: Rx)
    requires Inv(s) && s.pc.Look? && s.consumed == |s.completed|
    ensures s.rxIdx < |s.desc.ram| && s.desc.View(s.rxIdx).Own()
  {
    hide Intact, Fresh, Frames, Slot, Next, Progress;
    assert ArmedOk(s, s.consumed);
    assert LineOk(s, s.rxIdx);
  }

  /** Every step of the driver brings the call nearer to its end. */
  lemma DriverWorks(s: Rx)
    requires Inv(s) && Bounded(s) && !s.pc.Idle?
    ensures WellFormed(s) && Bounded(DriverStep(s)) && DriverStep(s).consumed <= |DriverStep(s).completed|
    ensures s.consumed <= |s.completed| && 0 <= Work(DriverStep(s)) < Work(s)
  {
    if s.pc.Look? && s.consumed == |s.completed| { LookSeesOwn(s); }
    hide Intact, Fresh, Frames, Slot, Next, Claimed;
  }

  lemma OthersWork(s: Rx, a: Action)
    requires Inv(s) && Bounded(s) && !a.Driver? && !a.Device? && !(a.Receive? && s.pc.Idle?)
    ensures WellFormed(s) && Step(s, a).consumed == s.consumed && Step(s, a).completed == s.completed
    ensures Bounded(Step(s, a)) && Step(s, a).pc == s.pc
  {
    hide Intact, Fresh, Frames, Slot, Next, Claimed, Progress;
  }

  function DriverSteps(acts: seq<Action>, a: nat, b: nat): nat
    requires a <= b <= |acts|
  {
    if a == b then 0 else DriverSteps(acts, a, b - 1) + if acts[b - 1].Driver? then 1 else 0
  }

  ghost predicate InCall(trace: seq<Rx>, acts: seq<Action>, a: nat, b: nat) {
    && a <= b <= |acts| < |trace|
    && (forall n | a <= n < b :: !trace[n].pc.Idle? && !acts[n].Device?)
  }

  lemma {:induction false} CallSteps(trace: seq<Rx>, acts: seq<Action>, a: nat, b: nat)
    requires RunBy(trace, acts) && InCall(trace, acts, a, b) && Bounded(trace[a])
    ensures forall n | a <= n <= b :: trace[n].consumed <= |trace[n].completed|
    ensures Bounded(trace[b]) && 0 <= Work(trace[b]) && Work(trace[b]) + DriverSteps(acts, a, b) <= Work(trace[a])
  {
    hide Step, Inv, WellFormed, Init, NoDirty, Bounded, Work;
    forall n | a <= n <= b ensures trace[n].consumed <= |trace[n].completed| {
      RunInv(trace, acts, n);
      WorkLeft(trace[n]);
    }
    RunInv(trace, acts, b);
    WorkLeft(trace[b]);
    if a < b {
      CallSteps(trace, acts, a, b - 1);
      assert StepBy(trace[b - 1], acts[b - 1], trace[b - 1 + 1]);
      RunInv(trace, acts, b - 1);
      if acts[b - 1].Driver? {
        DriverIsStep(trace[b - 1]);
        DriverWorks(trace[b - 1]);
      } else {
        OthersWork(trace[b - 1], acts[b - 1]);
        SameWork(trace[b - 1], trace[b]);
      }
    }
  }

  lemma DriverIsStep(s: Rx)
    requires WellFormed(s)
    ensures Step(s, Driver) == DriverStep(s)
  {
  }

  lemma SameWork(s: Rx, t: Rx)
    requires s.consumed == t.consumed <= |s.completed| && s.completed == t.completed && s.pc == t.pc
    ensures Work(s) == Work(t)
  {
  }

  lemma WorkLeft(s: Rx)
    requires Inv(s)
    ensures s.consumed <= |s.completed| && (Bounded(s) ==> 0 <= Work(s) <= 16 * 5000 + 3)
  {
    hide Intact, Fresh, Frames, Slot, Next, Claimed;
  }

  /** A call returns after at most 80003 steps of its own, however they are interleaved
      with the cache, unless more frames arrive. */
  lemma CallEnds(trace: seq<Rx>, acts: seq<Action>, a: nat, b: nat)
    requires RunBy(trace, acts) && a < |acts| && acts[a].Receive? && trace[a].pc.Idle?
    requires InCall(trace, acts, a + 1, b)
    ensures DriverSteps(acts, a + 1, b) <= 80003
    ensures trace[b].pc.Idle? ==> trace[b].consumed == |trace[b].completed|
  {
    hide Step, Inv, WellFormed, Init, NoDirty, Work;
    assert StepBy(trace[a], acts[a], trace[a + 1]);
    CallStarts(trace[a]);
    RunInv(trace, acts, a + 1);
    WorkLeft(trace[a + 1]);
    CallSteps(trace, acts, a + 1, b);
    CompletedSame(trace, acts, a + 1, b);
    if trace[b].pc.Idle? { CallReturnsAll(trace, acts, a, b); }
  }

  lemma {:induction false} CompletedSame(trace: seq<Rx>, acts: seq<Action>, a: nat, b: nat)
    requires RunBy(trace, acts) && InCall(trace, acts, a, b)
    ensures trace[b].completed == trace[a].completed
  {
    hide Inv, WellFormed, Init, NoDirty, DeviceStep;
    if a < b {
      CompletedSame(trace, acts, a, b - 1);
      assert StepBy(trace[b - 1], acts[b - 1], trace[b - 1 + 1]);
    }
  }

  // ----------------------------------------------------------- the device can go on

  /** Unless the ring is full, or the one free slot is just being handed back, the next
      frame that arrives is stored. */
  lemma DeviceStores(s: Rx, c: Completion, status: Descriptor)
    requires Inv(s) && |s.completed| < s.consumed + 16 && !s.pc.FlushDesc?
    requires c.length < 0x8000 && |c.bytes| == (if c.length <= 1600 then c.length else 1600)
    requires status.des3 < 0x8000_0000 && status.des3 % 0x8000 == c.length
    ensures WellFormed(s) && Step(s, Device(c, status)).completed == s.completed + [c]
  {
    hide Intact, Fresh, Frames, Next, Progress, Stored;
    assert ArmedOk(s, |s.completed|);
  }
}
