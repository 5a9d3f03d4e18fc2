/** What one call of send_packet() does about a free slot and a full ring, and that the
    device gets on with what it has been given. */
module DwmacTxCall {
  import opened DmaMemory
  import opened DwmacTx

  lemma RunInv(trace: seq<Tx>, acts: seq<Action>, n: nat)
    requires RunBy(trace, acts) && n <= |acts|
    ensures Inv(trace[n])
  {
    hide Step, Inv;
    RunByIsRun(trace, acts);
    RunKeeps(trace, n);
  }

  /** The steps from `a + 1` to `b` belong to the call that step `a` began. */
  ghost predicate InCall(trace: seq<Tx>, acts: seq<Action>, a: nat, b: nat) {
    && a < b <= |acts| < |trace| && acts[a].Send? && trace[a].pc.Idle?
    && forall n | a < n <= b :: !trace[n].pc.Idle?
  }

  // ------------------------------------------------------------- a free slot is used

  /** The slot is free in RAM, the first look is still to come, and it will see so. */
  ghost predicate Free(s: Tx)
    requires WellFormed(s)
  {
    && !s.pc.TimedOut?
    && (s.pc.Poll? || s.pc.Look? ==> s.pc.tries == 0 && !s.desc.ram[s.txIdx].Own())
    && (s.pc.Look? && s.txIdx in s.desc.cache ==> !s.desc.cache[s.txIdx].content.Own())
  }

  lemma FreeStays(s: Tx, a: Action)
    requires Inv(s) && Free(s) && !s.pc.Idle?
    ensures WellFormed(Step(s, a)) && Free(Step(s, a))
  {
    assert SlotOk(s, s.txIdx);
    StepKeeps(s, a);
    hide Inv, FrameInRam, Copied, Flushed, Claimed, Coherent, FrameOk, Progress, Slot, Next, FrameAt;
    InvWellFormed(Step(s, a));
  }

  lemma {:induction false} SlotStaysFree(trace: seq<Tx>, acts: seq<Action>, a: nat, b: nat)
    requires RunBy(trace, acts) && InCall(trace, acts, a, b)
    requires WellFormed(trace[a]) && !trace[a].desc.ram[trace[a].txIdx].Own()
    ensures WellFormed(trace[b]) && Free(trace[b])
  {
    hide Step, Inv, Init;
    RunInv(trace, acts, b - 1);
    assert StepBy(trace[b - 1], acts[b - 1], trace[b - 1 + 1]);
    if a == b - 1 {
      SendStarts(trace[a], acts[a].frame);
      RunInv(trace, acts, b);
      InvWellFormed(trace[b]);
    } else {
      SlotStaysFree(trace, acts, a, b - 1);
      FreeStays(trace[b - 1], acts[b - 1]);
    }
  }

  lemma SendStarts(s: Tx, frame: Frame)
    requires WellFormed(s) && s.pc.Idle?
    ensures Step(s, Send(frame)) == s.(pc := Poll(Cut(frame), 0))
  {
  }

  /** If RAM shows the next descriptor as the driver's when a call begins, no
      interleaving takes that call to the time-out, and its look leads on to the copy. */
  lemma FreeSlotUsed(trace: seq<Tx>, acts: seq<Action>, a: nat, b: nat)
    requires RunBy(trace, acts) && InCall(trace, acts, a, b)
    requires trace[a].txIdx < |trace[a].desc.ram| && trace[a].desc.ram[trace[a].txIdx].des3 < 0x8000_0000
    ensures !trace[b].pc.TimedOut?
    ensures trace[b].pc.Look? && b < |acts| && acts[b].Driver? ==> trace[b + 1].pc == Copy(trace[b].pc.data, 0)
  {
    RunInv(trace, acts, a);
    InvWellFormed(trace[a]);
    hide Inv, Init, Step;
    SlotStaysFree(trace, acts, a, b);
    if trace[b].pc.Look? && b < |acts| && acts[b].Driver? {
      assert StepBy(trace[b], acts[b], trace[b + 1]);
      LookSeesFree(trace[b]);
    }
  }

  lemma LookSeesFree(s: Tx)
    requires WellFormed(s) && Free(s) && s.pc.Look?
    ensures Step(s, Driver).pc == Copy(s.pc.data, 0)
  {
  }

  // ------------------------------------------------------ a full ring is waited for

  /** Step `n` is a look at the descriptor. */
  predicate IsLook(trace: seq<Tx>, acts: seq<Action>, n: nat) {
    n < |acts| && n < |trace| && acts[n].Driver? && trace[n].pc.Look?
  }

  ghost predicate SawOwn(s: Tx) { s.txIdx < |s.desc.ram| && s.desc.View(s.txIdx).des3 >= 0x8000_0000 }

  function Looks(trace: seq<Tx>, acts: seq<Action>, a: nat, b: nat): nat
    requires a <= b
    decreases b
  {
    if a == b then 0 else Looks(trace, acts, a, b - 1) + if IsLook(trace, acts, b - 1) then 1 else 0
  }

  /** While the call waits it counts its looks, which have all seen OWN. */
  ghost predicate Counted(trace: seq<Tx>, acts: seq<Action>, a: nat, b: nat)
    requires a < b < |trace|
  {
    var s := trace[b];
    s.pc.Poll? || s.pc.Look? || s.pc.TimedOut? ==>
      && Looks(trace, acts, a + 1, b) == (if s.pc.TimedOut? then 1_000_000 else s.pc.tries)
      && forall n | a < n < b && IsLook(trace, acts, n) :: SawOwn(trace[n])
  }

  /** How a step can lead to, or stay in, the wait. */
  lemma WaitStep(s: Tx, a: Action)
    requires WellFormed(s) && !s.pc.Idle?
    ensures var t := Step(s, a);
            && (t.pc.Poll? ==>
                  || (s.pc == t.pc && !a.Driver?)
                  || (s.pc.Look? && a.Driver? && t.pc.tries == s.pc.tries + 1 && SawOwn(s)))
            && (t.pc.Look? ==> (s.pc == t.pc && !a.Driver?) || (s.pc.Poll? && a.Driver? && t.pc.tries == s.pc.tries))
            && (t.pc.TimedOut? ==> s.pc.TimedOut? || (s.pc.Poll? && a.Driver? && s.pc.tries == 1_000_000))
  {
  }

  lemma {:induction false} LooksCounted(trace: seq<Tx>, acts: seq<Action>, a: nat, b: nat)
    requires RunBy(trace, acts) && InCall(trace, acts, a, b)
    ensures Counted(trace, acts, a, b)
  {
    hide Step, Init;
    assert StepBy(trace[b - 1], acts[b - 1], trace[b - 1 + 1]);
    if a == b - 1 {
      SendStarts(trace[a], acts[a].frame);
    } else {
      LooksCounted(trace, acts, a, b - 1);
      WaitStep(trace[b - 1], acts[b - 1]);
    }
  }

  /** A call times out only after a million looks of its own, each of which saw the
      descriptor as the device's. */
  lemma TimeoutAfterMillionLooks(trace: seq<Tx>, acts: seq<Action>, a: nat, b: nat)
    requires RunBy(trace, acts) && InCall(trace, acts, a, b) && trace[b].pc.TimedOut?
    ensures Looks(trace, acts, a + 1, b) == 1_000_000
    ensures forall n | a < n < b && IsLook(trace, acts, n) :: SawOwn(trace[n])
  {
    LooksCounted(trace, acts, a, b);
  }

  // ----------------------------------------------------------- a call comes to an end

  /** How much the driver has to do before the call ends. */
  function Work(s: Tx): int {
    match s.pc
    case Idle => 0
    case TimedOut => 0
    case Poll(_, tries) => 2_000_000 - 2 * tries + 2004
    case Look(_, tries) => 2_000_000 - 2 * tries + 2003
    case Copy(data, n) => 100 + |data| - n
    case FlushBuf(_, k) => 99 - k
    case Arm(_, field) => 10 - field
    case FlushDesc => 1
  }

  ghost predicate Bounded(s: Tx) {
    && (s.pc.Poll? ==> s.pc.tries <= 1_000_000) && (s.pc.Look? ==> s.pc.tries < 1_000_000)
    && (s.pc.FlushBuf? ==> s.pc.k <= 26)
  }

  /** Every step of the driver brings the call nearer to its end, and no other step
      moves it. */
  lemma DriverWorks(s: Tx, a: Action)
    requires WellFormed(s) && Bounded(s) && !s.pc.Idle? && !s.pc.TimedOut?
    ensures Bounded(Step(s, a)) && 0 <= Work(Step(s, a)) && 0 < Work(s) <= 2_002_004
    ensures if a.Driver? then Work(Step(s, a)) < Work(s) else Step(s, a).pc == s.pc
  {
  }

  // ------------------------------------------------- the device gets on with its work

  /** What has been handed over is there for the device: its next step transmits the
      first frame that it has not transmitted. */
  lemma DeviceTransmits(s: Tx, status: Descriptor)
    requires Inv(s) && |s.transmitted| < |s.sent| && !s.pc.FlushDesc? && status.des3 < 0x8000_0000
    ensures s.devIdx < |s.desc.ram| && s.desc.ram[s.devIdx].des3 >= 0x8000_0000
    ensures WellFormed(s) && Step(s, Device(status)).transmitted == s.sent[..|s.transmitted| + 1]
  {
    hide FrameInRam, Copied, Flushed, Claimed, Coherent, Progress, Next, Step;
    assert FrameOk(s, |s.transmitted|);
    DeviceMoves(s, status);
    StepKeeps(s, Device(status));
  }

  lemma DeviceMoves(s: Tx, status: Descriptor)
    requires WellFormed(s) && status.des3 < 0x8000_0000
    requires exists n: nat :: n <= PACKET_BUF_SIZE && s.desc.ram[s.devIdx] == Armed(s, s.devIdx, n)
    ensures |Step(s, Device(status)).transmitted| == |s.transmitted| + 1 && Step(s, Device(status)).sent == s.sent
  {
    hide FrameAt;
  }
}
