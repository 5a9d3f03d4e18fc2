/** The DWMAC receive ring: receive_packets() against the device, interleaved at
    the level of single memory accesses and cache line movements. */
module DwmacRx {
  import opened DmaMemory

  type Frame = seq<Byte>

  /** What the device reports for one frame: the length field, and the bytes it
      put into the buffer. */
  datatype Completion = Completion(length: nat, bytes: Frame)

  predicate Accepted(c: Completion) { 0 < c.length <= PACKET_BUF_SIZE }

  predicate WellSized(c: Completion) {
    c.length < 0x8000 && |c.bytes| == if c.length <= PACKET_BUF_SIZE then c.length else PACKET_BUF_SIZE
  }

  /** The frames the driver is to return: those of acceptable length, in order. */
  function Frames(cs: seq<Completion>): seq<Frame> {
    if cs == [] then []
    else
      var rest := Frames(cs[..|cs| - 1]);
      if Accepted(cs[|cs| - 1]) then rest + [cs[|cs| - 1].bytes] else rest
  }

  /** Where receive_packets() is. */
  datatype Pc =
    | Idle
    | Check                          // flush the descriptor line
    | Look                           // read des3
    | FlushBuf(length: nat, k: nat)  // k lines of the buffer flushed
    | Read(length: nat, got: Frame)  // bytes read so far
    | Arm(field: nat)                // fields des0.. written so far
    | FlushDesc

  /** `consumed` counts re-armed descriptors; `completed` and `received` are the
      histories of the device and of the driver. */
  datatype Rx = Rx(
    desc: Mem<Descriptor>, buf: Buffers, base: nat,
    rxIdx: nat, devIdx: nat, pc: Pc,
    completed: seq<Completion>, consumed: nat, received: seq<Frame>)

  datatype Action =
    | Receive                                       // a call of receive_packets()
    | Driver                                        // its next step
    | Device(c: Completion, status: Descriptor)     // a frame arrives
    | EvictDesc(i: nat) | FetchDesc(i: nat)
    | EvictBuf(l: nat) | FetchBuf(l: nat)

  function Armed(s: Rx, i: nat): Descriptor {
    Descriptor(s.base + PACKET_BUF_SIZE * i, 0, 0, DESC3_OWN + DESC3_IOC + DESC3_BUF1V)
  }

  function WithField(s: Rx, d: Descriptor, i: nat, field: nat): Descriptor {
    var a := Armed(s, i);
    if field == 0 then d.(des0 := a.des0)
    else if field == 1 then d.(des1 := 0)
    else if field == 2 then d.(des2 := 0)
    else d.(des3 := a.des3)
  }

  /** RAM after the device stored bytes from `offset` on. */
  function Stored(buf: Buffers, offset: nat, bytes: Frame): (after: Buffers)
    requires Shaped(buf)
    ensures Shaped(after)
  {
    Mem(seq(|buf.ram|, l requires 0 <= l < |buf.ram| =>
              seq(LINE_SIZE, o requires 0 <= o < LINE_SIZE =>
                    if offset <= LINE_SIZE * l + o < offset + |bytes| then bytes[LINE_SIZE * l + o - offset]
                    else buf.ram[l][o])),
        buf.cache)
  }

  predicate WellFormed(s: Rx) {
    && Shaped(s.buf) && |s.desc.ram| == RING_SIZE && s.rxIdx < RING_SIZE && s.devIdx < RING_SIZE
    && (s.pc.FlushBuf? ==> s.pc.length <= PACKET_BUF_SIZE)
    && (s.pc.Read? ==> |s.pc.got| <= s.pc.length <= PACKET_BUF_SIZE)
    && (s.pc.Arm? ==> s.pc.field < 4)
  }

  /** One step of receive_packets(). */
  function DriverStep(s: Rx): Rx
    requires WellFormed(s)
  {
    match s.pc
    case Idle => s
    case Check => s.(desc := s.desc.Flush(s.rxIdx), pc := Look)
    case Look =>
      var d := s.desc.View(s.rxIdx);
      var t := s.(desc := s.desc.Fetch(s.rxIdx));
      if d.Own() then t.(pc := Idle)
      else if 0 < d.Length() <= PACKET_BUF_SIZE then t.(pc := FlushBuf(d.Length(), 0))
      else t.(pc := Arm(0))
    case FlushBuf(length, k) =>
      if k * LINE_SIZE < length then
        s.(buf := s.buf.Flush(LineOf(s.rxIdx, k * LINE_SIZE)), pc := FlushBuf(length, k + 1))
      else s.(pc := Read(length, []))
    case Read(length, got) =>
      if |got| == length then s.(pc := Arm(0), received := s.received + [got])
      else
        s.(buf := s.buf.Fetch(LineOf(s.rxIdx, |got|)),
           pc := Read(length, got + [ViewAt(s.buf, s.rxIdx, |got|)]))
    case Arm(field) =>
      var t := s.(desc := s.desc.Write(s.rxIdx, WithField(s, s.desc.View(s.rxIdx), s.rxIdx, field)));
      if field < 3 then t.(pc := Arm(field + 1)) else t.(pc := FlushDesc, consumed := s.consumed + 1)
    case FlushDesc => s.(desc := s.desc.Flush(s.rxIdx), rxIdx := Next(s.rxIdx), pc := Check)
  }

  /** A frame arrives: the device stores it through its next descriptor, if RAM
      says it owns it, and hands the descriptor back with the length. */
  function DeviceStep(s: Rx, c: Completion, status: Descriptor): Rx
    requires WellFormed(s)
  {
    var d := s.desc.ram[s.devIdx];
    if d.des3 >= 0x8000_0000 && s.base <= d.des0 && WellSized(c)
       && status.des3 < 0x8000_0000 && status.des3 % 0x8000 == c.length then
      s.(desc := Mem(s.desc.ram[s.devIdx := status], s.desc.cache), devIdx := Next(s.devIdx),
         buf := Stored(s.buf, d.des0 - s.base, c.bytes), completed := s.completed + [c])
    else s
  }

  function Step(s: Rx, a: Action): Rx
    requires WellFormed(s)
  {
    match a
    case Receive => if s.pc.Idle? then s.(pc := Check) else s
    case Driver => DriverStep(s)
    case Device(c, status) => DeviceStep(s, c, status)
    case EvictDesc(i) => s.(desc := s.desc.Flush(i))
    case FetchDesc(i) => s.(desc := s.desc.Fetch(i))
    case EvictBuf(l) => s.(buf := s.buf.Flush(l))
    case FetchBuf(l) => s.(buf := s.buf.Fetch(l))
  }

  // -------------------------------------------------------------- invariant

  /** The frame is in RAM as the device wrote it. */
  ghost predicate Intact(buf: Buffers, i: nat, bytes: Frame)
    requires Shaped(buf) && i < RING_SIZE && |bytes| <= PACKET_BUF_SIZE
  {
    forall b | 0 <= b < |bytes| :: RamAt(buf, i, b) == bytes[b]
  }

  /** The CPU sees in the first n bytes of the slot what is in RAM. */
  ghost predicate Fresh(buf: Buffers, i: nat, n: nat)
    requires Shaped(buf) && i < RING_SIZE && n <= PACKET_BUF_SIZE
  {
    forall b | 0 <= b < n :: ViewAt(buf, i, b) == RamAt(buf, i, b)
  }

  /** No buffer line is dirty: the driver only reads these buffers. */
  ghost predicate NoDirty(buf: Buffers) { forall l | l in buf.cache :: !buf.cache[l].dirty }

  /** Completion j waits for the driver: its descriptor and its frame are in RAM.
      The driver may be overwriting the descriptor of the first one. */
  ghost predicate WaitingOk(s: Rx, j: nat)
    requires WellFormed(s) && j < |s.completed|
  {
    && WellSized(s.completed[j]) && Intact(s.buf, Slot(j), s.completed[j].bytes)
    && !s.desc.ram[Slot(j)].Own()
    && (!(s.pc.Arm? && j == s.consumed) ==> s.desc.ram[Slot(j)].Length() == s.completed[j].length)
  }

  /** Slot of arrival j is armed in RAM, unless the driver is about to flush it. */
  ghost predicate ArmedOk(s: Rx, j: nat)
    requires WellFormed(s)
  {
    var i := Slot(j);
    || (s.desc.ram[i] == Armed(s, i) && !s.desc.Dirty(i))
    || (s.pc.FlushDesc? && i == s.rxIdx && j == s.consumed + RING_SIZE - 1 && !s.desc.ram[i].Own()
        && s.desc.Dirty(i) && s.desc.cache[i].content == Armed(s, i))
  }

  /** Descriptors that RAM shows as owned by the device are never dirty, and a
      clean cached copy without OWN is up to date. */
  ghost predicate LineOk(s: Rx, i: nat)
    requires WellFormed(s) && i < RING_SIZE
  {
    && (s.desc.Dirty(i) ==> i == s.rxIdx && (s.pc.Arm? || s.pc.FlushDesc?) && !s.desc.ram[i].Own())
    && (i in s.desc.cache && !s.desc.cache[i].dirty && !s.desc.cache[i].content.Own() ==>
         s.desc.cache[i].content == s.desc.ram[i])
  }

  predicate Fields(s: Rx, d: Descriptor, field: nat) {
    var a := Armed(s, s.rxIdx);
    && !d.Own() && (field > 0 ==> d.des0 == a.des0) && (field > 1 ==> d.des1 == 0) && (field > 2 ==> d.des2 == 0)
  }

  /** The descriptor being handled, wherever its newest contents are. */
  ghost predicate Claimed(s: Rx, field: nat)
    requires WellFormed(s)
  {
    && Fields(s, s.desc.View(s.rxIdx), field)
    && (!s.desc.Dirty(s.rxIdx) ==> Fields(s, s.desc.ram[s.rxIdx], field))
  }

  /** How many bytes of the frame the first `k` lines hold. */
  function FlushedSize(length: nat, k: nat): nat { if k * LINE_SIZE <= length then k * LINE_SIZE else length }

  predicate Handling(s: Rx) { s.pc.FlushBuf? || s.pc.Read? || s.pc.Arm? }

  /** How far the driver has come with the completion it is handling. */
  ghost predicate Progress(s: Rx)
    requires WellFormed(s)
  {
    && (Handling(s) ==> s.consumed < |s.completed|)
    && (s.pc.FlushBuf? || s.pc.Read? ==>
         s.pc.length == s.completed[s.consumed].length && Accepted(s.completed[s.consumed]))
    && (s.pc.FlushBuf? ==> Fresh(s.buf, s.rxIdx, FlushedSize(s.pc.length, s.pc.k)))
    && (s.pc.Read? ==> Fresh(s.buf, s.rxIdx, s.pc.length) && s.pc.got <= s.completed[s.consumed].bytes)
    && (Handling(s) ==> Claimed(s, if s.pc.Arm? then s.pc.field else 0))
    && (s.pc.FlushDesc? && s.desc.Dirty(s.rxIdx) ==> |s.completed| < s.consumed + RING_SIZE)
  }

  ghost predicate Indices(s: Rx) {
    && s.consumed <= |s.completed| <= s.consumed + RING_SIZE && (s.pc.Arm? ==> s.consumed < |s.completed|)
    && s.devIdx == Slot(|s.completed|)
    && (if s.pc.FlushDesc? then s.consumed > 0 && s.rxIdx == Slot(s.consumed - 1) else s.rxIdx == Slot(s.consumed))
    && s.received == Frames(s.completed[..if s.pc.Arm? then s.consumed + 1 else s.consumed])
  }

  ghost predicate Inv(s: Rx) {
    && WellFormed(s) && Indices(s) && Progress(s) && NoDirty(s.buf)
    && (forall j | s.consumed <= j < |s.completed| :: WaitingOk(s, j))
    && (forall j | |s.completed| <= j < s.consumed + RING_SIZE :: ArmedOk(s, j))
    && (forall i | 0 <= i < RING_SIZE :: LineOk(s, i))
  }

  // ------------------------------------------------------------- each action

  lemma EvictDescKeeps(s: Rx, i: nat)
    requires Inv(s)
    ensures Inv(s.(desc := s.desc.Flush(i)))
  {
    hide Intact, Fresh, NoDirty, Slot, Next, Frames;
    var t := s.(desc := s.desc.Flush(i));
    assert LineOk(s, s.rxIdx);
    forall j | t.consumed <= j < |t.completed| ensures WaitingOk(t, j) {
      assert WaitingOk(s, j);
      if s.desc.Dirty(i) && i == Slot(j) { EvictWaiting(s, i, j); }
    }
    forall j | |t.completed| <= j < t.consumed + RING_SIZE ensures ArmedOk(t, j) { assert ArmedOk(s, j); }
    forall k | 0 <= k < RING_SIZE ensures LineOk(t, k) { assert LineOk(s, k); }
  }

  /** A dirty descriptor that is waiting is the one being re-armed, without OWN yet. */
  lemma EvictWaiting(s: Rx, i: nat, j: nat)
    requires Inv(s) && s.desc.Dirty(i) && s.consumed <= j < |s.completed| && Slot(j) == i && i < RING_SIZE
    ensures s.pc.Arm? && j == s.consumed && !s.desc.cache[i].content.Own()
  {
    hide Intact, Fresh, NoDirty, Slot, Next, Frames, WaitingOk;
    assert LineOk(s, i);
    if s.pc.FlushDesc? {
      SlotWraps(s.consumed - 1);
      SlotsDiffer(j, s.consumed - 1 + RING_SIZE);
    } else if j > s.consumed {
      SlotsDiffer(s.consumed, j);
    }
  }

  lemma FetchDescKeeps(s: Rx, i: nat)
    requires Inv(s)
    ensures Inv(s.(desc := s.desc.Fetch(i)))
  {
    hide Intact, Fresh, NoDirty, Slot, Next, Frames;
    var t := s.(desc := s.desc.Fetch(i));
    forall j | t.consumed <= j < |t.completed| ensures WaitingOk(t, j) { assert WaitingOk(s, j); }
    forall j | |t.completed| <= j < t.consumed + RING_SIZE ensures ArmedOk(t, j) { assert ArmedOk(s, j); }
    forall k | 0 <= k < RING_SIZE ensures LineOk(t, k) { assert LineOk(s, k); }
  }

  /** Without dirty lines, moving a line changes neither RAM nor a fresh view. */
  lemma MoveBuf(buf: Buffers, after: Buffers, l: nat, i: nat, bytes: Frame, n: nat)
    requires Shaped(buf) && NoDirty(buf) && i < RING_SIZE && |bytes| <= PACKET_BUF_SIZE && n <= PACKET_BUF_SIZE
    requires after == buf.Flush(l) || after == buf.Fetch(l)
    ensures Shaped(after) && NoDirty(after) && after.ram == buf.ram
    ensures Intact(buf, i, bytes) ==> Intact(after, i, bytes)
    ensures Fresh(buf, i, n) ==> Fresh(after, i, n)
  {
    if Fresh(buf, i, n) {
      forall b | 0 <= b < n ensures ViewAt(after, i, b) == RamAt(after, i, b) {
        assert ViewAt(buf, i, b) == RamAt(buf, i, b);
      }
    }
  }

  lemma MoveBufKeeps(s: Rx, after: Buffers, l: nat)
    requires Inv(s) && (after == s.buf.Flush(l) || after == s.buf.Fetch(l))
    ensures Inv(s.(buf := after))
  {
    hide Intact, Fresh, NoDirty, Slot, Next, Frames;
    var t := s.(buf := after);
    MoveBuf(s.buf, after, l, 0, [], 0);
    forall j | t.consumed <= j < |t.completed| ensures WaitingOk(t, j) {
      assert WaitingOk(s, j);
      MoveBuf(s.buf, after, l, Slot(j), s.completed[j].bytes, 0);
    }
    forall j | |t.completed| <= j < t.consumed + RING_SIZE ensures ArmedOk(t, j) { assert ArmedOk(s, j); }
    forall k | 0 <= k < RING_SIZE ensures LineOk(t, k) { assert LineOk(s, k); }
    if s.pc.FlushBuf? {
      MoveBuf(s.buf, after, l, s.rxIdx, [], FlushedSize(s.pc.length, s.pc.k));
    }
    if s.pc.Read? { MoveBuf(s.buf, after, l, s.rxIdx, [], s.pc.length); }
  }

  /** Storing into one slot leaves the others alone. */
  lemma StoreElsewhere(buf: Buffers, i: nat, bytes: Frame, j: nat, other: Frame, n: nat)
    requires Shaped(buf) && NoDirty(buf) && i < RING_SIZE && j < RING_SIZE && i != j
    requires |bytes| <= PACKET_BUF_SIZE && |other| <= PACKET_BUF_SIZE && n <= PACKET_BUF_SIZE
    ensures var after := Stored(buf, PACKET_BUF_SIZE * i, bytes);
            && NoDirty(after) && (Intact(buf, j, other) ==> Intact(after, j, other))
                 && (Fresh(buf, j, n) ==> Fresh(after, j, n))
  {
    var after := Stored(buf, PACKET_BUF_SIZE * i, bytes);
    forall b | 0 <= b < PACKET_BUF_SIZE ensures RamAt(after, j, b) == RamAt(buf, j, b) {}
    if Fresh(buf, j, n) {
      forall b | 0 <= b < n ensures ViewAt(after, j, b) == RamAt(after, j, b) {
        assert ViewAt(buf, j, b) == RamAt(buf, j, b);
      }
    }
  }

  lemma StoreIntact(buf: Buffers, i: nat, bytes: Frame)
    requires Shaped(buf) && i < RING_SIZE && |bytes| <= PACKET_BUF_SIZE
    ensures Intact(Stored(buf, PACKET_BUF_SIZE * i, bytes), i, bytes)
  {
    var after := Stored(buf, PACKET_BUF_SIZE * i, bytes);
    forall b | 0 <= b < |bytes| ensures RamAt(after, i, b) == bytes[b] {}
  }

  ghost predicate DeviceTook(s: Rx, t: Rx, c: Completion, status: Descriptor) {
    && WellFormed(s) && WellSized(c) && !status.Own() && status.Length() == c.length
    && |s.completed| < s.consumed + RING_SIZE && !s.desc.Dirty(s.devIdx) && s.desc.ram[s.devIdx].Own()
    && t == s.(desc := Mem(s.desc.ram[s.devIdx := status], s.desc.cache), devIdx := Next(s.devIdx),
               buf := Stored(s.buf, PACKET_BUF_SIZE * s.devIdx, c.bytes), completed := s.completed + [c])
  }

  /** What RAM shows as owned is armed: right address, not dirty. */
  lemma OwnedIsArmed(s: Rx, i: nat) returns (j: nat)
    requires Inv(s) && i < RING_SIZE && s.desc.ram[i].Own()
    ensures |s.completed| <= j < s.consumed + RING_SIZE && Slot(j) == i
    ensures s.desc.ram[i] == Armed(s, i) && !s.desc.Dirty(i)
  {
    hide Progress, LineOk, Indices, Next;
    j := SlotInRange(i, s.consumed);
    assert j < |s.completed| ==> WaitingOk(s, j);
    assert ArmedOk(s, j);
  }

  /** Every slot is used once in any sixteen consecutive frames. */
  lemma SlotInRange(i: nat, from: nat) returns (j: nat)
    requires i < RING_SIZE
    ensures from <= j < from + RING_SIZE && Slot(j) == i
  {
    j := from + (i + RING_SIZE - from % RING_SIZE) % RING_SIZE;
  }

  lemma DeviceEffect(s: Rx, c: Completion, status: Descriptor)
    requires Inv(s)
    ensures DeviceStep(s, c, status) == s || DeviceTook(s, DeviceStep(s, c, status), c, status)
  {
    hide WaitingOk, ArmedOk, LineOk, Progress, NoDirty, Stored, Slot, Next, Frames;
    if s.desc.ram[s.devIdx].Own() {
      var j := OwnedIsArmed(s, s.devIdx);
    }
  }

  lemma DeviceKeepsProgress(s: Rx, t: Rx, c: Completion, status: Descriptor)
    requires Inv(s) && DeviceTook(s, t, c, status)
    ensures Progress(t)
  {
    hide Intact, Fresh, NoDirty, WaitingOk, ArmedOk, LineOk, Slot, Next, Frames, Stored;
    if Handling(s) {
      SlotsDiffer(s.consumed, |s.completed|);
      assert s.rxIdx != s.devIdx;
      if s.pc.FlushBuf? {
        StoreElsewhere(s.buf, s.devIdx, c.bytes, s.rxIdx, [], FlushedSize(s.pc.length, s.pc.k));
      }
      if s.pc.Read? { StoreElsewhere(s.buf, s.devIdx, c.bytes, s.rxIdx, [], s.pc.length); }
    }
    if s.pc.FlushDesc? && s.desc.Dirty(s.rxIdx) && |t.completed| == s.consumed + RING_SIZE {
      SlotWraps(s.consumed - 1);
    }
  }

  lemma DeviceKeepsWaiting(s: Rx, t: Rx, c: Completion, status: Descriptor, j: nat)
    requires Inv(s) && DeviceTook(s, t, c, status) && t.consumed <= j < |t.completed|
    ensures WaitingOk(t, j)
  {
    hide Intact, Fresh, NoDirty, ArmedOk, LineOk, Slot, Next, Frames, Stored, Progress;
    if j < |s.completed| {
      assert WaitingOk(s, j);
      SlotsDiffer(j, |s.completed|);
      StoreElsewhere(s.buf, s.devIdx, c.bytes, Slot(j), s.completed[j].bytes, 0);
    } else {
      StoreIntact(s.buf, s.devIdx, c.bytes);
    }
  }

  lemma DeviceKeepsLine(s: Rx, t: Rx, c: Completion, status: Descriptor, i: nat)
    requires Inv(s) && DeviceTook(s, t, c, status) && i < RING_SIZE
    ensures LineOk(t, i)
  {
    hide Intact, Fresh, NoDirty, ArmedOk, WaitingOk, Slot, Next, Frames, Stored, Progress;
    assert LineOk(s, i);
  }

  lemma DeviceKeeps(s: Rx, c: Completion, status: Descriptor)
    requires Inv(s)
    ensures Inv(DeviceStep(s, c, status))
  {
    hide WaitingOk, LineOk, Progress, Slot, Next, Frames, Stored, DeviceStep;
    var t := DeviceStep(s, c, status);
    DeviceEffect(s, c, status);
    if t != s {
      NextSlot(|s.completed|);
      assert forall n | 0 <= n <= |s.completed| :: t.completed[..n] == s.completed[..n];
      forall j | t.consumed <= j < |t.completed| ensures WaitingOk(t, j) { DeviceKeepsWaiting(s, t, c, status, j); }
      forall j | |t.completed| <= j < t.consumed + RING_SIZE ensures ArmedOk(t, j) {
        assert ArmedOk(s, j);
        SlotsDiffer(|s.completed|, j);
      }
      forall k | 0 <= k < RING_SIZE ensures LineOk(t, k) { DeviceKeepsLine(s, t, c, status, k); }
      DeviceKeepsProgress(s, t, c, status);
      assert NoDirty(t.buf) by { StoredNoDirty(s.buf, PACKET_BUF_SIZE * s.devIdx, c.bytes); }
    }
  }

  lemma StoredNoDirty(buf: Buffers, offset: nat, bytes: Frame)
    requires Shaped(buf) && NoDirty(buf)
    ensures NoDirty(Stored(buf, offset, bytes))
  {
  }

  /** While no descriptor is being written, only the driver's own progress
      depends on the program counter. */
  lemma RingFrame(s: Rx, t: Rx)
    requires Inv(s) && WellFormed(t) && !s.pc.Arm? && !s.pc.FlushDesc?
    requires t == s.(pc := t.pc, received := t.received)
    ensures forall j | t.consumed <= j < |t.completed| :: WaitingOk(t, j)
    ensures forall j | |t.completed| <= j < t.consumed + RING_SIZE :: ArmedOk(t, j)
    ensures forall k | 0 <= k < RING_SIZE :: LineOk(t, k)
  {
    hide Intact, Fresh, NoDirty, Slot, Next, Frames, Progress, Indices;
    forall j | t.consumed <= j < |t.completed| ensures WaitingOk(t, j) { assert WaitingOk(s, j); }
    forall j | |t.completed| <= j < t.consumed + RING_SIZE ensures ArmedOk(t, j) { assert ArmedOk(s, j); }
    forall k | 0 <= k < RING_SIZE ensures LineOk(t, k) { assert LineOk(s, k); }
  }

  /** Leaving or entering the loop. */
  lemma PcKeeps(s: Rx, pc: Pc)
    requires Inv(s) && !s.pc.Arm? && !s.pc.FlushDesc? && (pc.Idle? || pc.Check? || pc.Look?)
    ensures Inv(s.(pc := pc))
  {
    hide Intact, Fresh, NoDirty, Slot, Next, Frames, WaitingOk, ArmedOk, LineOk;
    RingFrame(s, s.(pc := pc));
  }

  lemma FramesSnoc(cs: seq<Completion>, n: nat)
    requires n < |cs|
    ensures Frames(cs[..n + 1]) == if Accepted(cs[n]) then Frames(cs[..n]) + [cs[n].bytes] else Frames(cs[..n])
  {
    assert cs[..n + 1][..n] == cs[..n];
  }

  /** Reading a descriptor without OWN means the next completion is there. */
  lemma LookKeeps(s: Rx, d: Descriptor, pc: Pc)
    requires Inv(s) && s.pc.Look? && d == s.desc.View(s.rxIdx) && !d.Own()
    requires pc == if 0 < d.Length() <= PACKET_BUF_SIZE then FlushBuf(d.Length(), 0) else Arm(0)
    ensures Inv(s.(pc := pc))
  {
    hide Intact, NoDirty, Slot, Next, Frames, LineOk;
    var t := s.(pc := pc);
    assert !s.desc.Dirty(s.rxIdx) && d == s.desc.ram[s.rxIdx] by { LineAt(s, s.rxIdx); }
    assert s.consumed < |s.completed| by { assert s.consumed == |s.completed| ==> ArmedOk(s, s.consumed); }
    assert WaitingOk(s, s.consumed);
    FramesSnoc(s.completed, s.consumed);
    RingFrame(s, t);
  }

  lemma LineAt(s: Rx, i: nat)
    requires Inv(s) && i < RING_SIZE && !s.pc.Arm? && !s.pc.FlushDesc?
    ensures !s.desc.Dirty(i) && (!s.desc.View(i).Own() ==> s.desc.View(i) == s.desc.ram[i])
  {
    hide Intact, Fresh, NoDirty, Slot, Next, Frames, WaitingOk, ArmedOk;
    assert LineOk(s, i);
  }

  lemma FlushedFresh(buf: Buffers, i: nat, k: nat, length: nat)
    requires Shaped(buf) && NoDirty(buf) && i < RING_SIZE && k * LINE_SIZE < length <= PACKET_BUF_SIZE
    requires Fresh(buf, i, k * LINE_SIZE)
    ensures var after := buf.Flush(LineOf(i, k * LINE_SIZE));
            Shaped(after) && Fresh(after, i, if (k + 1) * LINE_SIZE <= length then (k + 1) * LINE_SIZE else length)
  {
    var l := LineOf(i, k * LINE_SIZE);
    var after := buf.Flush(l);
    MoveBuf(buf, after, l, i, [], k * LINE_SIZE);
    var n := if (k + 1) * LINE_SIZE <= length then (k + 1) * LINE_SIZE else length;
    forall b | 0 <= b < n ensures ViewAt(after, i, b) == RamAt(after, i, b) {
      if b >= k * LINE_SIZE { SameLine(i, k, b); }
    }
  }

  lemma SameLine(i: nat, k: nat, b: nat)
    requires i < RING_SIZE && k * LINE_SIZE <= b < (k + 1) * LINE_SIZE && b < PACKET_BUF_SIZE
    ensures LineOf(i, b) == LineOf(i, k * LINE_SIZE)
  {
    SlotsApart(i, b, i, b);
    SlotsApart(i, k * LINE_SIZE, i, b);
  }

  lemma FlushBufKeeps(s: Rx)
    requires Inv(s) && s.pc.FlushBuf?
    ensures Inv(DriverStep(s))
  {
    hide Intact, Fresh, NoDirty, Slot, Next, Frames, LineOk, WaitingOk, ArmedOk;
    var t := DriverStep(s);
    if s.pc.k * LINE_SIZE < s.pc.length {
      var l := LineOf(s.rxIdx, s.pc.k * LINE_SIZE);
      MoveBufKeeps(s, s.buf.Flush(l), l);
      FlushedFresh(s.buf, s.rxIdx, s.pc.k, s.pc.length);
      RingFrame(s.(buf := t.buf), t);
    } else {
      RingFrame(s, t);
    }
  }

  lemma ReadKeeps(s: Rx)
    requires Inv(s) && s.pc.Read?
    ensures Inv(DriverStep(s))
  {
    hide Intact, Fresh, NoDirty, Slot, Next, Frames, LineOk, ArmedOk;
    var t := DriverStep(s);
    assert WaitingOk(s, s.consumed);
    if |s.pc.got| == s.pc.length {
      FramesSnoc(s.completed, s.consumed);
      assert s.pc.got == s.completed[s.consumed].bytes;
      ReadDone(s, t);
    } else {
      var l := LineOf(s.rxIdx, |s.pc.got|);
      ReadByte(s.buf, s.rxIdx, s.completed[s.consumed].bytes, |s.pc.got|);
      MoveBufKeeps(s, s.buf.Fetch(l), l);
      RingFrame(s.(buf := t.buf), t);
    }
  }

  lemma ReadByte(buf: Buffers, i: nat, bytes: Frame, n: nat)
    requires Shaped(buf) && i < RING_SIZE && n < |bytes| <= PACKET_BUF_SIZE && Intact(buf, i, bytes)
             && Fresh(buf, i, |bytes|)
    ensures ViewAt(buf, i, n) == bytes[n]
  {
  }

  lemma ReadDone(s: Rx, t: Rx)
    requires Inv(s) && s.pc.Read? && t == s.(pc := Arm(0), received := t.received) && s.consumed < |s.completed|
    requires t.received == Frames(s.completed[..s.consumed + 1])
    ensures Inv(t)
  {
    hide Intact, Fresh, NoDirty, Slot, Next, Frames, ArmedOk, WaitingOk, LineOk;
    RingFrame(s, t);
  }

  lemma ArmKeepsWaiting(s: Rx, t: Rx, j: nat)
    requires Inv(s) && s.pc.Arm? && t == DriverStep(s) && t.consumed <= j < |t.completed|
    ensures WaitingOk(t, j)
  {
    hide Intact, Fresh, NoDirty, Slot, Next, Frames, ArmedOk, LineOk;
    assert WaitingOk(s, j);
    if j > s.consumed { SlotsDiffer(s.consumed, j); }
  }

  lemma ArmKeepsArmed(s: Rx, t: Rx, j: nat)
    requires Inv(s) && s.pc.Arm? && t == DriverStep(s) && |t.completed| <= j < t.consumed + RING_SIZE
    ensures ArmedOk(t, j)
  {
    hide Intact, Fresh, NoDirty, Slot, Next, Frames, LineOk;
    assert WaitingOk(s, s.consumed);
    if j < s.consumed + RING_SIZE {
      assert ArmedOk(s, j);
      SlotsDiffer(s.consumed, j);
    } else {
      SlotWraps(s.consumed);
    }
  }

  lemma ArmKeeps(s: Rx)
    requires Inv(s) && s.pc.Arm?
    ensures Inv(DriverStep(s))
  {
    hide Intact, Fresh, NoDirty, Slot, Next, Frames, ArmedOk, WaitingOk;
    var t := DriverStep(s);
    forall j | t.consumed <= j < |t.completed| ensures WaitingOk(t, j) { ArmKeepsWaiting(s, t, j); }
    forall j | |t.completed| <= j < t.consumed + RING_SIZE ensures ArmedOk(t, j) { ArmKeepsArmed(s, t, j); }
    assert !s.desc.ram[s.rxIdx].Own() by { WaitingNotOwned(s, s.consumed); }
    forall k | 0 <= k < RING_SIZE ensures LineOk(t, k) { assert LineOk(s, k); }
  }

  lemma WaitingNotOwned(s: Rx, j: nat)
    requires Inv(s) && s.consumed <= j < |s.completed|
    ensures !s.desc.ram[Slot(j)].Own()
  {
    hide Slot;
    assert WaitingOk(s, j);
  }

  lemma FinishSlot(m: Rx, t: Rx)
    requires Inv(m) && m.pc.FlushDesc? && !m.desc.Dirty(m.rxIdx) && t == m.(rxIdx := Next(m.rxIdx), pc := Check)
    ensures Inv(t)
  {
    hide Intact, Fresh, NoDirty, Slot, Next, Frames;
    NextSlot(m.consumed - 1);
    forall j | t.consumed <= j < |t.completed| ensures WaitingOk(t, j) { assert WaitingOk(m, j); }
    forall j | |t.completed| <= j < t.consumed + RING_SIZE ensures ArmedOk(t, j) { assert ArmedOk(m, j); }
    forall k | 0 <= k < RING_SIZE ensures LineOk(t, k) { assert LineOk(m, k); }
  }

  lemma DriverKeeps(s: Rx)
    requires Inv(s)
    ensures Inv(DriverStep(s))
  {
    hide Slot, Next, Frames, NoDirty, WaitingOk, ArmedOk, LineOk, Indices, Progress;
    match s.pc
    case Idle =>
    case Check => EvictDescKeeps(s, s.rxIdx); PcKeeps(s.(desc := s.desc.Flush(s.rxIdx)), Look);
    case Look =>
      FetchDescKeeps(s, s.rxIdx);
      var m := s.(desc := s.desc.Fetch(s.rxIdx));
      if s.desc.View(s.rxIdx).Own() { PcKeeps(m, Idle); } else { LookKeeps(m, s.desc.View(s.rxIdx), DriverStep(s).pc); }
    case FlushBuf(_, _) => FlushBufKeeps(s);
    case Read(_, _) => ReadKeeps(s);
    case Arm(_) => ArmKeeps(s);
    case FlushDesc => EvictDescKeeps(s, s.rxIdx); FinishSlot(s.(desc := s.desc.Flush(s.rxIdx)), DriverStep(s));
  }

  lemma StepKeeps(s: Rx, a: Action)
    requires Inv(s)
    ensures WellFormed(s) && Inv(Step(s, a))
  {
    hide DriverStep, DeviceStep, Slot, Next, Frames, NoDirty, WaitingOk, ArmedOk, LineOk, Indices, Progress;
    match a
    case Receive => if s.pc.Idle? { PcKeeps(s, Check); }
    case Driver => DriverKeeps(s);
    case Device(c, status) => DeviceKeeps(s, c, status);
    case EvictDesc(i) => EvictDescKeeps(s, i);
    case FetchDesc(i) => FetchDescKeeps(s, i);
    case EvictBuf(l) => MoveBufKeeps(s, s.buf.Flush(l), l);
    case FetchBuf(l) => MoveBufKeeps(s, s.buf.Fetch(l), l);
  }

  // ------------------------------------------------------------------- runs

  /** After setup_descriptor_rings(): descriptors armed in RAM and not cached.
      Nothing is said about the buffers, which setup does not flush. */
  ghost predicate Init(s: Rx) {
    && Shaped(s.buf)
    && |s.desc.ram| == RING_SIZE && s.desc.Clean() && (forall i | 0 <= i < RING_SIZE :: s.desc.ram[i] == Armed(s, i))
    && s.rxIdx == 0 && s.devIdx == 0 && s.pc == Idle && s.completed == [] && s.consumed == 0 && s.received == []
  }

  ghost predicate CanStep(a: Rx, b: Rx) { WellFormed(a) && exists act :: b == Step(a, act) }

  ghost predicate IsRun(trace: seq<Rx>) {
    |trace| > 0 && Init(trace[0]) && forall n | 0 <= n < |trace| - 1 :: CanStep(trace[n], trace[n + 1])
  }

  lemma {:induction false} RunKeeps(trace: seq<Rx>, n: nat)
    requires IsRun(trace) && NoDirty(trace[0].buf) && n < |trace|
    ensures Inv(trace[n])
  {
    hide Step;
    if n == 0 {
      forall j | 0 <= j < RING_SIZE ensures ArmedOk(trace[0], j) {}
      forall i | 0 <= i < RING_SIZE ensures LineOk(trace[0], i) {}
    } else {
      RunKeeps(trace, n - 1);
      assert CanStep(trace[n - 1], trace[n - 1 + 1]);
      var act :| trace[n] == Step(trace[n - 1], act);
      StepKeeps(trace[n - 1], act);
    }
  }

  /** The driver has returned exactly the device's frames of acceptable length, up to
      the descriptor it is at. */
  ghost predicate Returned(s: Rx) {
    && s.consumed <= |s.completed| && (s.pc.Arm? ==> s.consumed < |s.completed|)
    && s.received == Frames(s.completed[..if s.pc.Arm? then s.consumed + 1 else s.consumed])
  }

  /** The slot is armed in the cache, and not yet in RAM. */
  predicate HandingBack(s: Rx, i: nat) { s.pc.FlushDesc? && i == s.rxIdx && s.desc.Dirty(i) }

  /** Over every interleaving that starts without dirty buffer lines: the driver
      returns exactly the device's frames of acceptable length, in order, without
      loss or duplicate; the CPU-owned slots form one cyclic segment from rx_idx,
      but for the slot that is being handed back, which counts as soon as its line
      has been written back; and a descriptor that RAM shows as owned by the device
      is never dirty, and points to the buffer of its slot. */
  lemma ReceivesInOrder(trace: seq<Rx>, n: nat)
    requires IsRun(trace) && NoDirty(trace[0].buf) && n < |trace|
    ensures var s := trace[n];
            && WellFormed(s) && Returned(s)
            && (if s.pc.FlushDesc? then s.consumed > 0 && s.rxIdx == Slot(s.consumed - 1)
                else s.rxIdx == Slot(s.consumed))
            && (forall j | s.consumed <= j < s.consumed + RING_SIZE && !HandingBack(s, Slot(j)) ::
                  !s.desc.ram[Slot(j)].Own() <==> j < |s.completed|)
            && |s.desc.ram| == 16 && |s.completed| <= s.consumed + 16
            && (forall i | 0 <= i < 16 && s.desc.ram[i].des3 >= 0x8000_0000 ::
                  !s.desc.Dirty(i) && s.desc.ram[i] == Descriptor(s.base + 1600 * i, 0, 0, 0xC100_0000))
  {
    hide Step, Slot, Next, Frames, Intact, Fresh;
    var s := trace[n];
    RunKeeps(trace, n);
    forall i | 0 <= i < 16 && s.desc.ram[i].des3 >= 0x8000_0000
      ensures !s.desc.Dirty(i) && s.desc.ram[i] == Descriptor(s.base + 1600 * i, 0, 0, 0xC100_0000)
    {
      var j := OwnedIsArmed(s, i);
    }
    forall j | s.consumed <= j < s.consumed + RING_SIZE && !HandingBack(s, Slot(j))
      ensures !s.desc.ram[Slot(j)].Own() <==> j < |s.completed|
    {
      if j < |s.completed| { assert WaitingOk(s, j); } else { assert ArmedOk(s, j); }
    }
  }
}
