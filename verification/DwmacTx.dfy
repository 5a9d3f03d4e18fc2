/** The DWMAC transmit ring: send_packet() against the device, interleaved at the
    level of single memory accesses and cache line movements. */
module DwmacTx {
  import opened DmaMemory

  type Frame = seq<Byte>

  function Cut(data: Frame): (f: Frame)
    ensures f <= data && |f| <= 1600 && (|f| < |data| ==> |f| == 1600)
  {
    if |data| <= PACKET_BUF_SIZE then data else data[..PACKET_BUF_SIZE]
  }

  const MAX_POLLS: nat := 1_000_000

  /** Where send_packet() is; `data` is the frame already cut to the buffer size. */
  datatype Pc =
    | Idle
    | Poll(data: Frame, tries: nat)     // flush the descriptor line
    | Look(data: Frame, tries: nat)     // read des3
    | Copy(data: Frame, n: nat)         // n bytes copied to the buffer
    | FlushBuf(data: Frame, k: nat)     // k lines of the buffer flushed
    | Arm(data: Frame, field: nat)      // fields des0.. written so far
    | FlushDesc
    | TimedOut

  /** `sent` and `transmitted` are histories: frames handed over by the driver,
      and frames the device has put on the wire. */
  datatype Tx = Tx(
    desc: Mem<Descriptor>, buf: Buffers, base: nat,
    txIdx: nat, devIdx: nat, pc: Pc,
    sent: seq<Frame>, transmitted: seq<Frame>)

  datatype Action =
    | Send(frame: Frame)                // a call of send_packet()
    | Driver                            // its next step
    | Device(status: Descriptor)        // the device handles its next descriptor
    | EvictDesc(i: nat) | FetchDesc(i: nat)
    | EvictBuf(l: nat) | FetchBuf(l: nat)

  function BufAddr(s: Tx, i: nat): nat { s.base + PACKET_BUF_SIZE * i }

  /** The frame that a descriptor describes, read from RAM. */
  function FrameAt(buf: Buffers, offset: nat, length: nat): Frame
    requires Shaped(buf) && offset + length <= RING_SIZE * PACKET_BUF_SIZE
  {
    seq(length, b requires 0 <= b < length => RamByte(buf, offset + b))
  }

  function Armed(s: Tx, i: nat, length: nat): Descriptor {
    Descriptor(BufAddr(s, i), 0, length, DESC3_OWN + DESC3_FD + DESC3_LD + length)
  }

  /** Descriptor contents while its fields are being written in program order. */
  function WithField(s: Tx, d: Descriptor, i: nat, length: nat, field: nat): Descriptor {
    if field == 0 then d.(des0 := BufAddr(s, i))
    else if field == 1 then d.(des1 := 0)
    else if field == 2 then d.(des2 := length)
    else d.(des3 := DESC3_OWN + DESC3_FD + DESC3_LD + length)
  }

  predicate WellFormed(s: Tx) {
    && Shaped(s.buf) && |s.desc.ram| == RING_SIZE && s.txIdx < RING_SIZE && s.devIdx < RING_SIZE
    && (s.pc.Copy? || s.pc.FlushBuf? || s.pc.Arm? || s.pc.Poll? || s.pc.Look? ==> |s.pc.data| <= PACKET_BUF_SIZE)
    && (s.pc.Copy? ==> s.pc.n <= |s.pc.data|)
    && (s.pc.Arm? ==> s.pc.field < 4)
  }

  /** One step of send_packet(). */
  function DriverStep(s: Tx): Tx
    requires WellFormed(s)
  {
    match s.pc
    case Idle => s
    case TimedOut => s
    case Poll(data, tries) =>
      if tries == MAX_POLLS then s.(pc := TimedOut)
      else s.(desc := s.desc.Flush(s.txIdx), pc := Look(data, tries))
    case Look(data, tries) =>
      if s.desc.View(s.txIdx).Own() then s.(desc := s.desc.Fetch(s.txIdx), pc := Poll(data, tries + 1))
      else s.(desc := s.desc.Fetch(s.txIdx), pc := Copy(data, 0))
    case Copy(data, n) =>
      if n == |data| then s.(pc := FlushBuf(data, 0))
      else  // through the cache
        s.(buf := WithByte(s.buf, s.txIdx, n, data[n]), pc := Copy(data, n + 1))
    case FlushBuf(data, k) =>
      if k * LINE_SIZE < |data| then
        s.(buf := s.buf.Flush(LineOf(s.txIdx, k * LINE_SIZE)), pc := FlushBuf(data, k + 1))
      else s.(pc := Arm(data, 0))
    case Arm(data, field) =>
      var d := WithField(s, s.desc.View(s.txIdx), s.txIdx, |data|, field);
      var t := s.(desc := s.desc.Write(s.txIdx, d));
      if field < 3 then t.(pc := Arm(data, field + 1))
      else t.(pc := FlushDesc, sent := s.sent + [data])
    case FlushDesc => s.(desc := s.desc.Flush(s.txIdx), txIdx := Next(s.txIdx), pc := Idle)
  }

  /** The device takes its next descriptor if RAM says it owns it, reads the frame
      from RAM and writes the descriptor back without OWN. */
  function DeviceStep(s: Tx, status: Descriptor): Tx
    requires WellFormed(s)
  {
    var d := s.desc.ram[s.devIdx];
    if d.des3 >= 0x8000_0000 && s.base <= d.des0 && d.des0 - s.base + d.des2 <= RING_SIZE * PACKET_BUF_SIZE
       && status.des3 < 0x8000_0000 then
      s.(desc := Mem(s.desc.ram[s.devIdx := status], s.desc.cache), devIdx := Next(s.devIdx),
         transmitted := s.transmitted + [FrameAt(s.buf, d.des0 - s.base, d.des2)])
    else s
  }

  function Step(s: Tx, a: Action): Tx
    requires WellFormed(s)
  {
    match a
    case Send(frame) => if s.pc.Idle? then s.(pc := Poll(Cut(frame), 0)) else s
    case Driver => DriverStep(s)
    case Device(status) => DeviceStep(s, status)
    case EvictDesc(i) => s.(desc := s.desc.Flush(i))
    case FetchDesc(i) => s.(desc := s.desc.Fetch(i))
    case EvictBuf(l) => s.(buf := s.buf.Flush(l))
    case FetchBuf(l) => s.(buf := s.buf.Fetch(l))
  }

  // -------------------------------------------------------------- invariant

  /** Some frame in flight uses slot i. */
  ghost predicate Flying(s: Tx, i: nat) {
    exists j :: |s.transmitted| <= j < |s.sent| && Slot(j) == i
  }

  /** The frame is in RAM, and no dirty line can overwrite it. */
  ghost predicate FrameInRam(buf: Buffers, i: nat, data: Frame)
    requires Shaped(buf) && i < RING_SIZE && |data| <= PACKET_BUF_SIZE
  {
    forall b | 0 <= b < |data| ::
      RamByte(buf, PACKET_BUF_SIZE * i + b) == data[b] && !buf.Dirty(LineOf(i, b))
  }

  /** Frame j is in flight: completely in RAM, and its descriptor too, unless the
      driver is about to flush it. */
  ghost predicate FrameOk(s: Tx, j: nat)
    requires WellFormed(s) && j < |s.sent|
  {
    var i := Slot(j);
    && |s.sent[j]| <= PACKET_BUF_SIZE && FrameInRam(s.buf, i, s.sent[j])
    && (|| (s.desc.ram[i] == Armed(s, i, |s.sent[j]|) && !s.desc.Dirty(i))
        || (s.pc.FlushDesc? && i == s.txIdx && j == |s.sent| - 1 && !s.desc.ram[i].Own()
            && s.desc.Dirty(i) && s.desc.cache[i].content == Armed(s, i, |s.sent[j]|)))
  }

  /** A descriptor that RAM shows as owned by the device belongs to a frame in
      flight and is not dirty; a cached copy without OWN is not stale about it. */
  ghost predicate SlotOk(s: Tx, i: nat)
    requires WellFormed(s) && i < RING_SIZE
  {
    && (s.desc.Dirty(i) ==> i == s.txIdx && (s.pc.Arm? || s.pc.FlushDesc?) && !s.desc.ram[i].Own())
    && (i in s.desc.cache && !s.desc.cache[i].content.Own() ==> !s.desc.ram[i].Own())
    && (s.desc.ram[i].Own() ==> Flying(s, i))
  }

  /** Clean buffer lines agree with RAM; the device never writes these buffers. */
  ghost predicate Coherent(buf: Buffers)
    requires Shaped(buf)
  {
    forall l | l in buf.cache && !buf.cache[l].dirty :: buf.cache[l].content == buf.ram[l]
  }

  predicate Preparing(s: Tx) { s.pc.Copy? || s.pc.FlushBuf? || s.pc.Arm? }

  /** The CPU sees the first n bytes of the frame in buffer slot i. */
  ghost predicate Copied(buf: Buffers, i: nat, data: Frame, n: nat)
    requires Shaped(buf) && i < RING_SIZE && n <= |data| <= PACKET_BUF_SIZE
  {
    forall b | 0 <= b < n :: ViewByte(buf, PACKET_BUF_SIZE * i + b) == data[b]
  }

  /** Everything in the first k lines has reached RAM. */
  ghost predicate Flushed(buf: Buffers, i: nat, data: Frame, k: nat)
    requires Shaped(buf) && i < RING_SIZE && |data| <= PACKET_BUF_SIZE
  {
    forall b | 0 <= b < |data| && b / LINE_SIZE < k ::
      RamByte(buf, PACKET_BUF_SIZE * i + b) == data[b] && !buf.Dirty(LineOf(i, b))
  }

  /** The first fields of an armed descriptor are there, OWN is not. */
  predicate Fields(d: Descriptor, addr: nat, length: nat, field: nat) {
    && !d.Own() && (field > 0 ==> d.des0 == addr) && (field > 1 ==> d.des1 == 0) && (field > 2 ==> d.des2 == length)
  }

  /** The descriptor the driver is filling, wherever its newest contents are. */
  ghost predicate Claimed(s: Tx, length: nat, field: nat)
    requires WellFormed(s)
  {
    && !s.desc.ram[s.txIdx].Own()
    && Fields(s.desc.View(s.txIdx), BufAddr(s, s.txIdx), length, field)
    && (!s.desc.Dirty(s.txIdx) ==> Fields(s.desc.ram[s.txIdx], BufAddr(s, s.txIdx), length, field))
  }

  /** How far the driver has come with the frame it is preparing. */
  ghost predicate Progress(s: Tx)
    requires WellFormed(s)
  {
    && (Preparing(s) ==>
          |s.sent| < |s.transmitted| + RING_SIZE && Claimed(s, |s.pc.data|, if s.pc.Arm? then s.pc.field else 0))
    && (s.pc.Copy? ==> Copied(s.buf, s.txIdx, s.pc.data, s.pc.n))
    && (s.pc.FlushBuf? ==> Copied(s.buf, s.txIdx, s.pc.data, |s.pc.data|) && Flushed(s.buf, s.txIdx, s.pc.data, s.pc.k))
    && (s.pc.Arm? ==> FrameInRam(s.buf, s.txIdx, s.pc.data))
    && (s.pc.FlushDesc? && s.desc.Dirty(s.txIdx) ==> |s.transmitted| < |s.sent|)
  }

  ghost predicate Indices(s: Tx) {
    && |s.transmitted| <= |s.sent| <= |s.transmitted| + RING_SIZE
    && s.devIdx == Slot(|s.transmitted|)
    && (if s.pc.FlushDesc? then |s.sent| > 0 && s.txIdx == Slot(|s.sent| - 1) else s.txIdx == Slot(|s.sent|))
    && s.transmitted == s.sent[..|s.transmitted|]
  }

  ghost predicate Inv(s: Tx) {
    && WellFormed(s) && Indices(s) && Progress(s) && Coherent(s.buf)
    && (forall j | |s.transmitted| <= j < |s.sent| :: FrameOk(s, j))
    && (forall i | 0 <= i < RING_SIZE :: SlotOk(s, i))
  }

  // ------------------------------------------------------------- each action

  lemma EvictDescKeeps(s: Tx, i: nat)
    requires Inv(s)
    ensures Inv(s.(desc := s.desc.Flush(i)))
  {
    hide FrameInRam, Copied, Flushed, Slot, Next;
    var t := s.(desc := s.desc.Flush(i));
    assert WellFormed(t);
    assert Indices(t);
    assert SlotOk(s, s.txIdx);
    forall j | |t.transmitted| <= j < |t.sent| ensures FrameOk(t, j) { assert FrameOk(s, j); }
    forall k | 0 <= k < RING_SIZE ensures SlotOk(t, k) {
      assert SlotOk(s, k);
      if k == i && s.desc.Dirty(i) && s.pc.FlushDesc? && t.desc.ram[k].Own() {
        var j := |s.sent| - 1;
        assert Slot(j) == k;
      }
    }
  }

  lemma FetchDescKeeps(s: Tx, i: nat)
    requires Inv(s)
    ensures Inv(s.(desc := s.desc.Fetch(i)))
  {
    hide FrameInRam, Copied, Flushed, Slot, Next;
    var t := s.(desc := s.desc.Fetch(i));
    assert SlotOk(s, s.txIdx);
    forall j | |t.transmitted| <= j < |t.sent| ensures FrameOk(t, j) { assert FrameOk(s, j); }
    forall k | 0 <= k < RING_SIZE ensures SlotOk(t, k) { assert SlotOk(s, k) && (Flying(s, k) ==> Flying(t, k)); }
  }

  /** Moving a buffer line neither changes what the CPU sees nor what is clean in RAM. */
  lemma MoveBuf(buf: Buffers, after: Buffers, l: nat, i: nat, data: Frame, n: nat, k: nat)
    requires Shaped(buf) && Coherent(buf) && i < RING_SIZE && n <= |data| <= PACKET_BUF_SIZE
    requires after == buf.Flush(l) || after == buf.Fetch(l)
    ensures Shaped(after) && Coherent(after)
    ensures FrameInRam(buf, i, data) ==> FrameInRam(after, i, data)
    ensures Copied(buf, i, data, n) ==> Copied(after, i, data, n)
    ensures Flushed(buf, i, data, k) ==> Flushed(after, i, data, k)
  {
    forall b | 0 <= b < |data| ensures
      && ViewByte(after, PACKET_BUF_SIZE * i + b) == ViewByte(buf, PACKET_BUF_SIZE * i + b)
      && (!buf.Dirty(LineOf(i, b)) ==> !after.Dirty(LineOf(i, b)))
      && (!buf.Dirty(LineOf(i, b)) ==> RamByte(after, PACKET_BUF_SIZE * i + b) == RamByte(buf, PACKET_BUF_SIZE * i + b))
    {
    }
  }

  lemma MoveBufKeeps(s: Tx, after: Buffers, l: nat)
    requires Inv(s) && (after == s.buf.Flush(l) || after == s.buf.Fetch(l))
    ensures Inv(s.(buf := after))
  {
    hide FrameInRam, Copied, Flushed, Coherent, Claimed, Slot, Next;
    var t := s.(buf := after);
    MoveBuf(s.buf, after, l, 0, [], 0, 0);
    forall j | |t.transmitted| <= j < |t.sent| ensures FrameOk(t, j) {
      assert FrameOk(s, j);
      MoveBuf(s.buf, after, l, Slot(j), s.sent[j], 0, 0);
    }
    forall k | 0 <= k < RING_SIZE ensures SlotOk(t, k) { assert SlotOk(s, k) && (Flying(s, k) ==> Flying(t, k)); }
    if Preparing(s) {
      MoveBuf(s.buf, after, l, s.txIdx, s.pc.data, if s.pc.Copy? then s.pc.n else |s.pc.data|, if s.pc.FlushBuf?
        then s.pc.k else 0);
      assert Claimed(t, |s.pc.data|, if s.pc.Arm? then s.pc.field else 0) by { ClaimedFrame(s, t); }
    }
  }

  lemma ClaimedFrame(s: Tx, t: Tx)
    requires WellFormed(s) && WellFormed(t) && t.desc == s.desc && t.txIdx == s.txIdx && t.base == s.base
    ensures forall n: nat, f: nat :: Claimed(s, n, f) <==> Claimed(t, n, f)
  {
  }

  /** Whatever descriptor RAM shows as owned by the device is that of a frame in
      flight, with its address, its length and all its bytes in RAM. */
  lemma OwnedIsComplete(s: Tx, i: nat) returns (j: nat)
    requires Inv(s) && i < RING_SIZE && s.desc.ram[i].Own()
    ensures |s.transmitted| <= j < |s.sent| && Slot(j) == i && |s.sent[j]| <= PACKET_BUF_SIZE
    ensures s.desc.ram[i] == Armed(s, i, |s.sent[j]|) && !s.desc.Dirty(i)
    ensures FrameAt(s.buf, PACKET_BUF_SIZE * i, |s.sent[j]|) == s.sent[j]
  {
    hide Progress, Coherent, Slot, Next;
    assert SlotOk(s, i);
    j :| |s.transmitted| <= j < |s.sent| && Slot(j) == i;
    assert FrameOk(s, j);
  }

  /** While no descriptor is being written, slots and frames do not depend on
      the program counter or on the other buffers. */
  lemma RingFrame(s: Tx, t: Tx)
    requires Inv(s) && WellFormed(t) && !s.pc.Arm? && !s.pc.FlushDesc?
    requires t == s.(buf := t.buf, pc := t.pc)
    requires forall j | |s.transmitted| <= j < |s.sent| && FrameOk(s, j) :: FrameInRam(t.buf, Slot(j), s.sent[j])
    ensures forall j | |s.transmitted| <= j < |s.sent| :: FrameOk(t, j)
    ensures forall k | 0 <= k < RING_SIZE :: SlotOk(t, k)
  {
    hide FrameInRam, Progress, Coherent, Slot, Next;
    forall j | |s.transmitted| <= j < |s.sent| ensures FrameOk(t, j) { assert FrameOk(s, j); }
    forall k | 0 <= k < RING_SIZE ensures SlotOk(t, k) { assert SlotOk(s, k) && (Flying(s, k) ==> Flying(t, k)); }
  }

  /** The device has taken frame number |transmitted|. */
  ghost predicate DeviceTook(s: Tx, t: Tx, status: Descriptor) {
    && |s.transmitted| < |s.sent| && s.devIdx < |s.desc.ram| && !status.Own() && !s.desc.Dirty(s.devIdx)
    && t == s.(desc := Mem(s.desc.ram[s.devIdx := status], s.desc.cache), devIdx := Next(s.devIdx),
               transmitted := s.sent[..|s.transmitted| + 1])
  }

  lemma DeviceEffect(s: Tx, status: Descriptor)
    requires Inv(s)
    ensures DeviceStep(s, status) == s || DeviceTook(s, DeviceStep(s, status), status)
  {
    hide FrameOk, SlotOk, Progress, Coherent, FrameAt, Slot, Next;
    if s.desc.ram[s.devIdx].Own() {
      var j := OwnedIsComplete(s, s.devIdx);
      if j > |s.transmitted| { SlotsDiffer(|s.transmitted|, j); }
      assert s.sent[..j + 1] == s.sent[..j] + [s.sent[j]];
    }
  }

  lemma DeviceKeepsSlot(s: Tx, t: Tx, status: Descriptor, k: nat)
    requires Inv(s) && DeviceTook(s, t, status) && k < RING_SIZE
    ensures SlotOk(t, k)
  {
    hide FrameOk, Progress, Coherent, Slot, Next;
    assert SlotOk(s, k);
    if k != s.devIdx && t.desc.ram[k].Own() {
      var j :| |s.transmitted| <= j < |s.sent| && Slot(j) == k;
      assert j != |s.transmitted|;
    }
  }

  lemma DeviceKeepsFrame(s: Tx, t: Tx, status: Descriptor, j: nat)
    requires Inv(s) && DeviceTook(s, t, status) && |t.transmitted| <= j < |t.sent|
    ensures FrameOk(t, j)
  {
    hide FrameInRam, Progress, Coherent, SlotOk, Slot, Next;
    assert FrameOk(s, j);
    SlotsDiffer(|s.transmitted|, j);
  }

  lemma DeviceKeepsProgress(s: Tx, t: Tx, status: Descriptor)
    requires Inv(s) && DeviceTook(s, t, status)
    ensures Progress(t)
  {
    hide FrameInRam, Copied, Flushed, Coherent, SlotOk, FrameOk, Slot, Next;
    if Preparing(s) { SlotsDiffer(|s.transmitted|, |s.sent|); }
  }

  lemma DeviceKeeps(s: Tx, status: Descriptor)
    requires Inv(s)
    ensures Inv(DeviceStep(s, status))
  {
    hide Coherent, FrameOk, SlotOk, Progress, DeviceStep, Slot, Next;
    var t := DeviceStep(s, status);
    DeviceEffect(s, status);
    if t != s {
      NextSlot(|s.transmitted|);
      forall j | |t.transmitted| <= j < |t.sent| ensures FrameOk(t, j) { DeviceKeepsFrame(s, t, status, j); }
      forall k | 0 <= k < RING_SIZE ensures SlotOk(t, k) { DeviceKeepsSlot(s, t, status, k); }
      DeviceKeepsProgress(s, t, status);
    }
  }

  lemma SendKeeps(s: Tx, frame: Frame)
    requires Inv(s) && s.pc.Idle?
    ensures Inv(s.(pc := Poll(Cut(frame), 0)))
  {
    hide FrameInRam, Copied, Flushed, Coherent, Slot, Next;
    PcKeeps(s, Poll(Cut(frame), 0));
  }

  /** Outside the handling of a frame, the program counter is just that. */
  lemma PcKeeps(s: Tx, pc: Pc)
    requires Inv(s) && !s.pc.FlushDesc? && !s.pc.Arm?
    requires pc.Idle? || pc.TimedOut? || ((pc.Poll? || pc.Look?) && |pc.data| <= PACKET_BUF_SIZE)
    ensures Inv(s.(pc := pc))
  {
    hide FrameInRam, Copied, Flushed, Coherent, Slot, Next;
    var t := s.(pc := pc);
    RingFrame(s, t);
  }

  /** Reading a descriptor without OWN means the slot is free. */
  lemma LookKeeps(s: Tx, data: Frame)
    requires Inv(s) && !s.pc.FlushDesc? && !s.pc.Arm? && |data| <= PACKET_BUF_SIZE
    requires !s.desc.View(s.txIdx).Own()
    ensures Inv(s.(pc := Copy(data, 0)))
  {
    hide FrameInRam, Flushed, Coherent, Slot, Next;
    var t := s.(pc := Copy(data, 0));
    assert SlotOk(s, s.txIdx);
    assert |s.sent| > |s.transmitted| ==> FrameOk(s, |s.transmitted|);
    SlotWraps(|s.transmitted|);
    assert |s.sent| < |s.transmitted| + RING_SIZE;
    RingFrame(s, t);
  }

  function WithByte(buf: Buffers, i: nat, n: nat, byte: Byte): Buffers
    requires Shaped(buf) && i < RING_SIZE && n < PACKET_BUF_SIZE
  {
    SlotsApart(i, n, i, n);
    buf.Write(LineOf(i, n), buf.View(LineOf(i, n))[OffsetOf(i, n) := byte])
  }

  lemma CopyByte(buf: Buffers, i: nat, data: Frame, n: nat)
    requires Shaped(buf) && Coherent(buf) && i < RING_SIZE && n < |data| <= PACKET_BUF_SIZE && Copied(buf, i, data, n)
    ensures var after := WithByte(buf, i, n, data[n]); Shaped(after) && Coherent(after) && Copied(after, i, data, n + 1)
  {
    SlotsApart(i, n, i, n);
    var after := WithByte(buf, i, n, data[n]);
    forall b | 0 <= b < n + 1 ensures ViewByte(after, PACKET_BUF_SIZE * i + b) == data[b] {
      assert b < n ==> ViewByte(buf, PACKET_BUF_SIZE * i + b) == data[b];
    }
  }

  lemma CopyElsewhere(buf: Buffers, i: nat, n: nat, byte: Byte, j: nat, f: Frame)
    requires Shaped(buf) && i < RING_SIZE && n < PACKET_BUF_SIZE && j < RING_SIZE && j != i
    requires |f| <= PACKET_BUF_SIZE && FrameInRam(buf, j, f) && Shaped(WithByte(buf, i, n, byte))
    ensures FrameInRam(WithByte(buf, i, n, byte), j, f)
  {
    var after := WithByte(buf, i, n, byte);
    forall b | 0 <= b < |f| ensures RamByte(after, PACKET_BUF_SIZE * j + b) == f[b] && !after.Dirty(LineOf(j, b)) {
      SlotsApart(j, b, i, n);
    }
  }

  lemma CopyMoreKeeps(s: Tx)
    requires Inv(s) && s.pc.Copy? && s.pc.n < |s.pc.data|
    ensures Inv(s.(buf := WithByte(s.buf, s.txIdx, s.pc.n, s.pc.data[s.pc.n]), pc := Copy(s.pc.data, s.pc.n + 1)))
  {
    hide FrameInRam, Flushed, Coherent, Copied, Claimed, SlotOk, WithByte, Slot, Next;
    var t := s.(buf := WithByte(s.buf, s.txIdx, s.pc.n, s.pc.data[s.pc.n]), pc := Copy(s.pc.data, s.pc.n + 1));
    CopyByte(s.buf, s.txIdx, s.pc.data, s.pc.n);
    ClaimedFrame(s, t);
    forall j | |s.transmitted| <= j < |s.sent| && FrameOk(s, j) ensures FrameInRam(t.buf, Slot(j), s.sent[j]) {
      SlotsDiffer(j, |s.sent|);
      CopyElsewhere(s.buf, s.txIdx, s.pc.n, s.pc.data[s.pc.n], Slot(j), s.sent[j]);
    }
    RingFrame(s, t);
  }

  lemma CopyKeeps(s: Tx)
    requires Inv(s) && s.pc.Copy?
    ensures Inv(DriverStep(s))
  {
    hide FrameInRam, Flushed, Coherent, Copied, Claimed, SlotOk, Slot, Next;
    var t := DriverStep(s);
    if s.pc.n < |s.pc.data| {
      CopyMoreKeeps(s);
    } else {
      NothingFlushed(s.buf, s.txIdx, s.pc.data);
      ClaimedFrame(s, t);
      RingFrame(s, t);
    }
  }

  lemma NothingFlushed(buf: Buffers, i: nat, data: Frame)
    requires Shaped(buf) && i < RING_SIZE && |data| <= PACKET_BUF_SIZE
    ensures Flushed(buf, i, data, 0)
  {
  }

  lemma FlushLine(buf: Buffers, i: nat, data: Frame, k: nat)
    requires Shaped(buf) && Coherent(buf) && i < RING_SIZE && |data| <= PACKET_BUF_SIZE && k * LINE_SIZE < |data|
    requires Copied(buf, i, data, |data|) && Flushed(buf, i, data, k)
    ensures var after := buf.Flush(LineOf(i, k * LINE_SIZE)); Shaped(after) && Flushed(after, i, data, k + 1)
  {
    var l := LineOf(i, k * LINE_SIZE);
    var after := buf.Flush(l);
    MoveBuf(buf, after, l, i, data, |data|, k);
    forall b | 0 <= b < |data| && b / LINE_SIZE < k + 1
      ensures RamByte(after, PACKET_BUF_SIZE * i + b) == data[b] && !after.Dirty(LineOf(i, b))
    {
      SlotsApart(i, b, i, b);
      SlotsApart(i, k * LINE_SIZE, i, b);
      assert ViewByte(after, PACKET_BUF_SIZE * i + b) == data[b];
    }
  }

  lemma AllFlushed(buf: Buffers, i: nat, data: Frame, k: nat)
    requires Shaped(buf) && i < RING_SIZE && |data| <= PACKET_BUF_SIZE && Flushed(buf, i, data, k)
             && |data| <= k * LINE_SIZE
    ensures FrameInRam(buf, i, data)
  {
  }

  lemma FlushBufKeeps(s: Tx)
    requires Inv(s) && s.pc.FlushBuf?
    ensures Inv(DriverStep(s))
  {
    hide FrameInRam, Flushed, Coherent, Copied, Claimed, SlotOk, FrameOk, Slot, Next;
    var t := DriverStep(s);
    if s.pc.k * LINE_SIZE < |s.pc.data| {
      var l := LineOf(s.txIdx, s.pc.k * LINE_SIZE);
      MoveBufKeeps(s, s.buf.Flush(l), l);
      FlushLine(s.buf, s.txIdx, s.pc.data, s.pc.k);
      MoveBuf(s.buf, s.buf.Flush(l), l, s.txIdx, s.pc.data, |s.pc.data|, 0);
      PcWithin(s.(buf := t.buf), t);
    } else {
      AllFlushed(s.buf, s.txIdx, s.pc.data, s.pc.k);
      PcWithin(s, t);
    }
  }

  /** Moving on within the preparation of one frame. */
  lemma PcWithin(s: Tx, t: Tx)
    requires Inv(s) && s.pc.FlushBuf? && t == s.(pc := t.pc) && (t.pc.FlushBuf? || (t.pc.Arm? && t.pc.field == 0))
    requires t.pc.data == s.pc.data
    requires t.pc.FlushBuf? ==> Flushed(s.buf, s.txIdx, s.pc.data, t.pc.k)
    requires t.pc.Arm? ==> FrameInRam(s.buf, s.txIdx, s.pc.data)
    ensures Inv(t)
  {
    hide FrameInRam, Flushed, Coherent, Copied, Claimed, Slot, Next;
    ClaimedFrame(s, t);
    RingFrame(s, t);
  }

  lemma ArmKeeps(s: Tx)
    requires Inv(s) && s.pc.Arm?
    ensures Inv(DriverStep(s))
  {
    hide FrameInRam, Flushed, Coherent, Copied, Slot, Next;
    var t := DriverStep(s);
    assert SlotOk(s, s.txIdx);
    forall j | |t.transmitted| <= j < |t.sent| ensures FrameOk(t, j) {
      if j < |s.sent| {
        assert FrameOk(s, j);
        SlotsDiffer(j, |s.sent|);
      }
    }
    forall k | 0 <= k < RING_SIZE ensures SlotOk(t, k) { assert SlotOk(s, k) && (Flying(s, k) ==> Flying(t, k)); }
    assert t.transmitted == t.sent[..|t.transmitted|];
  }

  lemma FinishSend(m: Tx, t: Tx)
    requires Inv(m) && m.pc.FlushDesc? && !m.desc.Dirty(m.txIdx) && t == m.(txIdx := Next(m.txIdx), pc := Idle)
    ensures Inv(t)
  {
    hide FrameInRam, Coherent, Slot, Next;
    NextSlot(|m.sent| - 1);
    forall j | |t.transmitted| <= j < |t.sent| ensures FrameOk(t, j) { assert FrameOk(m, j); }
    forall k | 0 <= k < RING_SIZE ensures SlotOk(t, k) {
      hide FrameOk;
      assert SlotOk(m, k) && (Flying(m, k) ==> Flying(t, k));
    }
  }

  lemma FlushDescKeeps(s: Tx)
    requires Inv(s) && s.pc.FlushDesc?
    ensures Inv(DriverStep(s))
  {
    hide SlotOk, FrameOk, Progress, Coherent, Indices, Slot, Next;
    EvictDescKeeps(s, s.txIdx);
    FinishSend(s.(desc := s.desc.Flush(s.txIdx)), DriverStep(s));
  }

  lemma DriverKeeps(s: Tx)
    requires Inv(s)
    ensures Inv(DriverStep(s))
  {
    hide FrameInRam, Flushed, Coherent, Copied, Claimed, SlotOk, FrameOk, Slot, Next;
    match s.pc
    case Idle =>
    case TimedOut =>
    case Poll(data, tries) =>
      EvictDescKeeps(s, s.txIdx);
      PcKeeps(if tries == MAX_POLLS then s else s.(desc := s.desc.Flush(s.txIdx)), DriverStep(s).pc);
    case Look(data, tries) =>
      FetchDescKeeps(s, s.txIdx);
      var m := s.(desc := s.desc.Fetch(s.txIdx));
      if s.desc.View(s.txIdx).Own() { PcKeeps(m, DriverStep(s).pc); } else { LookKeeps(m, data); }
    case Copy(_, _) => CopyKeeps(s);
    case FlushBuf(_, _) => FlushBufKeeps(s);
    case Arm(_, _) => ArmKeeps(s);
    case FlushDesc => FlushDescKeeps(s);
  }

  lemma StepKeeps(s: Tx, a: Action)
    requires Inv(s)
    ensures Inv(Step(s, a))
  {
    hide Inv, DriverStep, DeviceStep, Slot, Next;
    assert WellFormed(s) by { InvWellFormed(s); }
    match a
    case Send(frame) => if s.pc.Idle? { SendKeeps(s, frame); }
    case Driver => DriverKeeps(s);
    case Device(status) => DeviceKeeps(s, status);
    case EvictDesc(i) => EvictDescKeeps(s, i);
    case FetchDesc(i) => FetchDescKeeps(s, i);
    case EvictBuf(l) => MoveBufKeeps(s, s.buf.Flush(l), l);
    case FetchBuf(l) => MoveBufKeeps(s, s.buf.Fetch(l), l);
  }

  lemma InvWellFormed(s: Tx)
    requires Inv(s)
    ensures WellFormed(s)
  {
  }

  // ------------------------------------------------------------------- runs

  /** After setup_descriptor_rings(): descriptors zero in RAM and not cached. The
      buffers may still have dirty lines. */
  ghost predicate Init(s: Tx) {
    && Shaped(s.buf) && Coherent(s.buf)
    && s.desc.ram == seq(RING_SIZE, _ => Descriptor(0, 0, 0, 0)) && s.desc.Clean()
    && s.txIdx == 0 && s.devIdx == 0 && s.pc == Idle && s.sent == [] && s.transmitted == []
  }

  ghost predicate CanStep(a: Tx, b: Tx) { WellFormed(a) && exists act :: b == Step(a, act) }

  ghost predicate IsRun(trace: seq<Tx>) {
    |trace| > 0 && Init(trace[0]) && forall n | 0 <= n < |trace| - 1 :: CanStep(trace[n], trace[n + 1])
  }

  lemma {:induction false} RunKeeps(trace: seq<Tx>, n: nat)
    requires IsRun(trace) && n < |trace|
    ensures Inv(trace[n])
  {
    hide Step;
    if n == 0 {
      forall i | 0 <= i < RING_SIZE ensures SlotOk(trace[0], i) {}
    } else {
      RunKeeps(trace, n - 1);
      assert CanStep(trace[n - 1], trace[n - 1 + 1]);
      var act :| trace[n] == Step(trace[n - 1], act);
      StepKeeps(trace[n - 1], act);
    }
  }

  /** The descriptor and its frame are completely in RAM: frame `j` of those sent, at the
      place and with the length that the descriptor gives. */
  ghost predicate InRam(s: Tx, i: nat, j: nat) {
    && WellFormed(s) && i < 16 && |s.transmitted| <= j < |s.sent| && j % 16 == i && |s.sent[j]| <= 1600
    && s.desc.ram[i] == Descriptor(s.base + 1600 * i, 0, |s.sent[j]|, 0xB000_0000 + |s.sent[j]|)
    && forall b | 0 <= b < |s.sent[j]| :: RamByte(s.buf, 1600 * i + b) == s.sent[j][b]
  }

  /** Over every interleaving: the device transmits the frames sent, in order and
      without loss or duplicate. Whenever RAM shows OWN on a descriptor, RAM holds its
      address and length and the whole frame, and the descriptor is not dirty in the
      cache. */
  lemma TransmitsInOrder(trace: seq<Tx>, n: nat)
    requires IsRun(trace) && n < |trace|
    ensures var s := trace[n];
            && WellFormed(s) && |s.desc.ram| == 16 && s.transmitted <= s.sent && |s.sent| <= |s.transmitted| + 16
            && forall i | 0 <= i < 16 && s.desc.ram[i].des3 >= 0x8000_0000 ::
                 !s.desc.Dirty(i) && exists j :: InRam(s, i, j)
  {
    hide Step, Progress, FrameOk, SlotOk, Coherent, Next;
    RunKeeps(trace, n);
    forall i | 0 <= i < 16 && trace[n].desc.ram[i].des3 >= 0x8000_0000
      ensures !trace[n].desc.Dirty(i) && exists j :: InRam(trace[n], i, j)
    {
      var j := OwnedIsComplete(trace[n], i);
      assert forall b | 0 <= b < |trace[n].sent[j]| ::
          FrameAt(trace[n].buf, PACKET_BUF_SIZE * i, |trace[n].sent[j]|)[b] == trace[n].sent[j][b];
      assert InRam(trace[n], i, j);
    }
  }

  // -------------------------------------------------- what the callers asked for

  /** A run with the actions that make it up. */
  ghost predicate RunBy(trace: seq<Tx>, acts: seq<Action>) {
    && |trace| == |acts| + 1 && Init(trace[0])
    && forall n | 0 <= n < |acts| :: StepBy(trace[n], acts[n], trace[n + 1])
  }

  ghost predicate StepBy(s: Tx, a: Action, t: Tx) { WellFormed(s) && t == Step(s, a) }

  /** The frames that send_packet() was called with in the first `n` steps. The
      driver is not reentered: a call counts when no other is under way. */
  ghost function Calls(trace: seq<Tx>, acts: seq<Action>, n: nat): seq<Frame>
    requires n <= |acts| && |trace| == |acts| + 1
  {
    if n == 0 then []
    else Calls(trace, acts, n - 1) +
         if acts[n - 1].Send? && trace[n - 1].pc.Idle? then [acts[n - 1].frame] else []
  }

  function Cuts(frames: seq<Frame>): seq<Frame> { seq(|frames|, i requires 0 <= i < |frames| => Cut(frames[i])) }

  predicate Busy(s: Tx) { s.pc.Poll? || s.pc.Look? || Preparing(s) }

  /** Every call has been sent, cut, but for the one under way and the one that has
      timed out. */
  ghost predicate Accounted(s: Tx, calls: seq<Frame>) {
    if Busy(s) then Cuts(calls) == s.sent + [s.pc.data]
    else if s.pc.TimedOut? then calls != [] && Cuts(calls) == s.sent + [Cut(calls[|calls| - 1])]
    else Cuts(calls) == s.sent
  }

  lemma StepAccounted(s: Tx, a: Action, calls: seq<Frame>)
    requires WellFormed(s) && Accounted(s, calls)
    ensures Accounted(Step(s, a), calls + if a.Send? && s.pc.Idle? then [a.frame] else [])
  {
    hide Cut;
    var t := Step(s, a);
    if a.Send? && s.pc.Idle? {
      assert Cuts(calls + [a.frame]) == Cuts(calls) + [Cut(a.frame)];
    } else {
      assert calls + [] == calls;
      if a.Driver? && Busy(s) && t.pc.TimedOut? {
        var cuts := Cuts(calls);
        assert cuts[|cuts| - 1] == s.pc.data == Cut(calls[|calls| - 1]);
      }
    }
  }

  lemma {:induction false} RunAccounted(trace: seq<Tx>, acts: seq<Action>, n: nat)
    requires RunBy(trace, acts) && n <= |acts|
    ensures Accounted(trace[n], Calls(trace, acts, n))
  {
    hide Step;
    if n > 0 {
      RunAccounted(trace, acts, n - 1);
      assert StepBy(trace[n - 1], acts[n - 1], trace[n - 1 + 1]);
      StepAccounted(trace[n - 1], acts[n - 1], Calls(trace, acts, n - 1));
    }
  }

  lemma RunByIsRun(trace: seq<Tx>, acts: seq<Action>)
    requires RunBy(trace, acts)
    ensures IsRun(trace)
  {
    hide Step, Init, WellFormed;
    forall n | 0 <= n < |trace| - 1 ensures CanStep(trace[n], trace[n + 1]) {
      assert StepBy(trace[n], acts[n], trace[n + 1]);
    }
  }

  /** Over every interleaving, what the device has transmitted is a prefix of what
      send_packet() was called with, each frame cut to the buffer size, in call
      order. At rest every call has been handed over; at most 16 wait for the device. */
  lemma TransmitsTheCalls(trace: seq<Tx>, acts: seq<Action>, n: nat)
    requires RunBy(trace, acts) && n <= |acts|
    ensures var s, cuts := trace[n], Cuts(Calls(trace, acts, n));
            && s.transmitted <= cuts && |cuts| <= |s.transmitted| + 17
            && (s.pc.Idle? ==> s.sent == cuts)
            && Accounted(s, Calls(trace, acts, n))
  {
    hide Step, Init, WellFormed, Calls, Cuts, RunBy, IsRun;
    RunByIsRun(trace, acts);
    assert |trace| == |acts| + 1 by { LengthOf(trace, acts); }
    TransmitsInOrder(trace, n);
    RunAccounted(trace, acts, n);
  }

  lemma LengthOf(trace: seq<Tx>, acts: seq<Action>)
    requires RunBy(trace, acts)
    ensures |trace| == |acts| + 1
  {
  }
}
