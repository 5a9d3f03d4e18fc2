/** What receive_packets() returns if buffer lines are dirty when the ring is handed
    to the device, which setup_descriptor_rings() does not exclude. */
module DwmacRxStale {
  import opened DmaMemory
  import opened DwmacRx

  ghost predicate RunTo(trace: seq<Rx>, s: Rx, t: Rx) { IsRun(trace) && trace[0] == s && trace[|trace| - 1] == t }

  /** Some interleaving leads from the start `s` to `t`. */
  ghost predicate Reaches(s: Rx, t: Rx) { exists trace :: RunTo(trace, s, t) }

  lemma ReachesStart(s: Rx)
    requires Init(s)
    ensures Reaches(s, s)
  {
    assert RunTo([s], s, s);
  }

  lemma ReachesNext(s: Rx, t: Rx, a: Action)
    requires Reaches(s, t) && WellFormed(t)
    ensures Reaches(s, Step(t, a))
  {
    hide Step, Init, WellFormed;
    var trace :| RunTo(trace, s, t);
    var more := trace + [Step(t, a)];
    forall n | 0 <= n < |more| - 1 ensures CanStep(more[n], more[n + 1]) {
      if n < |trace| - 1 { assert CanStep(trace[n], trace[n + 1]); }
    }
    assert RunTo(more, s, Step(t, a));
  }

  // --------------------------------------------------- up to the slot in question

  const EMPTY := Completion(0, [])
  const BLANK := Descriptor(0, 0, 0, 0)

  ghost predicate AllArmed(s: Rx) {
    |s.desc.ram| == RING_SIZE && forall j | 0 <= j < RING_SIZE :: s.desc.ram[j] == Armed(s, j) && !s.desc.Dirty(j)
  }

  /** Empty frames have arrived in the first `m` slots and been passed over. */
  ghost predicate Passed(s: Rx, t: Rx, m: nat) {
    && WellFormed(t) && t.buf == s.buf && AllArmed(t) && t.pc == Check && t.received == []
    && m < RING_SIZE && t.rxIdx == t.devIdx == |t.completed| == t.consumed == m
    && forall j | 0 <= j < m :: t.completed[j] == EMPTY
  }

  lemma StoredNothing(buf: Buffers, offset: nat)
    requires Shaped(buf)
    ensures Stored(buf, offset, []) == buf
  {
    var after := Stored(buf, offset, []);
    forall l | 0 <= l < |buf.ram| ensures after.ram[l] == buf.ram[l] {}
    assert after.ram == buf.ram;
  }

  /** The driver finds the empty frame and is about to re-arm the descriptor. */
  lemma PassLook(s: Rx, t: Rx, m: nat) returns (u: Rx)
    requires Reaches(s, t) && Passed(s, t, m)
    ensures Reaches(s, u) && WellFormed(u)
    ensures u == t.(desc := Mem(t.desc.ram[m := BLANK], t.desc.cache[m := Line(BLANK, false)]), pc := Arm(0),
                    devIdx := Next(m), completed := t.completed + [EMPTY])
  {
    hide Stored, Reaches;
    StoredNothing(t.buf, t.desc.ram[m].des0 - t.base);
    var a := Step(t, Device(EMPTY, BLANK));
    assert a == t.(desc := Mem(t.desc.ram[m := BLANK], t.desc.cache), devIdx := Next(m),
      completed := t.completed + [EMPTY]);
    ReachesNext(s, t, Device(EMPTY, BLANK));
    var b := Step(a, Driver);
    assert b == a.(desc := Mem(a.desc.ram, a.desc.cache - {m}), pc := Look);
    ReachesNext(s, a, Driver);
    u := Step(b, Driver);
    ReachesNext(s, b, Driver);
    assert (a.desc.cache - {m})[m := Line(BLANK, false)] == a.desc.cache[m := Line(BLANK, false)];
  }

  /** The four fields are written, and the line is flushed. */
  lemma PassArm(s: Rx, t: Rx, d: Descriptor) returns (u: Rx)
    requires Reaches(s, t) && WellFormed(t) && t.pc == Arm(0) && t.desc.View(t.rxIdx) == d
    ensures Reaches(s, u) && WellFormed(u)
    ensures u == t.(desc := t.desc.Write(t.rxIdx, Armed(t, t.rxIdx)).Flush(t.rxIdx), pc := Check,
                    rxIdx := Next(t.rxIdx), consumed := t.consumed + 1)
  {
    hide Reaches;
    var i, z := t.rxIdx, Armed(t, t.rxIdx);
    ReachesNext(s, t, Driver);
    var a := Step(t, Driver);
    assert a == t.(desc := t.desc.Write(i, d.(des0 := z.des0)), pc := Arm(1));
    ReachesNext(s, a, Driver);
    var b := Step(a, Driver);
    assert b == t.(desc := t.desc.Write(i, Descriptor(z.des0, 0, d.des2, d.des3)), pc := Arm(2)) by {
      assert b.desc.cache == t.desc.cache[i := Line(Descriptor(z.des0, 0, d.des2, d.des3), true)];
    }
    ReachesNext(s, b, Driver);
    var c := Step(b, Driver);
    assert c == t.(desc := t.desc.Write(i, Descriptor(z.des0, 0, 0, d.des3)), pc := Arm(3)) by {
      assert c.desc.cache == t.desc.cache[i := Line(Descriptor(z.des0, 0, 0, d.des3), true)];
    }
    ReachesNext(s, c, Driver);
    var e := Step(c, Driver);
    assert e == t.(desc := t.desc.Write(i, z), pc := FlushDesc, consumed := t.consumed + 1) by {
      assert e.desc.cache == t.desc.cache[i := Line(z, true)];
    }
    ReachesNext(s, e, Driver);
    u := Step(e, Driver);
  }

  lemma {:induction false} Pass(s: Rx, m: nat) returns (t: Rx)
    requires Init(s) && m < RING_SIZE
    ensures Reaches(s, t) && Passed(s, t, m)
  {
    if m == 0 {
      ReachesStart(s);
      ReachesNext(s, s, Receive);
      t := Step(s, Receive);
    } else {
      var a := Pass(s, m - 1);
      hide Reaches;
      var b := PassLook(s, a, m - 1);
      t := PassArm(s, b, BLANK);
    }
  }

  // ------------------------------------------------------------- the stale byte

  /** RAM has the stale byte at offset 64 * `k` of slot `i`, and its line is not cached. */
  ghost predicate StaleIn(buf: Buffers, i: nat, k: nat, stale: Byte) {
    && Shaped(buf) && i < RING_SIZE && k < 25 && 25 * i + k !in buf.cache
    && RamAt(buf, i, LINE_SIZE * k) == stale
  }

  lemma StaleWriteBack(buf: Buffers, i: nat, k: nat, bytes: Frame)
    requires Shaped(buf) && i < RING_SIZE && k < 25 && |bytes| <= PACKET_BUF_SIZE && buf.Dirty(25 * i + k)
    ensures StaleIn(Stored(buf, PACKET_BUF_SIZE * i, bytes).Flush(25 * i + k), i, k, buf.cache[25 * i + k].content[0])
  {
    SlotsApart(i, LINE_SIZE * k, i, 0);
  }

  lemma StaleStays(buf: Buffers, i: nat, k: nat, stale: Byte, l: nat)
    requires StaleIn(buf, i, k, stale)
    ensures StaleIn(buf.Flush(l), i, k, stale)
    ensures l != 25 * i + k ==> StaleIn(buf.Fetch(l), i, k, stale)
  {
    SlotsApart(i, LINE_SIZE * k, i, 0);
  }

  /** The state after a frame of 64 * `k` + 1 bytes `x` has come into slot `i`, and the
      dirty line there has been written back over it. */
  ghost predicate Overwritten(t: Rx, i: nat, k: nat, x: Byte, stale: Byte) {
    && WellFormed(t) && x != stale && StaleIn(t.buf, i, k, stale)
    && t.pc == Check && t.rxIdx == t.consumed == i && t.received == [] && |t.completed| == i + 1
    && (forall j | 0 <= j < i :: t.completed[j] == EMPTY)
    && t.completed[i] == Completion(LINE_SIZE * k + 1, seq(LINE_SIZE * k + 1, _ => x))
    && t.desc.ram[i] == Descriptor(0, 0, 0, LINE_SIZE * k + 1) && !t.desc.Dirty(i)
  }

  lemma Overwrite(s: Rx, a: Rx, i: nat, k: nat) returns (c: Rx, x: Byte, stale: Byte)
    requires Reaches(s, a) && Passed(s, a, i) && k < 25 && s.buf.Dirty(25 * i + k)
    ensures Reaches(s, c) && Overwritten(c, i, k, x, stale)
  {
    hide Stored, Reaches, StaleIn;
    stale := s.buf.cache[25 * i + k].content[0];
    x := if stale == 0 then 1 else 0;
    var len := LINE_SIZE * k + 1;
    var frame := Completion(len, seq(len, _ => x));
    var arrival := Device(frame, Descriptor(0, 0, 0, len));
    assert a.desc.ram[i] == Armed(a, i);
    ReachesNext(s, a, arrival);
    var b := Step(a, arrival);
    assert b.completed == a.completed + [frame] && b.buf == Stored(s.buf, PACKET_BUF_SIZE * i, frame.bytes);
    ReachesNext(s, b, EvictBuf(25 * i + k));
    c := Step(b, EvictBuf(25 * i + k));
    StaleWriteBack(s.buf, i, k, frame.bytes);
    assert WellFormed(c) by { StaleShaped(c.buf, i, k, stale); }
  }

  lemma StaleShaped(buf: Buffers, i: nat, k: nat, stale: Byte)
    requires StaleIn(buf, i, k, stale)
    ensures Shaped(buf)
  {
  }

  // ------------------------------------------------- what the driver makes of it

  lemma {:induction false} FlushOn(s: Rx, t: Rx, i: nat, k: nat, stale: Byte) returns (u: Rx)
    requires Reaches(s, t) && WellFormed(t) && StaleIn(t.buf, i, k, stale) && t.rxIdx == i
    requires t.pc.FlushBuf? && t.pc.length == LINE_SIZE * k + 1
    ensures Reaches(s, u) && WellFormed(u) && StaleIn(u.buf, i, k, stale)
    ensures u == t.(buf := u.buf, pc := Read(LINE_SIZE * k + 1, []))
    decreases if k < t.pc.k then 0 else k + 1 - t.pc.k
  {
    hide Reaches, StaleIn;
    ReachesNext(s, t, Driver);
    var a := Step(t, Driver);
    StaleShaped(t.buf, i, k, stale);
    if t.pc.k * LINE_SIZE < t.pc.length {
      StaleStays(t.buf, i, k, stale, LineOf(i, t.pc.k * LINE_SIZE));
      StaleShaped(a.buf, i, k, stale);
      u := FlushOn(s, a, i, k, stale);
    } else {
      u := a;
    }
  }

  lemma {:induction false} ReadOn(s: Rx, t: Rx, i: nat, k: nat, stale: Byte) returns (u: Rx)
    requires Reaches(s, t) && WellFormed(t) && StaleIn(t.buf, i, k, stale) && t.rxIdx == i
    requires t.pc.Read? && t.pc.length == LINE_SIZE * k + 1 && |t.pc.got| <= LINE_SIZE * k
    ensures Reaches(s, u) && u.pc.Read? && |u.pc.got| == u.pc.length == LINE_SIZE * k + 1
    ensures u.pc.got[LINE_SIZE * k] == stale && WellFormed(u) && u == t.(buf := u.buf, pc := u.pc)
    decreases LINE_SIZE * k - |t.pc.got|
  {
    hide Reaches, StaleIn;
    var b := |t.pc.got|;
    StaleShaped(t.buf, i, k, stale);
    SlotsApart(i, b, i, 0);
    ReachesNext(s, t, Driver);
    u := Step(t, Driver);
    if b < LINE_SIZE * k {
      StaleStays(t.buf, i, k, stale, LineOf(i, b));
      StaleShaped(u.buf, i, k, stale);
      u := ReadOn(s, u, i, k, stale);
    } else {
      StaleSeen(t.buf, i, k, stale);
      FetchShaped(t.buf, LineOf(i, b));
    }
  }

  lemma StaleSeen(buf: Buffers, i: nat, k: nat, stale: Byte)
    requires StaleIn(buf, i, k, stale)
    ensures ViewAt(buf, i, LINE_SIZE * k) == stale
  {
    SlotsApart(i, LINE_SIZE * k, i, 0);
  }

  lemma FetchShaped(buf: Buffers, l: nat)
    requires Shaped(buf)
    ensures Shaped(buf.Fetch(l))
  {
  }

  lemma {:induction false} EmptiesReturnNothing(cs: seq<Completion>)
    requires forall j | 0 <= j < |cs| :: cs[j] == EMPTY
    ensures Frames(cs) == []
  {
    if cs != [] { EmptiesReturnNothing(cs[..|cs| - 1]); }
  }

  lemma WrongFrame(t: Rx, i: nat, frame: Completion, got: Frame)
    requires t.pc == Arm(0) && t.consumed == i && |t.completed| == i + 1 && t.received == [got]
    requires (forall j | 0 <= j < i :: t.completed[j] == EMPTY) && t.completed[i] == frame && Accepted(frame)
    requires frame.bytes != got
    ensures !Returned(t)
  {
    var cs := t.completed[..i + 1];
    EmptiesReturnNothing(cs[..|cs| - 1]);
    assert Frames(cs) == [frame.bytes];
    hide Frames;
    assert [frame.bytes][0] != [got][0];
  }

  /** The driver returns a frame that never arrived. */
  lemma ReturnsStale(s: Rx, t: Rx, i: nat, k: nat, x: Byte, stale: Byte) returns (u: Rx)
    requires Reaches(s, t) && Overwritten(t, i, k, x, stale)
    ensures Reaches(s, u) && !Returned(u)
  {
    hide Reaches, StaleIn;
    var len := LINE_SIZE * k + 1;
    ReachesNext(s, t, Driver);
    var a := Step(t, Driver);
    ReachesNext(s, a, Driver);
    var b := Step(a, Driver);
    assert k < 25 by { StaleBound(t.buf, i, k, stale); }
    assert b.pc == FlushBuf(len, 0);
    var c := FlushOn(s, b, i, k, stale);
    var d := ReadOn(s, c, i, k, stale);
    ReachesNext(s, d, Driver);
    u := Step(d, Driver);
    assert t.completed[i].bytes[LINE_SIZE * k] == x;
    WrongFrame(u, i, t.completed[i], d.pc.got);
  }

  lemma StaleBound(buf: Buffers, i: nat, k: nat, stale: Byte)
    requires StaleIn(buf, i, k, stale)
    ensures k < 25
  {
  }

  // --------------------------------------------------------------- main results

  /** Every frame that waits for the driver is still what the device wrote. */
  ghost predicate FramesIntact(s: Rx) {
    && Shaped(s.buf)
    && forall j | s.consumed <= j < |s.completed| ::
         WellSized(s.completed[j]) && Intact(s.buf, Slot(j), s.completed[j].bytes)
  }

  lemma InvIntact(s: Rx)
    requires Inv(s)
    ensures FramesIntact(s) && Returned(s)
  {
    hide Slot, Intact, Progress, Frames;
    forall j | s.consumed <= j < |s.completed|
      ensures WellSized(s.completed[j]) && Intact(s.buf, Slot(j), s.completed[j].bytes)
    {
      assert WaitingOk(s, j);
    }
  }

  lemma OverwrittenNotIntact(t: Rx, i: nat, k: nat, x: Byte, stale: Byte)
    requires Overwritten(t, i, k, x, stale)
    ensures !FramesIntact(t)
  {
    assert !Intact(t.buf, Slot(i), t.completed[i].bytes) by {
      assert RamAt(t.buf, Slot(i), LINE_SIZE * k) == stale && t.completed[i].bytes[LINE_SIZE * k] == x;
    }
  }

  lemma DirtyLineShows(s: Rx) returns (c: Rx, u: Rx)
    requires Init(s) && !NoDirty(s.buf)
    ensures Reaches(s, c) && !FramesIntact(c) && Reaches(s, u) && !Returned(u)
  {
    var l :| l in s.buf.cache && s.buf.cache[l].dirty;
    assert l < |s.buf.ram| == 400;
    assert 25 * (l / 25) + l % 25 == l;
    hide Init, Reaches, Passed, Overwritten, FramesIntact, Returned;
    var i, k := l / 25, l % 25;
    var a := Pass(s, i);
    var x, stale;
    c, x, stale := Overwrite(s, a, i, k);
    OverwrittenNotIntact(c, i, k, x, stale);
    u := ReturnsStale(s, c, i, k, x, stale);
  }

  lemma CleanAlwaysRight(s: Rx, t: Rx)
    requires Reaches(s, t) && NoDirty(s.buf)
    ensures FramesIntact(t) && Returned(t)
  {
    hide NoDirty, IsRun;
    var trace :| RunTo(trace, s, t);
    assert |trace| > 0 by { RunNotEmpty(trace); }
    RunKeeps(trace, |trace| - 1);
    InvIntact(t);
  }

  lemma RunNotEmpty(trace: seq<Rx>)
    requires IsRun(trace)
    ensures |trace| > 0
  {
  }

  /** receive_packets() returns exactly the device's frames over every run if and only
      if no buffer line was dirty when the ring was handed to the device, and the same
      holds of frames surviving in memory until the driver gets to them.
      setup_descriptor_rings() flushes the descriptors only, so this is left to
      whoever allocated the buffers. */
  lemma ReturnedIffClean(s: Rx)
    requires Init(s)
    ensures (forall t | Reaches(s, t) :: Returned(t)) <==> NoDirty(s.buf)
    ensures (forall t | Reaches(s, t) :: FramesIntact(t)) <==> NoDirty(s.buf)
  {
    hide Init, Reaches, FramesIntact, Returned, NoDirty;
    if NoDirty(s.buf) {
      forall t | Reaches(s, t) ensures FramesIntact(t) && Returned(t) { CleanAlwaysRight(s, t); }
    } else {
      var c, u := DirtyLineShows(s);
    }
  }
}
