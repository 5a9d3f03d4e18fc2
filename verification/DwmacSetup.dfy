/** setup_descriptor_rings(): the rings as the device finds them, whatever the
    cache does while they are written. */
module DwmacSetup {
  import opened DmaMemory
  import DwmacRx
  import DwmacTx

  datatype Movement = Evict(line: nat) | Fetch(line: nat)

  /** Cache movements that the program does not control. */
  function Moved(m: Mem<Descriptor>, moves: seq<Movement>): Mem<Descriptor> {
    if moves == [] then m
    else
      var before := Moved(m, moves[..|moves| - 1]);
      match moves[|moves| - 1] case Evict(l) => before.Flush(l) case Fetch(l) => before.Fetch(l)
  }

  /** Lines that are clean agree with RAM: how a ring is found, and stays. */
  ghost predicate Honest(m: Mem<Descriptor>) {
    && |m.ram| == RING_SIZE && (forall l | l in m.cache :: l < RING_SIZE)
    && forall i | 0 <= i < RING_SIZE && !m.Dirty(i) :: m.ram[i] == m.View(i)
  }

  /** Every line reads the same, and what RAM has it keeps. */
  ghost predicate Undisturbed(m: Mem<Descriptor>, n: Mem<Descriptor>) {
    && Honest(m) && Honest(n)
    && forall i | 0 <= i < RING_SIZE :: n.View(i) == m.View(i) && (!m.Dirty(i) ==> !n.Dirty(i))
  }

  lemma {:induction false} MovesDisturbNothing(m: Mem<Descriptor>, moves: seq<Movement>)
    requires Honest(m)
    ensures Undisturbed(m, Moved(m, moves))
  {
    if moves != [] { MovesDisturbNothing(m, moves[..|moves| - 1]); }
  }

  lemma FlushKeeps(m: Mem<Descriptor>, i: nat)
    requires Honest(m) && i < RING_SIZE
    ensures Undisturbed(m, m.Flush(i)) && !m.Flush(i).Dirty(i)
  {
  }

  class Ring {
    var mem: Mem<Descriptor>

    /** Stores into one descriptor; then the cache moves lines as it likes. */
    method Store(i: nat, d: Descriptor, moves: seq<Movement>)
      requires Honest(mem) && i < RING_SIZE
      modifies this
      ensures Honest(mem) && mem.View(i) == d
      ensures forall j | 0 <= j < RING_SIZE && j != i :: mem.View(j) == old(mem.View(j))
    {
      ghost var written := mem.Write(i, d);
      assert Honest(written) && written.View(i) == d;
      MovesDisturbNothing(written, moves);
      mem := Moved(mem.Write(i, d), moves);
    }

    /** Flushes one line; then the cache moves lines as it likes. */
    method FlushLine(i: nat, moves: seq<Movement>)
      requires Honest(mem) && i < RING_SIZE
      modifies this
      ensures Undisturbed(old(mem), mem) && !mem.Dirty(i)
    {
      FlushKeeps(mem, i);
      MovesDisturbNothing(mem.Flush(i), moves);
      mem := Moved(mem.Flush(i), moves);
    }

    /** Writes a whole ring, field by field, and then flushes it. */
    method Setup(wanted: seq<Descriptor>, moves: (nat, nat) -> seq<Movement>)
      requires Honest(mem) && |wanted| == RING_SIZE
      modifies this
      ensures mem.ram == wanted && mem.Clean()
    {
      hide Honest;
      Sized(mem);
      for i := 0 to RING_SIZE
        invariant Honest(mem) && |mem.ram| == RING_SIZE && forall j | 0 <= j < i :: mem.View(j) == wanted[j]
      {
        var d := wanted[i];
        Store(i, mem.View(i).(des0 := d.des0), moves(i, 0));
        Sized(mem);
        Store(i, mem.View(i).(des1 := d.des1), moves(i, 1));
        Sized(mem);
        Store(i, mem.View(i).(des2 := d.des2), moves(i, 2));
        Sized(mem);
        Store(i, mem.View(i).(des3 := d.des3), moves(i, 3));
        Sized(mem);
      }
      for i := 0 to RING_SIZE
        invariant Honest(mem) && |mem.ram| == RING_SIZE && forall j | 0 <= j < RING_SIZE :: mem.View(j) == wanted[j]
        invariant forall j | 0 <= j < i :: !mem.Dirty(j)
      {
        FlushLine(i, moves(i, 4));
        Sized(mem);
      }
      AllFlushed(mem, wanted);
    }
  }

  lemma Sized(m: Mem<Descriptor>)
    requires Honest(m)
    ensures |m.ram| == RING_SIZE
  {
  }

  lemma AllFlushed(m: Mem<Descriptor>, wanted: seq<Descriptor>)
    requires Honest(m) && |wanted| == RING_SIZE
    requires forall j | 0 <= j < RING_SIZE :: m.View(j) == wanted[j] && !m.Dirty(j)
    ensures m.ram == wanted && m.Clean()
  {
    forall l | l in m.cache ensures m.cache[l] == Line(m.ram[l], false) {
      assert !m.Dirty(l) && m.View(l) == m.ram[l];
    }
  }

  /** The receive ring is handed over armed, and the transmit ring empty, so that
      every run of either ring starts in the state that is assumed of it. */
  method SetupDescriptorRings(rx: Ring, tx: Ring, s: DwmacRx.Rx, t: DwmacTx.Tx, moves: (nat, nat) -> seq<Movement>)
    returns (r: DwmacRx.Rx, u: DwmacTx.Tx)
    requires rx != tx && Honest(rx.mem) && Honest(tx.mem) && Shaped(s.buf) && Shaped(t.buf) && DwmacTx.Coherent(t.buf)
    modifies rx, tx
    ensures DwmacRx.Init(r) && r.buf == s.buf && r.base == s.base && DwmacTx.Init(u) && u.buf == t.buf
  {
    rx.Setup(seq(RING_SIZE, (i: nat) => DwmacRx.Armed(s, i)), moves);
    tx.Setup(seq(RING_SIZE, _ => Descriptor(0, 0, 0, 0)), moves);
    r := s.(desc := rx.mem, rxIdx := 0, devIdx := 0, pc := DwmacRx.Idle, completed := [], consumed := 0,
      received := []);
    u := t.(desc := tx.mem, txIdx := 0, devIdx := 0, pc := DwmacTx.Idle, sent := [], transmitted := []);
  }
}
