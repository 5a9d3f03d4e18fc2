/** Memory as a DMA device and a CPU with a write-back cache see it. The CPU
    goes through cached lines, the device sees RAM only, and any line may be
    evicted or fetched at any moment. */
module DmaMemory {

  datatype Line<C> = Line(content: C, dirty: bool)

  /** RAM by line number, and the lines the CPU has cached. */
  datatype Mem<C> = Mem(ram: seq<C>, cache: map<nat, Line<C>>) {

    /** What the CPU reads. */
    function View(l: nat): C
      requires l < |ram|
    {
      if l in cache then cache[l].content else ram[l]
    }

    predicate Dirty(l: nat) { l in cache && cache[l].dirty }

    function Write(l: nat, c: C): Mem<C> { Mem(ram, cache[l := Line(c, true)]) }

    /** A line leaves the cache, by eviction or as one step of flush_range():
        written back if dirty, then dropped. */
    function Flush(l: nat): Mem<C> {
      Mem(if l < |ram| && Dirty(l) then ram[l := cache[l].content] else ram, cache - {l})
    }

    /** Whatever is cached is what RAM holds. */
    ghost predicate Clean() {
      forall l | l in cache :: l < |ram| && cache[l] == Line(ram[l], false)
    }

    /** A line enters the cache, speculatively or for a read. */
    function Fetch(l: nat): Mem<C> {
      if l < |ram| && l !in cache then Mem(ram, cache[l := Line(ram[l], false)]) else this
    }
  }

  /** A DMA descriptor; one cache line holds exactly one. */
  datatype Descriptor = Descriptor(des0: nat, des1: nat, des2: nat, des3: nat) {
    predicate Own() { des3 >= DESC3_OWN }
    /** des3 & 0x7FFF */
    function Length(): nat { des3 % 0x8000 }
  }

  const DESC3_OWN: nat := 0x8000_0000
  const DESC3_IOC: nat := 0x4000_0000
  const DESC3_FD: nat := 0x2000_0000
  const DESC3_LD: nat := 0x1000_0000
  const DESC3_BUF1V: nat := 0x0100_0000

  const RING_SIZE: nat := 16
  const PACKET_BUF_SIZE: nat := 1600
  const LINE_SIZE: nat := 64

  type Byte = bv8

  /** The packet buffers of a ring, as lines of 64 bytes. */
  type Buffers = Mem<seq<Byte>>

  predicate Shaped(b: Buffers) {
    && |b.ram| == RING_SIZE * PACKET_BUF_SIZE / LINE_SIZE
    && (forall l | 0 <= l < |b.ram| :: |b.ram[l]| == LINE_SIZE)
    && (forall l | l in b.cache :: l < |b.ram| && |b.cache[l].content| == LINE_SIZE)
  }

  /** Line and offset of byte `b` of buffer slot `i`. */
  function LineOf(i: nat, b: nat): nat { (PACKET_BUF_SIZE * i + b) / LINE_SIZE }
  function OffsetOf(i: nat, b: nat): nat { (PACKET_BUF_SIZE * i + b) % LINE_SIZE }

  /** Slots never share a cache line. */
  lemma SlotsApart(i: nat, b: nat, j: nat, c: nat)
    requires b < PACKET_BUF_SIZE && c < PACKET_BUF_SIZE && i < RING_SIZE
    ensures LineOf(i, b) == LineOf(j, c) ==> i == j
    ensures LineOf(i, b) < RING_SIZE * PACKET_BUF_SIZE / LINE_SIZE && OffsetOf(i, b) < LINE_SIZE
    ensures LineOf(i, b) == PACKET_BUF_SIZE / LINE_SIZE * i + b / LINE_SIZE && OffsetOf(i, b) == b % LINE_SIZE
  {
  }

  /** The byte at offset `o` from the start of the buffers, as the device sees it. */
  function RamByte(b: Buffers, o: nat): Byte
    requires Shaped(b) && o < RING_SIZE * PACKET_BUF_SIZE
  {
    b.ram[o / LINE_SIZE][o % LINE_SIZE]
  }

  function ViewByte(b: Buffers, o: nat): Byte
    requires Shaped(b) && o < RING_SIZE * PACKET_BUF_SIZE
  {
    b.View(o / LINE_SIZE)[o % LINE_SIZE]
  }

  /** Byte `b` of buffer slot `i`, as the device and as the CPU see it. */
  function RamAt(buf: Buffers, i: nat, b: nat): Byte
    requires Shaped(buf) && i < RING_SIZE && b < PACKET_BUF_SIZE
  {
    RamByte(buf, PACKET_BUF_SIZE * i + b)
  }

  function ViewAt(buf: Buffers, i: nat, b: nat): Byte
    requires Shaped(buf) && i < RING_SIZE && b < PACKET_BUF_SIZE
  {
    ViewByte(buf, PACKET_BUF_SIZE * i + b)
  }

  /** The ring slot of the n-th frame. */
  function Slot(n: nat): (i: nat)
    ensures i < RING_SIZE
  {
    n % RING_SIZE
  }

  function Next(i: nat): (j: nat)
    ensures j < RING_SIZE
  {
    (i + 1) % RING_SIZE
  }

  lemma NextSlot(n: nat)
    ensures Next(Slot(n)) == Slot(n + 1)
  {
  }

  /** Fewer than a ring apart, frames use different slots. */
  lemma SlotsDiffer(m: nat, n: nat)
    requires m < n < m + RING_SIZE
    ensures Slot(m) != Slot(n)
  {
  }

  lemma SlotWraps(n: nat)
    ensures Slot(n + RING_SIZE) == Slot(n)
  {
  }
}
