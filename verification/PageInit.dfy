/** Setting up the page allocator on a raw memory region, and what the reserved
    areas can rely on afterwards. */
module PageInit {
  import opened PageAllocator

  lemma TimesBounds(a: nat, d: int)
    ensures d >= 1 ==> a * d >= a
    ensures d <= 0 ==> a * d <= 0
  {
  }

  lemma MultipleOf(a: nat, q: nat)
    requires a > 0
    ensures (a * q) % a == 0
  {
    var d := q - (a * q) / a;
    assert a * d == (a * q) % a by { assert a * d == a * q - a * ((a * q) / a); }
    TimesBounds(a, d);
  }

  function AlignUp(value: nat, alignment: nat): (r: nat)
    requires alignment > 0
    ensures value <= r < value + alignment && r % alignment == 0
  {
    var remainder := value % alignment;
    MultipleOf(alignment, value / alignment + 1);
    if remainder == 0 then value else value + alignment - remainder
  }

  /** The smallest number of pages that holds `value` bytes. */
  function MinimumPages(value: nat): (n: nat)
    ensures value <= n * PAGE_SIZE < value + PAGE_SIZE
  {
    AlignUp(value, PAGE_SIZE) / PAGE_SIZE
  }

  /** How init() divides a region: one metadata byte per page at the front, then
      the page-aligned rest. */
  datatype Split = Split(pages: nat, heapStart: nat, heapPages: nat)

  function SplitRegion(base: nat, size: nat): Split {
    var pages := size / (PAGE_SIZE + 1);
    var heapStart := AlignUp(base + pages, PAGE_SIZE);
    Split(pages, heapStart, if heapStart <= base + size then (base + size - heapStart) / PAGE_SIZE else 0)
  }

  /** The assertions of init() on the split, including the access to heap[0]. */
  predicate InitAsserts(base: nat, size: nat) {
    var s := SplitRegion(base, size);
    && s.pages <= s.heapPages && 0 < s.heapPages
    && s.heapStart % PAGE_SIZE == 0
    && s.pages + s.heapPages * PAGE_SIZE <= size
  }

  /** They hold on every page-aligned region of at least one page. */
  lemma InitAssertsHold(basePages: nat, sizePages: nat)
    requires sizePages > 0
    ensures InitAsserts(basePages * PAGE_SIZE, sizePages * PAGE_SIZE)
  {
    var base, size := basePages * PAGE_SIZE, sizePages * PAGE_SIZE;
    var s := SplitRegion(base, size);
    var front := s.heapStart / PAGE_SIZE - basePages;
    assert front == (s.pages + 4095) / 4096;
    assert s.pages + front <= sizePages;
  }

  /** The bytes that are skipped to align the heap. */
  function Skipped(base: nat, size: nat): nat {
    var pages := size / (PAGE_SIZE + 1);
    AlignUp(base + pages, PAGE_SIZE) - (base + pages)
  }

  /** On any region they hold if and only if the bytes skipped for alignment fit into
      what the division into pages leaves over; a region too small for a page and its
      metadata has to be one whole page after alignment. */
  lemma InitAssertsExact(base: nat, size: nat)
    ensures InitAsserts(base, size) <==>
            if size > PAGE_SIZE then Skipped(base, size) <= size % (PAGE_SIZE + 1)
            else Skipped(base, size) + PAGE_SIZE <= size
  {
    var pages, rest, skipped := size / (PAGE_SIZE + 1), size % (PAGE_SIZE + 1), Skipped(base, size);
    assert size == pages * PAGE_SIZE + pages + rest;
  }

  /** So one byte past a page fails, two pages and one byte do not. */
  lemma InitAssertsFail()
    ensures !InitAsserts(0, PAGE_SIZE + 1) && InitAsserts(0, 2 * PAGE_SIZE + 1)
  {
  }

  // ---------------------------------------------------------- reserved areas

  predicate Overlaps(heapStart: nat, page: nat, start: nat, end: nat) {
    start < heapStart + (page + 1) * PAGE_SIZE && heapStart + page * PAGE_SIZE < end
  }

  /** First page and number of pages of a reserved byte range. */
  function ReservedPages(heapStart: nat, start: nat, end: nat): (nat, nat)
    requires heapStart <= start - start % PAGE_SIZE && start <= end
  {
    var aligned := start - start % PAGE_SIZE;
    ((aligned - heapStart) / PAGE_SIZE, MinimumPages(end - aligned))
  }

  /** They are exactly the pages that the range touches. */
  lemma ReservedPagesCover(heapStart: nat, start: nat, end: nat, p: nat)
    requires heapStart % PAGE_SIZE == 0 && heapStart <= start <= end
    ensures var (s, n) := ReservedPages(heapStart, start, end);
            s <= p < s + n <==> Overlaps(heapStart, p, start, end)
  {
  }

  /** mark_pointer_range_as_used_without_initialize(); false where it panics. */
  method MarkReserved(pa: MetadataPageAllocator, heapStart: nat, heapPages: nat, start: nat, end: nat)
    returns (ok: bool)
    requires pa.Valid() && heapStart % PAGE_SIZE == 0 && start <= end
    modifies pa.metadata, pa.mem
    ensures pa.Valid() && pa.mem[..] == old(pa.mem[..])
    ensures ok <==> && heapStart <= start - start % PAGE_SIZE < heapStart + heapPages * PAGE_SIZE
                    && var (s, n) := ReservedPages(heapStart, start, end);
                       n == 0 || RangeFree(old(pa.metadata[..]), s, n)
    ensures !ok ==> pa.metadata[..] == old(pa.metadata[..])
    ensures ok ==> var (s, n) := ReservedPages(heapStart, start, end);
              pa.metadata[..] == if n == 0 then old(pa.metadata[..]) else Marked(old(pa.metadata[..]), s, n)
  {
    var aligned := start - start % PAGE_SIZE;
    var n := MinimumPages(end - aligned);
    if aligned < heapStart || aligned >= heapStart + heapPages * PAGE_SIZE { return false; }
    var idx := (aligned - heapStart) / PAGE_SIZE;
    if n == 0 { return true; }
    if idx + n > pa.metadata.Length { return false; }
    var free := pa.IsRangeFree(idx, n);
    if !free { return false; }
    MarkAddsRun(pa.metadata[..], idx, n);
    pa.MarkRangeAsUsed(idx, n, false);
    ok := true;
  }

  /** A reserved range begins in the heap, and the pages it touches have metadata. */
  predicate Reservable(split: Split, area: (nat, nat)) {
    && area.0 <= area.1
    && split.heapStart <= area.0 - area.0 % PAGE_SIZE < split.heapStart + split.heapPages * PAGE_SIZE
    && var (s, n) := ReservedPages(split.heapStart, area.0, area.1); n == 0 || s + n <= split.pages
  }

  predicate Touches(split: Split, area: (nat, nat), p: nat) { Overlaps(split.heapStart, p, area.0, area.1) }

  ghost predicate Touched(split: Split, areas: seq<(nat, nat)>, p: nat) {
    exists i :: 0 <= i < |areas| && Touches(split, areas[i], p)
  }

  ghost predicate NoCommonPage(split: Split, a: (nat, nat), b: (nat, nat)) {
    forall p: nat :: !(Touches(split, a, p) && Touches(split, b, p))
  }

  /** All the areas can be reserved, and no two of them touch the same page. */
  ghost predicate AllReservable(split: Split, areas: seq<(nat, nat)>) {
    && (forall i | 0 <= i < |areas| :: Reservable(split, areas[i]))
    && (forall i, j | 0 <= i < j < |areas| :: NoCommonPage(split, areas[i], areas[j]))
  }

  /** The pages in use are exactly those that the areas touch. */
  ghost predicate ReservedExactly(m: Status, split: Split, areas: seq<(nat, nat)>) {
    Encoded(m) && |m| == split.pages && forall p: nat | p < |m| :: m[p] != Free <==> Touched(split, areas, p)
  }

  lemma FreeIffApart(m: Status, split: Split, areas: seq<(nat, nat)>, area: (nat, nat))
    requires ReservedExactly(m, split, areas) && Reservable(split, area) && split.heapStart % PAGE_SIZE == 0
    ensures var (s, n) := ReservedPages(split.heapStart, area.0, area.1);
            n == 0 || RangeFree(m, s, n) <==> forall i | 0 <= i < |areas| :: NoCommonPage(split, areas[i], area)
  {
    var (s, n) := ReservedPages(split.heapStart, area.0, area.1);
    forall p: nat ensures s <= p < s + n <==> Touches(split, area, p) {
      ReservedPagesCover(split.heapStart, area.0, area.1, p);
    }
    hide ReservedPages, Overlaps, Touches, Reservable;
    if n == 0 || RangeFree(m, s, n) {
      forall i, p: nat | 0 <= i < |areas| && Touches(split, areas[i], p) ensures !Touches(split, area, p) {
        assert p < |m| ==> Touched(split, areas, p);
      }
    }
  }

  lemma MarkedExactly(m: Status, split: Split, areas: seq<(nat, nat)>, area: (nat, nat), r: Status)
    requires ReservedExactly(m, split, areas) && Reservable(split, area) && split.heapStart % PAGE_SIZE == 0
    requires var (s, n) := ReservedPages(split.heapStart, area.0, area.1);
             if n == 0 then r == m else RangeFree(m, s, n) && r == Marked(m, s, n)
    ensures ReservedExactly(r, split, areas + [area])
  {
    var (s, n) := ReservedPages(split.heapStart, area.0, area.1);
    if n > 0 { MarkAddsRun(m, s, n); }
    hide ReservedPages, Overlaps, Encoded;
    forall p: nat | p < |r| ensures r[p] != Free <==> Touched(split, areas + [area], p) {
      ReservedPagesCover(split.heapStart, area.0, area.1, p);
      TouchedMore(split, areas, area, p);
    }
  }

  lemma TouchedMore(split: Split, areas: seq<(nat, nat)>, area: (nat, nat), p: nat)
    ensures Touched(split, areas + [area], p) <==> Touched(split, areas, p) || Touches(split, area, p)
  {
    hide Touches;
    var more := areas + [area];
    if Touched(split, areas, p) {
      var i :| 0 <= i < |areas| && Touches(split, areas[i], p);
      assert more[i] == areas[i];
    }
    assert more[|areas|] == area;
  }

  lemma AllReservableMore(split: Split, areas: seq<(nat, nat)>, area: (nat, nat))
    ensures AllReservable(split, areas + [area]) <==>
            && AllReservable(split, areas) && Reservable(split, area)
            && forall i | 0 <= i < |areas| :: NoCommonPage(split, areas[i], area)
  {
    hide Reservable, NoCommonPage;
    var more := areas + [area];
    assert more[|areas|] == area && forall i | 0 <= i < |areas| :: more[i] == areas[i];
  }

  /** init(): it gets through without a panic exactly if the assertions on the split
      hold and the areas can be reserved, and then exactly the pages that some area
      touches are in use. */
  method Init(base: nat, size: nat, areas: seq<(nat, nat)>) returns (pa: MetadataPageAllocator, ok: bool)
    requires forall i | 0 <= i < |areas| :: areas[i].0 <= areas[i].1
    ensures ok <==> InitAsserts(base, size) && AllReservable(SplitRegion(base, size), areas)
    ensures ok ==> pa.Valid() && ReservedExactly(pa.metadata[..], SplitRegion(base, size), areas)
  {
    var split := SplitRegion(base, size);
    pa := new MetadataPageAllocator(split.pages);
    if !InitAsserts(base, size) { return pa, false; }
    hide InitAsserts, SplitRegion;
    ok := true;
    assert areas[..0] == [] && areas[..|areas|] == areas;
    for k := 0 to |areas|
      invariant fresh(pa.metadata) && fresh(pa.mem) && pa.Valid()
      invariant ReservedExactly(pa.metadata[..], split, areas[..k]) && AllReservable(split, areas[..k])
    {
      ghost var m := pa.metadata[..];
      assert areas[..k + 1] == areas[..k] + [areas[k]];
      AllReservableMore(split, areas[..k], areas[k]);
      ok := MarkReserved(pa, split.heapStart, split.heapPages, areas[k].0, areas[k].1);
      hide AllReservable, ReservedExactly;
      if Reservable(split, areas[k]) { FreeIffApart(m, split, areas[..k], areas[k]); }
      if !ok {
        NotAll(split, areas, k + 1);
        return;
      }
      MarkedExactly(m, split, areas[..k], areas[k], pa.metadata[..]);
    }
  }

  lemma NotAll(split: Split, areas: seq<(nat, nat)>, k: nat)
    requires k <= |areas| && !AllReservable(split, areas[..k])
    ensures !AllReservable(split, areas)
  {
    hide Reservable, NoCommonPage;
    assert forall i | 0 <= i < k :: areas[..k][i] == areas[i];
  }

  // ---------------------------------------------------------------- runs

  /** Allocated runs are runs, and the reserved pages are used by none of them. */
  ghost predicate Kept(a: Pages, reserved: set<nat>) {
    && Encoded(a.m)
    && (forall s | s in a.live :: IsRun(a.m, s, a.live[s]))
    && (forall p | p in reserved :: p < |a.m| && a.m[p] != Free)
    && (forall p, s | p in reserved && s in a.live :: !(s <= p < s + a.live[s]))
  }

  lemma KeptByAlloc(a: Pages, reserved: set<nat>, s: nat, n: nat)
    requires Kept(a, reserved) && n > 0 && RangeFree(a.m, s, n)
    ensures Kept(Pages(Marked(a.m, s, n), a.live[s := n]), reserved)
  {
    MarkAddsRun(a.m, s, n);
  }

  lemma KeptByDealloc(a: Pages, reserved: set<nat>, s: nat)
    requires Kept(a, reserved) && s in a.live
    ensures s < |a.m| && a.m[s] != Free && ToLast(a.m, s) == a.live[s]
    ensures Kept(Pages(Freed(a.m, s, a.live[s]), a.live - {s}), reserved)
  {
    FreeRemovesRun(a.m, s, a.live[s]);
  }

  /** Over any run of allocations and deallocations of allocated runs, no
      allocation ever overlaps a reserved page. */
  lemma {:induction false} ReservedNeverReturned(trace: seq<Pages>, reserved: set<nat>, i: nat)
    requires i < |trace| && Kept(trace[0], reserved)
    requires forall j | 0 <= j < |trace| - 1 :: PageStep(trace[j], trace[j + 1])
    ensures Kept(trace[i], reserved)
  {
    if i > 0 {
      ReservedNeverReturned(trace, reserved, i - 1);
      var a, b := trace[i - 1], trace[i];
      assert PageStep(trace[i - 1], trace[i - 1 + 1]);
      if s: nat, n: nat :| n > 0 && RangeFree(a.m, s, n) && b == Pages(Marked(a.m, s, n), a.live[s := n]) {
        KeptByAlloc(a, reserved, s, n);
      } else if b != a {
        var s :| s in a.live && s < |a.m| && a.m[s] != Free && b == Pages(Freed(a.m, s, ToLast(a.m, s)), a.live - {s});
        KeptByDealloc(a, reserved, s);
      }
    }
  }

  /** What init() leaves is a start for such runs. */
  lemma KeptAtFirst(m: Status, split: Split, areas: seq<(nat, nat)>, reserved: set<nat>)
    requires ReservedExactly(m, split, areas) && forall p | p in reserved :: p < split.pages && Touched(split, areas, p)
    ensures Kept(Pages(m, map[]), reserved)
  {
  }

  /** After init(), whatever is allocated and freed, no byte of a reserved area lies
      in a page that is handed out, and its pages stay in use. */
  lemma ReservedAreasSafe(base: nat, size: nat, areas: seq<(nat, nat)>, trace: seq<Pages>, i: nat, k: nat, p: nat)
    requires InitAsserts(base, size) && AllReservable(SplitRegion(base, size), areas)
    requires i < |trace| && trace[0].live == map[] && ReservedExactly(trace[0].m, SplitRegion(base, size), areas)
    requires forall j | 0 <= j < |trace| - 1 :: PageStep(trace[j], trace[j + 1])
    requires k < |areas| && Touches(SplitRegion(base, size), areas[k], p)
    ensures p < |trace[i].m| && trace[i].m[p] != Free
    ensures forall s | s in trace[i].live :: !(s <= p < s + trace[i].live[s])
  {
    var split := SplitRegion(base, size);
    assert Reservable(split, areas[k]);
    ReservedPagesCover(split.heapStart, areas[k].0, areas[k].1, p);
    assert p < split.pages;
    hide PageStep, Touches, ReservedExactly, SplitRegion, InitAsserts;
    KeptAtFirst(trace[0].m, split, areas, {p});
    ReservedNeverReturned(trace, {p}, i);
  }
}
