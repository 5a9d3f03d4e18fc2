/** The kernel heap: an intrusive first-fit free list on top of the page
    allocator. Block headers live in the memory that is being managed. */
module KernelHeap {
  import opened Wrappers
  import opened PageAllocator
  import opened PageInit

  /** Addresses count 8-byte words from the start of the heap pages; sizes count
      bytes, as in the source. A stored pointer to word w is w + 1, and 0 is null. */
  datatype Block = Block(addr: nat, size: nat) {
    ghost function End(): nat { addr + size / 8 }
  }

  const METADATA_SIZE: nat := 16
  const DATA_ALIGNMENT: nat := 8
  const MINIMUM_SIZE: nat := METADATA_SIZE + DATA_ALIGNMENT

  datatype Layout = Layout(size: nat, align: nat)

  /** What GlobalAlloc demands of layouts. */
  predicate LayoutOk(l: Layout) { 0 < l.size && 0 < l.align }

  predicate UsesPages(l: Layout) { l.size >= PAGE_SIZE || l.align > DATA_ALIGNMENT }

  ghost predicate Multiple(a: nat, b: nat) { exists n: nat :: a == b * n }

  /** Of the numbers up to 8 only those that divide 8 divide a page. */
  lemma SmallDivisors(align: nat)
    requires 0 < align <= 8 && Multiple(4096, align)
    ensures Multiple(8, align)
  {
    var n: nat :| 4096 == align * n;
    if align == 3 || align == 5 || align == 6 || align == 7 { assert false; }
    assert 8 == align * (8 / align);
  }

  /** Addresses are multiples of every alignment that divides a page, if whatever is
      aligned to more than 8 starts a page. */
  lemma AlignmentMet(align: nat, word: nat)
    requires 0 < align && Multiple(4096, align) && (align > 8 ==> word % 512 == 0)
    ensures Multiple(word * 8, align)
  {
    if align <= 8 {
      SmallDivisors(align);
      var n: nat :| 8 == align * n;
      assert word * 8 == align * (n * word);
    } else {
      var n: nat :| 4096 == align * n;
      var k := word / 512;
      assert word * 8 == 4096 * k == align * (n * k);
    }
  }

  /** AlignedSizeWithMetadata::from_layout */
  function Rounded(l: Layout): (size: nat)
    ensures size % 8 == 0 && if l.size <= 24 then size == 24 else l.size <= size < l.size + 8
  {
    AlignUp(if l.size < MINIMUM_SIZE then MINIMUM_SIZE else l.size, DATA_ALIGNMENT)
  }

  // ------------------------------------------------------------------ extents

  predicate WellSized(b: Block) { MINIMUM_SIZE <= b.size && b.size % 8 == 0 }

  ghost predicate Apart(a: Block, b: Block) { a.End() <= b.addr || b.End() <= a.addr }

  ghost predicate Within(a: Block, b: Block) { b.addr <= a.addr && a.End() <= b.End() }

  ghost predicate AllApart(s: set<Block>) {
    forall a, b | a in s && b in s && a != b :: Apart(a, b)
  }

  /** Inside one of the pages obtained for small blocks. */
  ghost predicate InPage(b: Block, page: nat) {
    page * PAGE_WORDS <= b.addr && b.End() <= (page + 1) * PAGE_WORDS
  }

  ghost predicate Placed(b: Block, small: set<nat>) {
    WellSized(b) && exists p :: p in small && InPage(b, p)
  }

  /** Replacing a block by two apart pieces of it keeps everything apart. */
  lemma ReplaceApart(s: set<Block>, b: Block, x: Block, y: Block)
    requires AllApart(s) && b in s && WellSized(x) && WellSized(y)
    requires Within(x, b) && Within(y, b) && (x == y || Apart(x, y))
    ensures AllApart(s - {b} + {x, y}) && x !in s - {b} && y !in s - {b}
  {
    forall c | c in s - {b} ensures Apart(c, x) && Apart(c, y) && c != x && c != y {
      assert Apart(c, b);
    }
  }

  lemma AddApart(s: set<Block>, b: Block)
    requires AllApart(s) && WellSized(b) && forall c | c in s :: Apart(b, c)
    ensures AllApart(s + {b}) && b !in s
  {
  }

  // ---------------------------------------------------------------- free list

  function Stored(next: Option<nat>): nat { if next.None? then 0 else next.value + 1 }

  function Link(free: seq<Block>, i: nat): nat { if i < |free| then free[i].addr + 1 else 0 }

  predicate Header(mem: seq<nat>, free: seq<Block>, i: nat)
    requires i < |free|
  {
    free[i].addr + 1 < |mem| && mem[free[i].addr] == Link(free, i + 1) && mem[free[i].addr + 1] == free[i].size
  }

  /** The headers in memory spell out the list. */
  ghost predicate Chain(mem: seq<nat>, first: nat, free: seq<Block>) {
    first == Link(free, 0) && forall i | 0 <= i < |free| :: Header(mem, free, i)
  }

  function Bytes(free: seq<Block>): nat { if free == [] then 0 else free[0].size + Bytes(free[1..]) }

  lemma {:induction false} BytesConcat(a: seq<Block>, b: seq<Block>)
    ensures Bytes(a + b) == Bytes(a) + Bytes(b)
  {
    if a == [] {
      assert a + b == b;
    } else {
      assert (a + b)[1..] == a[1..] + b;
      BytesConcat(a[1..], b);
    }
  }

  lemma {:induction false} BytesRemove(free: seq<Block>, i: nat)
    requires i < |free|
    ensures Bytes(free) == Bytes(free[..i] + free[i + 1..]) + free[i].size
  {
    if i == 0 {
      assert free[..0] + free[1..] == free[1..];
    } else {
      BytesRemove(free[1..], i - 1);
      assert (free[..i] + free[i + 1..])[1..] == free[1..][..i - 1] + free[1..][i..];
    }
  }

  // --------------------------------------------------------------------- sums

  ghost function Sum(m: map<nat, nat>): nat {
    if m == map[] then 0 else var k :| k in m; m[k] + Sum(m - {k})
  }

  lemma {:induction false} SumRemove(m: map<nat, nat>, k: nat)
    requires k in m
    ensures Sum(m) == m[k] + Sum(m - {k})
    decreases |m|
  {
    var j :| j in m && Sum(m) == m[j] + Sum(m - {j});
    if j != k {
      SumRemove(m - {j}, k);
      SumRemove(m - {k}, j);
      assert m - {j} - {k} == m - {k} - {j};
    }
  }

  lemma SumInsert(m: map<nat, nat>, k: nat, v: nat)
    requires k !in m
    ensures Sum(m[k := v]) == Sum(m) + v
  {
    SumRemove(m[k := v], k);
    assert m[k := v] - {k} == m;
  }

  // ------------------------------------------------------------- the ledger

  /** What the heap stands for: the free list, the live small allocations (bytes
      by address), the live page allocations (pages by start page), the pages
      obtained for small blocks, and the bytes lost to refused splits. */
  datatype Ledger = Ledger(free: seq<Block>, live: map<nat, nat>, large: map<nat, nat>, small: set<nat>, slack: nat)

  ghost function FreeBlocks(l: Ledger): set<Block> { set b | b in l.free }

  ghost function LiveBlocks(l: Ledger): set<Block> { BlocksOf(l.live) }

  /** Free blocks and live allocations are apart from each other, 8-aligned, at
      least 24 bytes long, and inside pages of the page allocator. */
  ghost predicate Sane(l: Ledger) {
    && (forall i, j | 0 <= i < j < |l.free| :: l.free[i] != l.free[j])
    && FreeBlocks(l) !! LiveBlocks(l)
    && AllApart(FreeBlocks(l) + LiveBlocks(l))
    && (forall b | b in FreeBlocks(l) + LiveBlocks(l) :: Placed(b, l.small))
  }

  ghost predicate OwnsPages(m: Status, l: Ledger) {
    && Encoded(m)
    && (forall p | p in l.small :: IsRun(m, p, 1))
    && (forall s | s in l.large :: s !in l.small && IsRun(m, s, l.large[s]))
  }

  /** Every byte of the small pages is free, live, or lost for good. */
  ghost predicate Balanced(l: Ledger) {
    Bytes(l.free) + Sum(l.live) + l.slack == |l.small| * PAGE_SIZE
  }

  ghost predicate LiveWord(l: Ledger, w: int) {
    || (exists p :: p in l.live && p <= w < p + l.live[p] / 8)
    || (exists s :: s in l.large && s * PAGE_WORDS <= w < (s + l.large[s]) * PAGE_WORDS)
  }

  function Removed(free: seq<Block>, i: nat): seq<Block>
    requires i < |free|
  {
    free[..i] + free[i + 1..]
  }

  /** No two headers share a word. */
  ghost predicate HeadersApart(free: seq<Block>) {
    forall i, j | 0 <= i < |free| && 0 <= j < |free| && i != j ::
      free[i].addr + 2 <= free[j].addr || free[j].addr + 2 <= free[i].addr
  }

  lemma SaneHeaders(l: Ledger)
    requires Sane(l)
    ensures HeadersApart(l.free)
  {
    forall i, j | 0 <= i < |l.free| && 0 <= j < |l.free| && i != j
      ensures l.free[i].addr + 2 <= l.free[j].addr || l.free[j].addr + 2 <= l.free[i].addr
    {
      var a, b := l.free[i], l.free[j];
      assert a in FreeBlocks(l) && b in FreeBlocks(l) && a != b;
      assert Apart(a, b) && Placed(a, l.small) && Placed(b, l.small);
    }
  }

  /** Memory after block `i` was taken out of the list. */
  ghost function Unlinked(mem: seq<nat>, free: seq<Block>, i: nat): seq<nat>
    requires i < |free| && Header(mem, free, i) && (i > 0 ==> Header(mem, free, i - 1))
  {
    var cleared := mem[free[i].addr := 0];
    if i == 0 then cleared else cleared[free[i - 1].addr := Link(free, i + 1)]
  }

  lemma UnlinkChain(mem: seq<nat>, first: nat, free: seq<Block>, i: nat)
    requires Chain(mem, first, free) && HeadersApart(free) && i < |free|
    ensures Header(mem, free, i) && (i > 0 ==> Header(mem, free, i - 1))
    ensures Chain(Unlinked(mem, free, i), if i == 0 then Link(free, 1) else first, Removed(free, i))
  {
    var rest, after := Removed(free, i), Unlinked(mem, free, i);
    forall j | 0 <= j < |rest| ensures Header(after, rest, j) {
      var k := if j < i then j else j + 1;
      assert rest[j] == free[k] && Header(mem, free, k);
      assert k != i - 1 ==> Link(rest, j + 1) == Link(free, k + 1);
      if i > 0 { assert Header(mem, free, i - 1); }
    }
  }

  lemma InsertChain(mem: seq<nat>, first: nat, free: seq<Block>, b: Block)
    requires Chain(mem, first, free) && b.addr + 1 < |mem| && mem[b.addr + 1] == b.size
    requires forall i | 0 <= i < |free| :: b.addr + 2 <= free[i].addr || free[i].addr + 2 <= b.addr
    ensures Chain(mem[b.addr := first], b.addr + 1, [b] + free)
  {
    var list, after := [b] + free, mem[b.addr := first];
    assert Header(after, list, 0);
    forall i | 0 <= i < |list| ensures Header(after, list, i) {
      if i > 0 { assert list[i] == free[i - 1] && Header(mem, free, i - 1); }
    }
  }

  /** Writes outside the headers do not disturb the list. */
  lemma ChainFrame(mem: seq<nat>, after: seq<nat>, first: nat, free: seq<Block>)
    requires Chain(mem, first, free) && |mem| == |after|
    requires forall i | 0 <= i < |free| && free[i].addr + 1 < |mem| ::
               after[free[i].addr] == mem[free[i].addr] && after[free[i].addr + 1] == mem[free[i].addr + 1]
    ensures Chain(after, first, free)
  {
    forall i | 0 <= i < |free| ensures Header(after, free, i) { assert Header(mem, free, i); }
  }

  // --------------------------------------------------- what operations book

  /** Position of the first block that is large enough. */
  function FirstFit(free: seq<Block>, requested: nat): (f: Option<nat>)
    ensures f.Some? ==> f.value < |free| && requested <= free[f.value].size
    ensures f.Some? ==> forall j | 0 <= j < f.value :: free[j].size < requested
    ensures f.None? ==> forall b | b in free :: b.size < requested
  {
    if free == [] then None
    else if requested <= free[0].size then Some(0)
    else match FirstFit(free[1..], requested)
      case None => None
      case Some(i) => assert forall j | 0 < j < i + 1 :: free[j] == free[1..][j - 1]; Some(i + 1)
  }

  lemma FirstFitUnique(free: seq<Block>, requested: nat, i: nat)
    requires i < |free| && requested <= free[i].size && forall j | 0 <= j < i :: free[j].size < requested
    ensures FirstFit(free, requested) == Some(i)
  {
    assert free[i] in free;
  }

  /** `page` is the lowest page that is free. */
  predicate LowestFree(m: Status, page: nat) {
    RangeFree(m, page, 1) && forall s | 0 <= s < page :: !RangeFree(m, s, 1)
  }

  predicate Splits(size: nat, requested: nat) { requested + MINIMUM_SIZE <= size }

  /** Block `i` leaves the list for a request; a large enough rest goes back to
      the front of the list, a smaller one is lost. */
  function Taken(l: Ledger, i: nat, requested: nat): Ledger
    requires i < |l.free| && requested <= l.free[i].size
  {
    var b := l.free[i];
    var live := l.live[b.addr := requested];
    if Splits(b.size, requested) then
      l.(free := [Block(b.addr + requested / 8, b.size - requested)] + Removed(l.free, i), live := live)
    else l.(free := Removed(l.free, i), live := live, slack := l.slack + b.size - requested)
  }

  function PageBlock(page: nat): Block { Block(page * PAGE_WORDS, PAGE_SIZE) }

  /** A page has been obtained for small blocks. */
  function WithPage(l: Ledger, page: nat): Ledger { l.(free := [PageBlock(page)] + l.free, small := l.small + {page}) }

  function Given(l: Ledger, p: nat): Ledger
    requires p in l.live
  {
    l.(free := [Block(p, l.live[p])] + l.free, live := l.live - {p})
  }

  /** How a small request of `size` bytes is served: from the first block that is
      large enough; else from the lowest free page; else not at all. */
  predicate Serves(m: Status, l: Ledger, size: nat, ptr: Option<nat>, m': Status, l': Ledger) {
    match FirstFit(l.free, size)
    case Some(i) => ptr == Some(l.free[i].addr) && m' == m && l' == Taken(l, i, size)
    case None =>
      match ptr
      case None => m' == m && l' == l && forall s | 0 <= s < |m| :: m[s] != Free
      case Some(p) =>
        && p % PAGE_WORDS == 0 && LowestFree(m, p / PAGE_WORDS) && size <= PAGE_SIZE
        && m' == Marked(m, p / PAGE_WORDS, 1) && l' == Taken(WithPage(l, p / PAGE_WORDS), 0, size)
  }

  lemma NoFirstFit(free: seq<Block>, requested: nat)
    requires forall b | b in free :: b.size < requested
    ensures FirstFit(free, requested) == None
  {
  }

  /** A small request fails exactly if no block is large enough and no page is free. */
  lemma ServedOrNot(m: Status, l: Ledger, size: nat, ptr: Option<nat>, m': Status, l': Ledger)
    requires Serves(m, l, size, ptr, m', l')
    ensures ptr.None? <==> (forall b | b in l.free :: b.size < size) && forall s | 0 <= s < |m| :: m[s] != Free
    ensures l'.large == l.large
  {
    var f := FirstFit(l.free, size);
    if f.Some? {
      assert l.free[f.value] in l.free;
    } else if ptr.Some? {
      assert RangeFree(m, ptr.value / PAGE_WORDS, 1) && m[ptr.value / PAGE_WORDS] == Free;
    }
  }

  lemma NoFreePage(m: Status)
    requires forall s: nat :: !RangeFree(m, s, 1)
    ensures forall s | 0 <= s < |m| :: m[s] != Free
  {
    forall s | 0 <= s < |m| ensures m[s] != Free { assert !RangeFree(m, s, 1); }
  }

  lemma RemovedBlocks(free: seq<Block>, i: nat)
    requires i < |free| && forall j, k | 0 <= j < k < |free| :: free[j] != free[k]
    ensures (set b | b in Removed(free, i)) == (set b | b in free) - {free[i]}
    ensures forall j, k | 0 <= j < k < |Removed(free, i)| :: Removed(free, i)[j] != Removed(free, i)[k]
  {
    var rest := Removed(free, i);
    forall b | b in free && b != free[i] ensures b in rest {
      var k :| 0 <= k < |free| && free[k] == b;
      assert rest[if k < i then k else k - 1] == b;
    }
  }

  lemma PlacedWithin(x: Block, b: Block, small: set<nat>)
    requires Placed(b, small) && WellSized(x) && Within(x, b)
    ensures Placed(x, small)
  {
    var p :| p in small && InPage(b, p);
    assert InPage(x, p);
  }

  ghost function BlocksOf(live: map<nat, nat>): set<Block> { set p | p in live :: Block(p, live[p]) }

  lemma InsertLive(live: map<nat, nat>, p: nat, size: nat)
    requires p !in live
    ensures BlocksOf(live[p := size]) == BlocksOf(live) + {Block(p, size)}
  {
    forall b | b in BlocksOf(live) ensures b in BlocksOf(live[p := size]) {
      assert b.addr in live[p := size];
    }
    assert p in live[p := size];
  }

  lemma RemoveLive(live: map<nat, nat>, p: nat)
    requires p in live
    ensures BlocksOf(live - {p}) == BlocksOf(live) - {Block(p, live[p])}
  {
    forall b | b in BlocksOf(live) && b != Block(p, live[p]) ensures b in BlocksOf(live - {p}) {
      assert b.addr in live - {p};
    }
  }

  lemma FreeNotLive(l: Ledger, b: Block)
    requires Sane(l) && b in FreeBlocks(l)
    ensures b.addr !in l.live
  {
    forall p | p in l.live ensures p != b.addr {
      assert Block(p, l.live[p]) in LiveBlocks(l);
      assert Apart(b, Block(p, l.live[p])) && Placed(b, l.small) && Placed(Block(p, l.live[p]), l.small);
    }
  }

  lemma TakenSane(l: Ledger, i: nat, requested: nat)
    requires Sane(l) && i < |l.free| && MINIMUM_SIZE <= requested <= l.free[i].size && requested % 8 == 0
    ensures l.free[i].addr !in l.live && Sane(Taken(l, i, requested))
  {
    hide InPage, Apart;
    var b := l.free[i];
    var t := Taken(l, i, requested);
    var x := Block(b.addr, requested);
    var y := if Splits(b.size, requested) then t.free[0] else x;
    assert b in FreeBlocks(l) && Placed(b, l.small);
    FreeNotLive(l, b);
    RemovedBlocks(l.free, i);
    if Splits(b.size, requested) { PiecesApart(b, requested); }
    ReplaceApart(FreeBlocks(l) + LiveBlocks(l), b, x, y);
    PlacedWithin(x, b, l.small);
    PlacedWithin(y, b, l.small);
    InsertLive(l.live, b.addr, requested);
    assert FreeBlocks(t) == FreeBlocks(l) - {b} + (if x == y then {} else {y});
    assert FreeBlocks(t) + LiveBlocks(t) == FreeBlocks(l) + LiveBlocks(l) - {b} + {x, y};
  }

  lemma PiecesApart(b: Block, requested: nat)
    requires WellSized(b) && Splits(b.size, requested) && requested % 8 == 0
    ensures Apart(Block(b.addr, requested), Block(b.addr + requested / 8, b.size - requested))
  {
  }

  lemma {:induction false} TakenBalanced(l: Ledger, i: nat, requested: nat)
    requires Balanced(l) && i < |l.free| && requested <= l.free[i].size && l.free[i].addr !in l.live
    ensures Balanced(Taken(l, i, requested))
  {
    BytesRemove(l.free, i);
    SumInsert(l.live, l.free[i].addr, requested);
    if Splits(l.free[i].size, requested) {
      BytesConcat([Block(l.free[i].addr + requested / 8, l.free[i].size - requested)], Removed(l.free, i));
    }
  }

  lemma GivenSane(l: Ledger, p: nat)
    requires Sane(l) && p in l.live
    ensures Sane(Given(l, p))
  {
    hide Placed, Apart;
    var b := Block(p, l.live[p]);
    var g := Given(l, p);
    RemoveLive(l.live, p);
    assert b in LiveBlocks(l);
    assert FreeBlocks(g) == FreeBlocks(l) + {b};
    assert FreeBlocks(g) + LiveBlocks(g) == FreeBlocks(l) + LiveBlocks(l);
    assert forall i | 0 <= i < |l.free| :: l.free[i] in FreeBlocks(l);
  }

  lemma GivenBalanced(l: Ledger, p: nat)
    requires Balanced(l) && p in l.live
    ensures Balanced(Given(l, p)) && Sum(l.live) == l.live[p] + Sum(l.live - {p})
  {
    SumRemove(l.live, p);
    BytesConcat([Block(p, l.live[p])], l.free);
  }

  /** Freshly allocated pages hold no block yet. */
  lemma FreshPagesApart(m: Status, l: Ledger, page: nat, n: nat, b: Block)
    requires OwnsPages(m, l) && n > 0 && RangeFree(m, page, n) && Placed(b, l.small)
    ensures b.End() <= page * PAGE_WORDS || (page + n) * PAGE_WORDS <= b.addr
  {
    var p :| p in l.small && InPage(b, p);
    RunAvoidsFree(m, page, n, p, 1);
  }

  lemma WithPageSane(m: Status, l: Ledger, page: nat)
    requires Sane(l) && OwnsPages(m, l) && RangeFree(m, page, 1)
    ensures page !in l.small && Sane(WithPage(l, page))
  {
    hide InPage, OwnsPages;
    var b, w := PageBlock(page), WithPage(l, page);
    var all := FreeBlocks(l) + LiveBlocks(l);
    FreshPage(m, l, page);
    forall c | c in all ensures Apart(b, c) { FreshPagesApart(m, l, page, 1, c); assert Apart(b, c); }
    AddApart(all, b);
    assert FreeBlocks(w) == FreeBlocks(l) + {b};
    assert FreeBlocks(w) + LiveBlocks(w) == all + {b};
    forall c | c in all + {b} ensures Placed(c, w.small) { PlacedGrows(c, l.small, page); }
    assert forall i | 0 <= i < |l.free| :: l.free[i] in FreeBlocks(l);
  }

  lemma FreshPage(m: Status, l: Ledger, page: nat)
    requires OwnsPages(m, l) && RangeFree(m, page, 1)
    ensures page !in l.small && page !in l.large
  {
    forall s | s in l.large ensures s != page { RunPage(m, s, l.large[s], s); }
  }

  lemma PlacedGrows(b: Block, small: set<nat>, page: nat)
    requires Placed(b, small) || b == PageBlock(page)
    ensures Placed(b, small + {page})
  {
    if Placed(b, small) {
      var p :| p in small && InPage(b, p);
      assert p in small + {page};
    } else {
      assert page in small + {page} && InPage(b, page);
    }
  }

  lemma WithPageOwns(m: Status, l: Ledger, page: nat)
    requires OwnsPages(m, l) && RangeFree(m, page, 1)
    ensures OwnsPages(Marked(m, page, 1), WithPage(l, page)) && page < |m|
    ensures var w := WithPage(l, page);
            && w.free == [PageBlock(page)] + l.free && Removed(w.free, 0) == l.free
            && w.live == l.live && w.large == l.large && w.slack == l.slack
  {
    MarkAddsRun(m, page, 1);
    FreshPage(m, l, page);
  }

  lemma WithPageBalanced(l: Ledger, page: nat)
    requires Balanced(l) && page !in l.small
    ensures Balanced(WithPage(l, page))
  {
    BytesConcat([PageBlock(page)], l.free);
  }

  /** Nothing inside a free block belongs to a live allocation. */
  lemma FreeWordNotLive(m: Status, l: Ledger, b: Block, w: nat)
    requires Sane(l) && OwnsPages(m, l) && b in FreeBlocks(l) && b.addr <= w < b.End()
    ensures !LiveWord(l, w)
  {
    hide WellSized;
    var page :| page in l.small && InPage(b, page);
    forall p | p in l.live ensures !(p <= w < p + l.live[p] / 8) {
      assert Block(p, l.live[p]) in LiveBlocks(l);
      assert Apart(b, Block(p, l.live[p]));
    }
    forall s | s in l.large ensures !(s * PAGE_WORDS <= w < (s + l.large[s]) * PAGE_WORDS) {
      RunsDisjoint(m, page, 1, s, l.large[s]);
    }
  }

  lemma TakenSized(l: Ledger, i: nat)
    requires Sane(l) && i < |l.free|
    ensures Placed(l.free[i], l.small)
  {
    assert l.free[i] in FreeBlocks(l);
  }

  /** The other headers lie outside block `i`. */
  lemma RestApart(l: Ledger, i: nat)
    requires Sane(l) && i < |l.free|
    ensures forall j | 0 <= j < |Removed(l.free, i)| ::
              Removed(l.free, i)[j].addr + 2 <= l.free[i].addr || l.free[i].End() <= Removed(l.free, i)[j].addr
  {
    forall j | 0 <= j < |Removed(l.free, i)|
      ensures Removed(l.free, i)[j].addr + 2 <= l.free[i].addr || l.free[i].End() <= Removed(l.free, i)[j].addr
    {
      var k := if j < i then j else j + 1;
      assert Removed(l.free, i)[j] == l.free[k] && l.free[k] != l.free[i];
      assert l.free[k] in FreeBlocks(l) && l.free[i] in FreeBlocks(l);
      assert Apart(l.free[k], l.free[i]) && Placed(l.free[k], l.small);
    }
  }

  lemma BlockFits(m: Status, l: Ledger, i: nat)
    requires Sane(l) && OwnsPages(m, l) && i < |l.free|
    ensures l.free[i].End() <= |m| * PAGE_WORDS && l.free[i].addr + 2 <= l.free[i].End()
  {
    assert l.free[i] in FreeBlocks(l) && Placed(l.free[i], l.small);
    var p :| p in l.small && InPage(l.free[i], p);
    assert IsRun(m, p, 1);
  }

  lemma HeaderNotLive(m: Status, l: Ledger, i: nat)
    requires Sane(l) && OwnsPages(m, l) && i < |l.free|
    ensures !LiveWord(l, l.free[i].addr)
  {
    hide Sane, OwnsPages, LiveWord;
    BlockFits(m, l, i);
    assert l.free[i] in FreeBlocks(l);
    FreeWordNotLive(m, l, l.free[i], l.free[i].addr);
  }

  lemma FreshWordNotLive(m: Status, l: Ledger, page: nat, n: nat, w: nat)
    requires Sane(l) && OwnsPages(m, l) && n > 0 && RangeFree(m, page, n) && LiveWord(l, w)
    ensures !(page * PAGE_WORDS <= w < (page + n) * PAGE_WORDS)
  {
    if p :| p in l.live && p <= w < p + l.live[p] / 8 {
      assert Block(p, l.live[p]) in LiveBlocks(l);
      FreshPagesApart(m, l, page, n, Block(p, l.live[p]));
    } else {
      var s :| s in l.large && s * PAGE_WORDS <= w < (s + l.large[s]) * PAGE_WORDS;
      RunAvoidsFree(m, page, n, s, l.large[s]);
    }
  }

  lemma FreshPagesChain(m: Status, l: Ledger, page: nat, n: nat, mem: seq<nat>, after: seq<nat>, first: nat)
    requires Sane(l) && OwnsPages(m, l) && n > 0 && RangeFree(m, page, n)
    requires Chain(mem, first, l.free) && |mem| == |after|
    requires forall w | 0 <= w < |mem| && !(page * PAGE_WORDS <= w < (page + n) * PAGE_WORDS) :: after[w] == mem[w]
    ensures Chain(after, first, l.free)
  {
    forall i | 0 <= i < |l.free| && l.free[i].addr + 1 < |mem|
      ensures after[l.free[i].addr] == mem[l.free[i].addr] && after[l.free[i].addr + 1] == mem[l.free[i].addr + 1]
    {
      assert l.free[i] in FreeBlocks(l) && Placed(l.free[i], l.small);
      FreshPagesApart(m, l, page, n, l.free[i]);
    }
    ChainFrame(mem, after, first, l.free);
  }

  function WithRun(l: Ledger, page: nat, n: nat): Ledger { l.(large := l.large[page := n]) }

  function WithoutRun(l: Ledger, page: nat): Ledger { l.(large := l.large - {page}) }

  lemma WithRunOwns(m: Status, l: Ledger, page: nat, n: nat)
    requires OwnsPages(m, l) && n > 0 && RangeFree(m, page, n)
    ensures page !in l.large && OwnsPages(Marked(m, page, n), WithRun(l, page, n))
  {
    MarkAddsRun(m, page, n);
    forall s | s in l.large ensures s != page { RunAvoidsFree(m, page, n, s, l.large[s]); }
    forall s | s in l.small ensures s != page { RunAvoidsFree(m, page, n, s, 1); }
  }

  /** The run in the status array is as long as the request was. */
  lemma WithoutRunOwns(m: Status, l: Ledger, page: nat)
    requires OwnsPages(m, l) && page in l.large
    ensures RunStart(m, page) && ToLast(m, page) == l.large[page]
    ensures OwnsPages(Freed(m, page, l.large[page]), WithoutRun(l, page))
  {
    FreeRemovesRun(m, page, l.large[page]);
    RunPage(m, page, l.large[page], page);
  }

  lemma GivenHeadersApart(l: Ledger, p: nat)
    requires Sane(l) && p in l.live
    ensures forall i | 0 <= i < |l.free| :: p + 2 <= l.free[i].addr || l.free[i].addr + 2 <= p
  {
    GivenSane(l, p);
    SaneHeaders(Given(l, p));
    var list := Given(l, p).free;
    forall i | 0 <= i < |l.free| ensures p + 2 <= l.free[i].addr || l.free[i].addr + 2 <= p {
      assert list[0].addr == p && list[i + 1] == l.free[i];
    }
  }

  lemma GivenFits(m: Status, l: Ledger, p: nat)
    requires Sane(l) && OwnsPages(m, l) && p in l.live
    ensures p + l.live[p] / 8 <= |m| * PAGE_WORDS && WellSized(Block(p, l.live[p]))
  {
    assert Block(p, l.live[p]) in LiveBlocks(l) && Placed(Block(p, l.live[p]), l.small);
    var q :| q in l.small && InPage(Block(p, l.live[p]), q);
    assert IsRun(m, q, 1);
  }

  /** Words written by the owner of a live allocation are no free-list headers. */
  lemma LiveWordNotHeader(m: Status, l: Ledger, i: nat, w: nat)
    requires Sane(l) && OwnsPages(m, l) && i < |l.free| && LiveWord(l, w)
    ensures w != l.free[i].addr && w != l.free[i].addr + 1
  {
    hide Sane, OwnsPages, LiveWord;
    BlockFits(m, l, i);
    assert l.free[i] in FreeBlocks(l);
    FreeWordNotLive(m, l, l.free[i], l.free[i].addr);
    FreeWordNotLive(m, l, l.free[i], l.free[i].addr + 1);
  }

  /** The pointer reached after following n links. */
  function Walk(mem: seq<nat>, first: nat, n: nat): nat {
    if n == 0 then first
    else
      var p := Walk(mem, first, n - 1);
      if p == 0 || p > |mem| then 0 else mem[p - 1]
  }

  lemma {:induction false} WalkFollowsList(mem: seq<nat>, first: nat, free: seq<Block>, n: nat)
    requires Chain(mem, first, free) && n <= |free|
    ensures Walk(mem, first, n) == Link(free, n)
  {
    if n > 0 {
      WalkFollowsList(mem, first, free, n - 1);
      assert Header(mem, free, n - 1);
    }
  }

  /** The list in memory is acyclic: it ends, and meets no block twice. */
  lemma ListAcyclic(mem: seq<nat>, first: nat, free: seq<Block>)
    requires Chain(mem, first, free) && HeadersApart(free)
    ensures Walk(mem, first, |free|) == 0
    ensures forall i, j | 0 <= i < j < |free| :: Walk(mem, first, i) != 0 && Walk(mem, first, i) != Walk(mem, first, j)
  {
    WalkFollowsList(mem, first, free, |free|);
    forall i, j | 0 <= i < j < |free| ensures Walk(mem, first, i) != 0 && Walk(mem, first, i) != Walk(mem, first, j) {
      WalkFollowsList(mem, first, free, i);
      WalkFollowsList(mem, first, free, j);
    }
  }

  lemma LiveWordSame(a: Ledger, b: Ledger, w: nat)
    requires a.live == b.live && a.large == b.large
    ensures LiveWord(a, w) <==> LiveWord(b, w)
  {
  }

  lemma SaneSame(a: Ledger, b: Ledger)
    requires Sane(a) && Balanced(a) && a.free == b.free && a.live == b.live && a.small == b.small && a.slack == b.slack
    ensures Sane(b) && Balanced(b)
  {
  }

  lemma OwnsSame(m: Status, a: Ledger, b: Ledger)
    requires OwnsPages(m, a) && a.small == b.small && a.large == b.large
    ensures OwnsPages(m, b)
  {
  }

  // ------------------------------------------------------- what comes from where

  /** What has been given back is served first: the same request gets the same block
      again, and everything is as it was before. */
  lemma FreedComesBack(m: Status, l: Ledger, p: nat, ptr: Option<nat>, m': Status, l': Ledger)
    requires p in l.live && Serves(m, Given(l, p), l.live[p], ptr, m', l')
    ensures ptr == Some(p) && m' == m && l' == l
  {
    var g := Given(l, p);
    FirstFitUnique(g.free, l.live[p], 0);
    assert Removed(g.free, 0) == l.free && (l.live - {p})[p := l.live[p]] == l.live;
  }

  /** The rest of a block that was split is served next, right behind it. */
  lemma RestComesNext(m: Status, l: Ledger, i: nat, size: nat, next: nat, ptr: Option<nat>, m': Status, l': Ledger)
    requires i < |l.free| && size + 24 <= l.free[i].size && next <= l.free[i].size - size
    requires Serves(m, Taken(l, i, size), next, ptr, m', l')
    ensures ptr == Some(l.free[i].addr + size / 8) && m' == m
  {
    FirstFitUnique(Taken(l, i, size).free, next, 0);
  }

  // ----------------------------------------------------------------- runs

  datatype HeapState = HeapState(m: Status, l: Ledger)

  /** One successful operation of the heap, as the methods below state it. */
  ghost predicate HeapStep(a: HeapState, b: HeapState) {
    || (exists size: nat, ptr: nat :: WellSized(Block(ptr, size)) && Serves(a.m, a.l, size, Some(ptr), b.m, b.l))
    || (exists page: nat, n: nat :: n > 0 && RangeFree(a.m, page, n)
         && b == HeapState(Marked(a.m, page, n), WithRun(a.l, page, n)))
    || (exists p :: p in a.l.live && b == HeapState(a.m, Given(a.l, p)))
    || (exists s: nat :: s in a.l.large && s + a.l.large[s] <= |a.m|
         && b == HeapState(Freed(a.m, s, a.l.large[s]), WithoutRun(a.l, s)))
  }

  ghost predicate Accounted(a: HeapState) { Sane(a.l) && OwnsPages(a.m, a.l) && Balanced(a.l) }

  lemma ServeKeeps(a: HeapState, b: HeapState, size: nat, ptr: nat)
    requires Accounted(a) && WellSized(Block(ptr, size)) && Serves(a.m, a.l, size, Some(ptr), b.m, b.l)
    ensures Accounted(b) && a.l.slack <= b.l.slack && ptr !in a.l.live && b.l.live == a.l.live[ptr := size]
  {
    hide Sane, OwnsPages, Balanced;
    var f := FirstFit(a.l.free, size);
    if f.Some? {
      TakenSane(a.l, f.value, size);
      TakenBalanced(a.l, f.value, size);
      OwnsSame(a.m, a.l, b.l);
    } else {
      var page := ptr / PAGE_WORDS;
      var w := WithPage(a.l, page);
      WithPageSane(a.m, a.l, page);
      WithPageBalanced(a.l, page);
      WithPageOwns(a.m, a.l, page);
      TakenSane(w, 0, size);
      TakenBalanced(w, 0, size);
      OwnsSame(b.m, w, b.l);
    }
  }

  lemma StepKeeps(a: HeapState, b: HeapState)
    requires Accounted(a) && HeapStep(a, b)
    ensures Accounted(b) && a.l.slack <= b.l.slack
  {
    hide Sane, OwnsPages, Balanced, Serves;
    if size: nat, ptr: nat :| WellSized(Block(ptr, size)) && Serves(a.m, a.l, size, Some(ptr), b.m, b.l) {
      ServeKeeps(a, b, size, ptr);
    } else if page: nat, n: nat :|
                n > 0 && RangeFree(a.m, page, n) && b == HeapState(Marked(a.m, page, n), WithRun(a.l, page, n)) {
      WithRunOwns(a.m, a.l, page, n);
      SaneSame(a.l, b.l);
    } else if p :| p in a.l.live && b == HeapState(a.m, Given(a.l, p)) {
      GivenSane(a.l, p);
      GivenBalanced(a.l, p);
      OwnsSame(a.m, a.l, b.l);
    } else {
      var s: nat :| s in a.l.large && s + a.l.large[s] <= |a.m|
        && b == HeapState(Freed(a.m, s, a.l.large[s]), WithoutRun(a.l, s));
      WithoutRunOwns(a.m, a.l, s);
      SaneSame(a.l, b.l);
    }
  }

  /** Over every run: free blocks and live allocations stay apart and inside
      owned pages, every byte is accounted for, and slack only grows. */
  lemma {:induction false} EveryRun(trace: seq<HeapState>, i: nat, j: nat)
    requires i <= j < |trace| && Accounted(trace[0])
    requires forall k | 0 <= k < |trace| - 1 :: HeapStep(trace[k], trace[k + 1])
    ensures Accounted(trace[i]) && Accounted(trace[j]) && trace[i].l.slack <= trace[j].l.slack
  {
    hide HeapStep, Accounted;
    if i < j {
      EveryRun(trace, i, j - 1);
      assert HeapStep(trace[j - 1], trace[j - 1 + 1]);
      StepKeeps(trace[j - 1], trace[j]);
    } else if i > 0 {
      EveryRun(trace, i - 1, j - 1);
      assert HeapStep(trace[j - 1], trace[j - 1 + 1]);
      StepKeeps(trace[j - 1], trace[j]);
    }
  }

  class Heap {
    const pa: MetadataPageAllocator
    var genesis: nat
    var allocatedMemory: nat
    ghost var ledger: Ledger

    ghost predicate Valid()
      reads this, pa.metadata, pa.mem
    {
      && pa.Valid()
      && OwnsPages(pa.metadata[..], ledger) && Sane(ledger)
      && Chain(pa.mem[..], genesis, ledger.free)
      && Balanced(ledger)
      && allocatedMemory == Sum(ledger.live) + Sum(ledger.large) * PAGE_SIZE
    }

    constructor (pa: MetadataPageAllocator)
      requires pa.Valid()
      ensures Valid() && this.pa == pa && ledger == Ledger([], map[], map[], {}, 0) && allocatedMemory == 0
    {
      this.pa := pa;
      genesis, allocatedMemory := 0, 0;
      ledger := Ledger([], map[], map[], {}, 0);
    }

    /** Unlinks the first block that is large enough. */
    method FindAndRemove(requested: nat, ghost free: seq<Block>) returns (block: Option<nat>, ghost i: nat)
      requires Chain(pa.mem[..], genesis, free) && HeadersApart(free)
      modifies this`genesis, pa.mem
      ensures i <= |free| && forall j | 0 <= j < i :: free[j].size < requested
      ensures block.None? ==> i == |free| && genesis == old(genesis) && pa.mem[..] == old(pa.mem[..])
      ensures block.Some? ==>
                && i < |free| && block.value == free[i].addr && requested <= free[i].size
                && genesis == (if i == 0 then Link(free, 1) else old(genesis))
                && Header(old(pa.mem[..]), free, i) && (i > 0 ==> Header(old(pa.mem[..]), free, i - 1))
                && pa.mem[..] == Unlinked(old(pa.mem[..]), free, i)
    {
      var current: Option<nat> := None;
      var next := genesis;
      i := 0;
      while next != 0
        invariant i <= |free| && next == Link(free, i)
        invariant current == if i == 0 then None else Some(free[i - 1].addr)
        invariant genesis == old(genesis) && pa.mem[..] == old(pa.mem[..])
        invariant forall j | 0 <= j < i :: free[j].size < requested
        decreases |free| - i
      {
        assert Header(pa.mem[..], free, i);
        var potential := next - 1;
        if pa.mem[potential + 1] < requested {
          current := Some(potential);
          next := pa.mem[potential];
          i := i + 1;
        } else {
          assert i > 0 ==> Header(pa.mem[..], free, i - 1);
          var rest := pa.mem[potential];
          pa.mem[potential] := 0;
          if current.None? { genesis := rest; } else { pa.mem[current.value] := rest; }
          return Some(potential), i;
        }
      }
      block := None;
    }

    /** FreeBlock::initialize */
    method Initialize(block: nat, size: nat)
      requires WellSized(Block(block, size)) && block + size / 8 <= pa.mem.Length
      modifies pa.mem
      ensures pa.mem[..] == old(pa.mem[..])[block := 0][block + 1 := size]
    {
      pa.mem[block] := 0;
      pa.mem[block + 1] := size;
    }

    /** The precondition on the link is the assertion "Heap metadata corruption". */
    method Insert(block: nat)
      requires block < pa.mem.Length && pa.mem[block] == 0
      modifies this`genesis, pa.mem
      ensures genesis == block + 1 && pa.mem[..] == old(pa.mem[..])[block := old(genesis)]
    {
      pa.mem[block] := genesis;
      genesis := block + 1;
    }

    /** FreeBlock::split */
    method Split(block: nat, requested: nat) returns (rest: nat)
      requires block + 1 < pa.mem.Length && Splits(pa.mem[block + 1], requested)
      requires WellSized(Block(block, requested)) && pa.mem[block + 1] % 8 == 0
      requires block + pa.mem[block + 1] / 8 <= pa.mem.Length
      modifies pa.mem
      ensures rest == block + requested / 8
      ensures pa.mem[..] ==
              old(pa.mem[..])[block + 1 := requested][rest := 0][rest + 1 := old(pa.mem[block + 1]) - requested]
    {
      var remaining := pa.mem[block + 1] - requested;
      rest := block + requested / 8;
      pa.mem[block + 1] := requested;
      Initialize(rest, remaining);
    }

    /** `block` is off the list; the rest beyond the request goes onto it if it
        is large enough to be a block. */
    method SplitIfNecessary(block: nat, requested: nat, ghost l: Ledger, ghost i: nat)
      requires Sane(l) && i < |l.free| && l.free[i].addr == block
      requires MINIMUM_SIZE <= requested <= l.free[i].size && requested % 8 == 0
      requires Chain(pa.mem[..], genesis, Removed(l.free, i))
      requires l.free[i].End() <= pa.mem.Length && pa.mem[block + 1] == l.free[i].size
      modifies this`genesis, pa.mem
      ensures Chain(pa.mem[..], genesis, Taken(l, i, requested).free)
      ensures forall w | 0 <= w < pa.mem.Length && !(block <= w < l.free[i].End()) :: pa.mem[w] == old(pa.mem[w])
    {
      hide Sane;
      var size := pa.mem[block + 1];
      if size - requested < MINIMUM_SIZE { return; }
      ghost var mem0 := pa.mem[..];
      assert WellSized(l.free[i]) by { TakenSized(l, i); }
      var rest := Split(block, requested);
      RestApart(l, i);
      ChainFrame(mem0, pa.mem[..], genesis, Removed(l.free, i));
      InsertChain(pa.mem[..], genesis, Removed(l.free, i), Block(rest, size - requested));
      Insert(rest);
    }

    /** A block that can serve the request, off the list: `l` is the ledger with
        the block still in it, at position `i`. */
    ghost predicate Holding(l: Ledger, i: nat, requested: nat)
      reads this, pa.metadata, pa.mem
    {
      && pa.Valid() && OwnsPages(pa.metadata[..], l) && Sane(l) && Balanced(l)
      && i < |l.free| && requested <= l.free[i].size && l.free[i].End() <= pa.mem.Length
      && Chain(pa.mem[..], genesis, Removed(l.free, i))
      && l.free[i].addr + 1 < pa.mem.Length && pa.mem[l.free[i].addr + 1] == l.free[i].size
      && l.live == ledger.live && l.large == ledger.large && l.slack == ledger.slack
    }

    method FromList(requested: nat) returns (block: Option<nat>, ghost i: nat)
      requires Valid()
      modifies this`genesis, pa.mem
      ensures block.None? ==> Valid() && genesis == old(genesis) && pa.mem[..] == old(pa.mem[..])
      ensures block.None? ==> forall b | b in ledger.free :: b.size < requested
      ensures block.Some? ==> Holding(ledger, i, requested) && block.value == ledger.free[i].addr
      ensures block.Some? ==> forall j | 0 <= j < i :: ledger.free[j].size < requested
      ensures forall w | 0 <= w < pa.mem.Length && LiveWord(ledger, w) :: pa.mem[w] == old(pa.mem[w])
    {
      hide Sane, OwnsPages, Balanced, LiveWord;
      ghost var mem0 := pa.mem[..];
      SaneHeaders(ledger);
      block, i := FindAndRemove(requested, ledger.free);
      if block.Some? {
        UnlinkChain(mem0, old(genesis), ledger.free, i);
        BlockFits(pa.metadata[..], ledger, i);
        forall w | 0 <= w < pa.mem.Length && LiveWord(ledger, w) ensures pa.mem[w] == mem0[w] {
          HeaderNotLive(pa.metadata[..], ledger, i);
          if i > 0 { HeaderNotLive(pa.metadata[..], ledger, i - 1); }
        }
      }
    }

    method FromNewPage(requested: nat) returns (block: Option<nat>, ghost page: nat)
      requires Valid() && MINIMUM_SIZE <= requested <= PAGE_SIZE
      modifies pa.metadata, pa.mem
      ensures block.None? ==> Valid() && pa.mem[..] == old(pa.mem[..]) && pa.metadata[..] == old(pa.metadata[..])
      ensures block.None? ==> forall s: nat :: !RangeFree(pa.metadata[..], s, 1)
      ensures block.Some? ==> Holding(WithPage(ledger, page), 0, requested) && block.value == page * PAGE_WORDS
      ensures block.Some? ==>
                LowestFree(old(pa.metadata[..]), page) && pa.metadata[..] == Marked(old(pa.metadata[..]), page, 1)
      ensures forall w | 0 <= w < pa.mem.Length && LiveWord(ledger, w) :: pa.mem[w] == old(pa.mem[w])
    {
      hide Sane, Balanced, LiveWord, OwnsPages, Chain, Encoded, Marked, WithPage;
      ghost var mem0, m := pa.mem[..], pa.metadata[..];
      var pages := MinimumPages(requested);
      assert pages == 1;
      var r := pa.Alloc(pages);
      if r.None? { return None, 0; }
      block, page := Some(r.value * PAGE_WORDS), r.value;
      Initialize(block.value, pages * PAGE_SIZE);
      WithPageSane(m, ledger, page);
      WithPageBalanced(ledger, page);
      WithPageOwns(m, ledger, page);
      FreshPagesChain(m, ledger, page, 1, mem0, pa.mem[..], genesis);
      forall w | 0 <= w < pa.mem.Length && LiveWord(ledger, w) ensures pa.mem[w] == mem0[w] {
        FreshWordNotLive(m, ledger, page, 1, w);
      }
    }

    /** The held block serves the request. */
    method Serve(block: nat, requested: nat, ghost l: Ledger, ghost i: nat)
      requires Holding(l, i, requested) && block == l.free[i].addr && WellSized(Block(block, requested))
      requires allocatedMemory == Sum(ledger.live) + Sum(ledger.large) * PAGE_SIZE
      modifies this, pa.mem
      ensures Valid() && ledger == Taken(l, i, requested) && block !in l.live
      ensures forall w | 0 <= w < pa.mem.Length && LiveWord(l, w) :: pa.mem[w] == old(pa.mem[w])
    {
      hide Sane, OwnsPages, Balanced, LiveWord, Chain;
      ghost var mem0 := pa.mem[..];
      SplitIfNecessary(block, requested, l, i);
      TakenSane(l, i, requested);
      TakenBalanced(l, i, requested);
      OwnsSame(pa.metadata[..], l, Taken(l, i, requested));
      SumInsert(l.live, block, requested);
      assert l.free[i] in FreeBlocks(l);
      forall w | 0 <= w < pa.mem.Length && LiveWord(l, w) ensures pa.mem[w] == mem0[w] {
        if block <= w < l.free[i].End() { FreeWordNotLive(pa.metadata[..], l, l.free[i], w); }
      }
      allocatedMemory := allocatedMemory + requested;
      ledger := Taken(l, i, requested);
    }

    /** Small requests: first fit, or a new page; null only if no page is left. */
    method AllocSmall(layout: Layout) returns (ptr: Option<nat>)
      requires Valid() && LayoutOk(layout) && !UsesPages(layout)
      modifies this, pa.metadata, pa.mem
      ensures Valid() && Serves(old(pa.metadata[..]), old(ledger), Rounded(layout), ptr, pa.metadata[..], ledger)
      ensures ptr.Some? ==> ptr.value !in old(ledger.live)
      ensures old(ledger.slack) <= ledger.slack < old(ledger.slack) + MINIMUM_SIZE
      ensures forall w | 0 <= w < pa.mem.Length && LiveWord(old(ledger), w) :: pa.mem[w] == old(pa.mem[w])
    {
      hide Sane, OwnsPages, Balanced, LiveWord, Chain, Encoded, RangeFree, FirstFit;
      ghost var m := pa.metadata[..];
      var requested := Rounded(layout);
      ghost var l, i := ledger, 0;
      var block;
      block, i := FromList(requested);
      if block.None? {
        ghost var page;
        block, page := FromNewPage(requested);
        if block.None? {
          NoFirstFit(ledger.free, requested);
          NoFreePage(m);
          return None;
        }
        NoFirstFit(ledger.free, requested);
        l, i := WithPage(ledger, page), 0;
        forall w | 0 <= w < pa.mem.Length && LiveWord(ledger, w) ensures LiveWord(l, w) { LiveWordSame(ledger, l, w); }
      }
      if l == ledger { FirstFitUnique(ledger.free, requested, i); }
      Serve(block.value, requested, l, i);
      ptr := block;
    }

    /** Large or strictly aligned requests: whole pages, zeroed. */
    method AllocPages(layout: Layout) returns (ptr: Option<nat>)
      requires Valid() && LayoutOk(layout) && UsesPages(layout)
      modifies this, pa.metadata, pa.mem
      ensures Valid()
      ensures ptr.None? ==> ledger == old(ledger)
      ensures ptr.None? <==> forall s: nat :: !RangeFree(old(pa.metadata[..]), s, MinimumPages(layout.size))
      ensures ptr.Some? ==>
                && ptr.value % PAGE_WORDS == 0 && ptr.value / PAGE_WORDS !in old(ledger.large)
                && RangeFree(old(pa.metadata[..]), ptr.value / PAGE_WORDS, MinimumPages(layout.size))
                && pa.metadata[..] == Marked(old(pa.metadata[..]), ptr.value / PAGE_WORDS, MinimumPages(layout.size))
                && ledger == WithRun(old(ledger), ptr.value / PAGE_WORDS, MinimumPages(layout.size))
                && ptr.value + MinimumPages(layout.size) * PAGE_WORDS <= pa.mem.Length
                && forall w | ptr.value <= w < ptr.value + MinimumPages(layout.size) * PAGE_WORDS :: pa.mem[w] == 0
      ensures forall w | 0 <= w < pa.mem.Length && LiveWord(old(ledger), w) :: pa.mem[w] == old(pa.mem[w])
    {
      hide Sane, OwnsPages, Balanced, LiveWord, Chain, Encoded, Marked;
      ghost var mem0, m := pa.mem[..], pa.metadata[..];
      var pages := MinimumPages(layout.size);
      var r := pa.Alloc(pages);
      if r.None? { return None; }
      FreshPagesChain(m, ledger, r.value, pages, mem0, pa.mem[..], genesis);
      WithRunOwns(m, ledger, r.value, pages);
      SumInsert(ledger.large, r.value, pages);
      forall w | 0 <= w < pa.mem.Length && LiveWord(ledger, w) ensures pa.mem[w] == mem0[w] {
        FreshWordNotLive(m, ledger, r.value, pages, w);
      }
      allocatedMemory := allocatedMemory + pages * PAGE_SIZE;
      ledger := WithRun(ledger, r.value, pages);
      SaneSame(old(ledger), ledger);
      ptr := Some(r.value * PAGE_WORDS);
    }

    method DeallocSmall(ptr: nat, layout: Layout)
      requires Valid() && ptr in ledger.live && ledger.live[ptr] == Rounded(layout)
      modifies this, pa.mem
      ensures Valid() && ledger == Given(old(ledger), ptr)
      ensures forall w | 0 <= w < pa.mem.Length && LiveWord(ledger, w) :: pa.mem[w] == old(pa.mem[w])
    {
      hide Sane, OwnsPages, Balanced, LiveWord, Chain;
      ghost var mem0, m := pa.mem[..], pa.metadata[..];
      var size := Rounded(layout);
      GivenFits(m, ledger, ptr);
      GivenHeadersApart(ledger, ptr);
      pa.mem[ptr] := 0;
      pa.mem[ptr + 1] := size;
      ChainFrame(mem0, pa.mem[..], genesis, ledger.free);
      InsertChain(pa.mem[..], genesis, ledger.free, Block(ptr, size));
      Insert(ptr);
      GivenSane(ledger, ptr);
      GivenBalanced(ledger, ptr);
      OwnsSame(m, ledger, Given(ledger, ptr));
      allocatedMemory := allocatedMemory - size;
      ledger := Given(ledger, ptr);
      forall w | 0 <= w < pa.mem.Length && LiveWord(ledger, w) ensures pa.mem[w] == mem0[w] {
        LiveWordNotHeader(m, ledger, 0, w);
      }
    }

    method DeallocPages(ptr: nat)
      requires Valid() && ptr % PAGE_WORDS == 0 && ptr / PAGE_WORDS in ledger.large
      modifies this, pa.metadata
      ensures Valid() && ledger == WithoutRun(old(ledger), ptr / PAGE_WORDS)
      ensures ptr / PAGE_WORDS + old(ledger).large[ptr / PAGE_WORDS] <= pa.metadata.Length
      ensures pa.metadata[..] == Freed(old(pa.metadata[..]), ptr / PAGE_WORDS, old(ledger).large[ptr / PAGE_WORDS])
    {
      hide Sane, OwnsPages, Balanced, Chain, Encoded, Freed;
      ghost var m, page := pa.metadata[..], ptr / PAGE_WORDS;
      WithoutRunOwns(m, ledger, page);
      SumRemove(ledger.large, page);
      var count := pa.Dealloc(ptr / PAGE_WORDS);
      allocatedMemory := allocatedMemory - count * PAGE_SIZE;
      ledger := WithoutRun(ledger, page);
      SaneSame(old(ledger), ledger);
    }

    // ------------------------------------------------------- GlobalAlloc

    /** What is live under `ptr` was allocated with this layout. */
    ghost predicate LiveWith(l: Ledger, ptr: nat, layout: Layout) {
      if UsesPages(layout) then
        ptr % PAGE_WORDS == 0 && ptr / PAGE_WORDS in l.large && l.large[ptr / PAGE_WORDS] == MinimumPages(layout.size)
      else ptr in l.live && l.live[ptr] == Rounded(layout)
    }

    /** Requests of at least a page, or of an alignment above 8, get zeroed whole pages
        of their own; all others a block of the rounded size, and no page run. Null is
        returned only when there is nothing left to serve the request from. */
    method Alloc(layout: Layout) returns (ptr: Option<nat>)
      requires Valid() && LayoutOk(layout)
      modifies this, pa.metadata, pa.mem
      ensures Valid()
      ensures ptr.None? ==> ledger == old(ledger)
      ensures ptr.None? <==>
              if layout.size >= 4096 || layout.align > 8
              then forall s: nat :: !RangeFree(old(pa.metadata[..]), s, MinimumPages(layout.size))
              else (forall b | b in old(ledger).free :: b.size < Rounded(layout)) &&
                   forall s | 0 <= s < pa.metadata.Length :: old(pa.metadata[..])[s] != Free
      ensures ptr.Some? ==> LiveWith(ledger, ptr.value, layout)
      ensures ptr.Some? && (layout.size >= 4096 || layout.align > 8) ==>
                && ptr.value % 512 == 0 && ptr.value / 512 !in old(ledger.large) && ledger.live == old(ledger.live)
                && ledger.large == old(ledger.large)[ptr.value / 512 := MinimumPages(layout.size)]
                && ledger.free == old(ledger.free)
                && ptr.value + MinimumPages(layout.size) * 512 <= pa.mem.Length
                && forall w | ptr.value <= w < ptr.value + MinimumPages(layout.size) * 512 :: pa.mem[w] == 0
      ensures layout.size < 4096 && layout.align <= 8 ==>
                && ledger.large == old(ledger.large)
                && Serves(old(pa.metadata[..]), old(ledger), Rounded(layout), ptr, pa.metadata[..], ledger)
      ensures ptr.Some? && layout.size < 4096 && layout.align <= 8 ==>
                ptr.value !in old(ledger.live) && ledger.live == old(ledger.live)[ptr.value := Rounded(layout)]
      ensures ptr.Some? ==> HeapStep(HeapState(old(pa.metadata[..]), old(ledger)), HeapState(pa.metadata[..], ledger))
      ensures ptr.Some? && Multiple(4096, layout.align) ==> Multiple(ptr.value * 8, layout.align)
      ensures old(ledger.slack) <= ledger.slack < old(ledger.slack) + 24
      ensures forall w | 0 <= w < pa.mem.Length && LiveWord(old(ledger), w) :: pa.mem[w] == old(pa.mem[w])
    {
      hide Sane, OwnsPages, Balanced, LiveWord, Chain, Encoded, FirstFit, Marked, RangeFree, Multiple;
      if UsesPages(layout) {
        ptr := AllocPages(layout);
      } else {
        ptr := AllocSmall(layout);
        ServedOrNot(old(pa.metadata[..]), old(ledger), Rounded(layout), ptr, pa.metadata[..], ledger);
        assert ptr.Some? ==> WellSized(Block(ptr.value, Rounded(layout)));
      }
      if ptr.Some? && Multiple(4096, layout.align) { AlignmentMet(layout.align, ptr.value); }
    }

    method Dealloc(ptr: nat, layout: Layout)
      requires Valid() && LiveWith(ledger, ptr, layout)
      modifies this, pa.metadata, pa.mem
      ensures Valid() && ledger.slack == old(ledger.slack)
      ensures HeapStep(HeapState(old(pa.metadata[..]), old(ledger)), HeapState(pa.metadata[..], ledger))
      ensures if layout.size >= 4096 || layout.align > 8 then ledger == WithoutRun(old(ledger), ptr / 512)
              else ledger == Given(old(ledger), ptr)
      ensures forall w | 0 <= w < pa.mem.Length && LiveWord(ledger, w) :: pa.mem[w] == old(pa.mem[w])
    {
      hide Sane, OwnsPages, Balanced, LiveWord, Chain, Encoded;
      if UsesPages(layout) {
        DeallocPages(ptr);
      } else {
        DeallocSmall(ptr, layout);
      }
    }

    /** The owner of an allocation may write anything into it. */
    method OwnerWrites(w: nat, value: nat)
      requires Valid() && w < pa.mem.Length && LiveWord(ledger, w)
      modifies pa.mem
      ensures Valid() && pa.mem[..] == old(pa.mem[..])[w := value]
    {
      hide Sane, OwnsPages, Balanced, LiveWord, Chain, Encoded;
      ghost var mem0 := pa.mem[..];
      forall i | 0 <= i < |ledger.free| ensures w != ledger.free[i].addr && w != ledger.free[i].addr + 1 {
        LiveWordNotHeader(pa.metadata[..], ledger, i, w);
      }
      pa.mem[w] := value;
      ChainFrame(mem0, pa.mem[..], genesis, ledger.free);
    }
  }
}
