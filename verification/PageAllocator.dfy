/** MetadataPageAllocator: page runs encoded as `Used* Last` in a status array. */
module PageAllocator {
  import opened Wrappers


  datatype PageStatus = Free | Used | Last

  /** Memory is modelled as 8-byte words. */
  const PAGE_SIZE: nat := 4096
  const PAGE_WORDS: nat := 512

  type Status = seq<PageStatus>

  // ------------------------------------------------------------- the encoding

  /** Every run that starts also ends. */
  predicate Encoded(m: Status) {
    forall i | 0 <= i < |m| :: Continues(m, i)
  }

  predicate Continues(m: Status, i: nat)
    requires i < |m|
  {
    m[i] == Used ==> i + 1 < |m| && m[i + 1] != Free
  }

  /** Pages s..s+n form one allocation. */
  predicate IsRun(m: Status, s: nat, n: nat) {
    && 0 < n && s + n <= |m|
    && (s == 0 || m[s - 1] != Used)
    && (forall i | s <= i < s + n - 1 :: m[i] == Used)
    && m[s + n - 1] == Last
  }

  predicate RunStart(m: Status, s: nat) {
    s < |m| && m[s] != Free && (s == 0 || m[s - 1] != Used)
  }

  /** Pages from `i` up to and including the next Last. */
  function ToLast(m: Status, i: nat): (n: nat)
    requires Encoded(m) && i < |m| && m[i] != Free
    ensures 0 < n && i + n <= |m| && m[i + n - 1] == Last
    ensures forall j | i <= j < i + n - 1 :: m[j] == Used
    decreases |m| - i
  {
    assert Continues(m, i);
    if m[i] == Last then 1 else 1 + ToLast(m, i + 1)
  }

  function Marked(m: Status, s: nat, n: nat): (r: Status)
    requires s + n <= |m|
  {
    seq(|m|, i requires 0 <= i < |m| => if s <= i < s + n then if i == s + n - 1 then Last else Used else m[i])
  }

  function Freed(m: Status, s: nat, n: nat): (r: Status)
    requires s + n <= |m|
  {
    seq(|m|, i requires 0 <= i < |m| => if s <= i < s + n then Free else m[i])
  }

  predicate RangeFree(m: Status, s: nat, n: nat) {
    s + n <= |m| && forall i | s <= i < s + n :: m[i] == Free
  }

  /** Distinct runs do not overlap. */
  lemma RunsDisjoint(m: Status, s: nat, n: nat, t: nat, k: nat)
    requires IsRun(m, s, n) && IsRun(m, t, k)
    ensures (s == t && n == k) || s + n <= t || t + k <= s
  {
  }

  /** Where the run that covers page `p` starts. */
  function StartOf(m: Status, p: nat): (s: nat)
    requires p < |m| && m[p] != Free
    ensures s <= p && (s == 0 || m[s - 1] != Used)
    ensures forall j | s <= j < p :: m[j] == Used
  {
    if p == 0 || m[p - 1] != Used then p else StartOf(m, p - 1)
  }

  /** The status array decodes uniquely: every page that is not free lies in
      exactly one run. */
  lemma DecodesUniquely(m: Status, p: nat)
    requires Encoded(m) && p < |m|
    ensures m[p] != Free <==> exists s: nat, n: nat :: IsRun(m, s, n) && s <= p < s + n
    ensures forall s: nat, n: nat, t: nat, k: nat |
              IsRun(m, s, n) && s <= p < s + n && IsRun(m, t, k) && t <= p < t + k :: s == t && n == k
  {
    if m[p] != Free {
      var s, n := StartOf(m, p), ToLast(m, p);
      assert IsRun(m, s, p - s + n);
    }
    forall s: nat, n: nat, t: nat, k: nat | IsRun(m, s, n) && s <= p < s + n && IsRun(m, t, k) && t <= p < t + k
      ensures s == t && n == k
    {
      RunsDisjoint(m, s, n, t, k);
    }
  }

  lemma RunPage(m: Status, s: nat, n: nat, p: nat)
    requires IsRun(m, s, n) && s <= p < s + n
    ensures m[p] != Free
  {
  }

  lemma RunAvoidsFree(m: Status, s: nat, n: nat, t: nat, k: nat)
    requires RangeFree(m, s, n) && n > 0 && IsRun(m, t, k)
    ensures t + k <= s || s + n <= t
  {
    if s < t + k && t < s + n {
      RunPage(m, t, k, if s < t then t else s);
      assert false;
    }
  }

  /** A run is a matter of its own pages and the one before. */
  lemma RunIsLocal(m: Status, r: Status, t: nat, k: nat)
    requires |m| == |r| && IsRun(m, t, k)
    requires forall i | t <= i < t + k :: m[i] == r[i]
    requires t > 0 ==> r[t - 1] != Used
    ensures IsRun(r, t, k)
  {
  }

  /** Marking a free stretch adds exactly that run. */
  lemma MarkAddsRun(m: Status, s: nat, n: nat)
    requires Encoded(m) && RangeFree(m, s, n) && n > 0
    ensures Encoded(Marked(m, s, n)) && IsRun(Marked(m, s, n), s, n)
    ensures forall t: nat, k: nat | IsRun(m, t, k) :: IsRun(Marked(m, s, n), t, k) && (t + k <= s || s + n <= t)
    ensures forall t: nat, k: nat | IsRun(Marked(m, s, n), t, k) :: IsRun(m, t, k) || (t == s && k == n)
  {
    var r := Marked(m, s, n);
    assert s > 0 ==> Continues(m, s - 1);
    forall i | 0 <= i < |r| ensures Continues(r, i) { assert Continues(m, i); }
    assert IsRun(r, s, n);
    forall t: nat, k: nat | IsRun(m, t, k) ensures IsRun(r, t, k) && (t + k <= s || s + n <= t) {
      RunAvoidsFree(m, s, n, t, k);
      RunIsLocal(m, r, t, k);
    }
    forall t: nat, k: nat | IsRun(r, t, k) ensures IsRun(m, t, k) || (t == s && k == n) {
      RunsDisjoint(r, s, n, t, k);
      if t != s { RunIsLocal(r, m, t, k); }
    }
  }

  lemma FreedEncoded(m: Status, i: nat, n: nat)
    requires Encoded(m) && 0 < n && i + n <= |m| && (i == 0 || m[i - 1] != Used)
    ensures Encoded(Freed(m, i, n))
  {
    var r := Freed(m, i, n);
    forall j | 0 <= j < |r| ensures Continues(r, j) { assert Continues(m, j); }
  }

  lemma FreedBroken(m: Status, i: nat, n: nat)
    requires 0 < i && 0 < n && i + n <= |m| && m[i - 1] == Used
    ensures !Encoded(Freed(m, i, n))
  {
    assert !Continues(Freed(m, i, n), i - 1);
  }

  /** Freeing from page `i` to the next Last keeps the encoding exactly when `i`
      is the start of a run. An interior pointer leaves a run without an end. */
  lemma FreeKeepsEncoding(m: Status, i: nat)
    requires Encoded(m) && i < |m| && m[i] != Free
    ensures Encoded(Freed(m, i, ToLast(m, i))) <==> RunStart(m, i)
  {
    hide Encoded, Freed;
    if RunStart(m, i) { FreedEncoded(m, i, ToLast(m, i)); } else { FreedBroken(m, i, ToLast(m, i)); }
  }

  /** Freeing a run removes exactly that run. */
  lemma FreeRemovesRun(m: Status, s: nat, n: nat)
    requires Encoded(m) && IsRun(m, s, n)
    ensures ToLast(m, s) == n && Encoded(Freed(m, s, n)) && RangeFree(Freed(m, s, n), s, n)
    ensures forall t: nat, k: nat | IsRun(m, t, k) && t != s :: IsRun(Freed(m, s, n), t, k)
    ensures forall t: nat, k: nat | IsRun(Freed(m, s, n), t, k) :: IsRun(m, t, k) && t != s
  {
    var r := Freed(m, s, n);
    RunLengthUnique(m, s, n);
    FreeKeepsEncoding(m, s);
    forall t: nat, k: nat | IsRun(m, t, k) && t != s ensures IsRun(r, t, k) {
      RunsDisjoint(m, s, n, t, k);
      RunIsLocal(m, r, t, k);
    }
    forall t: nat, k: nat | IsRun(r, t, k) ensures IsRun(m, t, k) && t != s {
      RunAvoidsFree(r, s, n, t, k);
      RunIsLocal(r, m, t, k);
    }
  }

  lemma RunLengthUnique(m: Status, s: nat, n: nat)
    requires Encoded(m) && IsRun(m, s, n)
    ensures ToLast(m, s) == n
  {
    assert IsRun(m, s, ToLast(m, s));
    RunsDisjoint(m, s, n, s, ToLast(m, s));
  }

  /** Allocating and freeing again restores the array. */
  lemma MarkThenFree(m: Status, s: nat, n: nat)
    requires Encoded(m) && RangeFree(m, s, n) && n > 0
    ensures Encoded(Marked(m, s, n)) && Marked(m, s, n)[s] != Free && ToLast(Marked(m, s, n), s) == n
    ensures Freed(Marked(m, s, n), s, n) == m
  {
    MarkAddsRun(m, s, n);
    RunLengthUnique(Marked(m, s, n), s, n);
  }

  // ---------------------------------------------------------------- runs

  /** The status array, and the runs handed out and not yet freed. */
  datatype Pages = Pages(m: Status, live: map<nat, nat>)

  /** One allocation, failed or not, or one deallocation of an allocated run start. */
  ghost predicate PageStep(a: Pages, b: Pages) {
    || b == a
    || (exists s: nat, n: nat :: n > 0 && RangeFree(a.m, s, n) && b == Pages(Marked(a.m, s, n), a.live[s := n]))
    || (exists s :: s in a.live && Encoded(a.m) && s < |a.m| && a.m[s] != Free &&
          b == Pages(Freed(a.m, s, ToLast(a.m, s)), a.live - {s}))
  }

  // ------------------------------------------------------------ the allocator

  /** Pages are numbered from the start of the heap; page p is words
      p*512 up to (p+1)*512 of `mem`. */
  class MetadataPageAllocator {
    const metadata: array<PageStatus>
    const mem: array<nat>

    ghost predicate Valid()
      reads metadata
    {
      mem.Length == metadata.Length * PAGE_WORDS && Encoded(metadata[..])
    }

    constructor (pages: nat)
      ensures Valid() && fresh(metadata) && fresh(mem)
      ensures metadata.Length == pages && forall i | 0 <= i < pages :: metadata[i] == Free
    {
      metadata := new PageStatus[pages](_ => Free);
      mem := new nat[pages * PAGE_WORDS](_ => 0);
    }

    method IsRangeFree(start: nat, n: nat) returns (b: bool)
      requires start + n <= metadata.Length
      ensures b == RangeFree(metadata[..], start, n)
    {
      for i := start to start + n
        invariant forall j | start <= j < i :: metadata[j] == Free
      {
        if metadata[i] != Free { return false; }
      }
      b := true;
    }

    /** `page.write(MaybeUninit::zeroed())` */
    method ZeroPage(page: nat)
      requires mem.Length == metadata.Length * PAGE_WORDS && page < metadata.Length
      modifies mem
      ensures forall w | 0 <= w < mem.Length ::
                mem[w] == if page * PAGE_WORDS <= w < (page + 1) * PAGE_WORDS then 0 else old(mem[w])
    {
      for w := page * PAGE_WORDS to (page + 1) * PAGE_WORDS
        invariant forall v | 0 <= v < mem.Length ::
                    mem[v] == if page * PAGE_WORDS <= v < w then 0 else old(mem[v])
      {
        mem[w] := 0;
      }
    }

    method MarkRangeAsUsed(start: nat, n: nat, initialize: bool)
      requires mem.Length == metadata.Length * PAGE_WORDS && start + n <= metadata.Length
      modifies metadata, mem
      ensures metadata[..] == Marked(old(metadata[..]), start, n)
      ensures forall w | 0 <= w < mem.Length ::
                mem[w] == if initialize && start * PAGE_WORDS <= w < (start + n) * PAGE_WORDS then 0 else old(mem[w])
    {
      for i := start to start + n
        invariant forall j | 0 <= j < metadata.Length ::
                    metadata[j] == if !(start <= j < i) then old(metadata[j])
                                   else if j == start + n - 1 then Last else Used
        invariant forall w | 0 <= w < mem.Length ::
                    mem[w] == if initialize && start * PAGE_WORDS <= w < i * PAGE_WORDS then 0 else old(mem[w])
      {
        if initialize { ZeroPage(i); }
        metadata[i] := if i == start + n - 1 then Last else Used;
      }
    }

    /** Returns the lowest free stretch of `n` pages, zeroed and marked as one
        run; fails exactly when there is none. */
    method Alloc(n: nat) returns (r: Option<nat>)
      requires Valid() && n > 0
      modifies metadata, mem
      ensures Valid()
      ensures r.None? <==> forall s: nat :: !RangeFree(old(metadata[..]), s, n)
      ensures r.None? ==> metadata[..] == old(metadata[..]) && mem[..] == old(mem[..])
      ensures r.Some? ==>
                && RangeFree(old(metadata[..]), r.value, n)
                && (forall s | 0 <= s < r.value :: !RangeFree(old(metadata[..]), s, n))
                && metadata[..] == Marked(old(metadata[..]), r.value, n)
                && forall w | 0 <= w < mem.Length ::
                     mem[w] == if r.value * PAGE_WORDS <= w < (r.value + n) * PAGE_WORDS then 0 else old(mem[w])
      ensures forall live ::
                PageStep(Pages(old(metadata[..]), live),
                  Pages(metadata[..], if r.Some? then live[r.value := n] else live))
    {
      ghost var m := metadata[..];
      if n > metadata.Length { return None; }
      for i := 0 to metadata.Length - n + 1
        invariant metadata[..] == m && mem[..] == old(mem[..])
        invariant forall s | 0 <= s < i :: !RangeFree(m, s, n)
      {
        var free := IsRangeFree(i, n);
        if free {
          MarkAddsRun(m, i, n);
          MarkRangeAsUsed(i, n, true);
          return Some(i);
        }
      }
      r := None;
    }

    /** Frees up to the next Last and returns the number of pages. Panics on a
        free page. */
    method Dealloc(page: nat) returns (count: nat)
      requires Valid() && page < metadata.Length && metadata[page] != Free
      modifies metadata
      ensures count == ToLast(old(metadata[..]), page)
      ensures metadata[..] == Freed(old(metadata[..]), page, count)
      ensures Valid() <==> RunStart(old(metadata[..]), page)
      ensures forall live | page in live ::
                PageStep(Pages(old(metadata[..]), live), Pages(metadata[..], live - {page}))
    {
      ghost var m := metadata[..];
      FreeKeepsEncoding(m, page);
      count := 0;
      var idx := page;
      while metadata[idx] != Last
        invariant page <= idx < metadata.Length && count == idx - page
        invariant m[idx] != Free && ToLast(m, page) == count + ToLast(m, idx)
        invariant forall j | 0 <= j < metadata.Length :: metadata[j] == if page <= j < idx then Free else m[j]
        decreases metadata.Length - idx
      {
        metadata[idx] := Free;
        idx := idx + 1;
        count := count + 1;
      }
      metadata[idx] := Free;
      count := count + 1;
    }
  }
}
