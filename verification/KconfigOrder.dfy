/** When a configuration can be evaluated at all: there is an order of its cells if
    and only if no cell reads itself through others. */
module KconfigOrder {
  import opened KconfigModel
  import opened KconfigReference
  import opened KconfigInvalidation

  /** Each cell reads the next one. */
  ghost predicate Chain(k: Config, p: seq<Cell>) {
    |p| > 0 && forall i | 0 <= i < |p| - 1 :: Reads(k, p[i], p[i + 1])
  }

  predicate Reads(k: Config, c: Cell, d: Cell) { d in StaticCells(k, c) }

  ghost predicate Leads(k: Config, p: seq<Cell>, c: Cell, d: Cell) {
    Chain(k, p) && p[0] == c && p[|p| - 1] == d
  }

  /** `c` reads `d`, possibly through others; every cell reaches itself. */
  ghost predicate Reaches(k: Config, c: Cell, d: Cell) { exists p :: Leads(k, p, c, d) }

  ghost predicate NoCircle(k: Config) { forall c, d | Reads(k, c, d) :: !Reaches(k, d, c) }

  lemma ReachesSelf(k: Config, c: Cell)
    ensures Reaches(k, c, c)
  {
    assert Leads(k, [c], c, c);
  }

  lemma ChainConcat(k: Config, p: seq<Cell>, q: seq<Cell>)
    requires Chain(k, p) && Chain(k, q) && Reads(k, p[|p| - 1], q[0])
    ensures Chain(k, p + q)
  {
    hide Reads;
    var r := p + q;
    forall i | 0 <= i < |r| - 1 ensures Reads(k, r[i], r[i + 1]) {
      if i >= |p| { assert Reads(k, q[i - |p|], q[i - |p| + 1]); }
    }
  }

  lemma ChainPart(k: Config, p: seq<Cell>, i: nat, j: nat)
    requires Chain(k, p) && i < j <= |p|
    ensures Chain(k, p[i..j])
  {
    hide Reads;
    var q := p[i..j];
    forall n | 0 <= n < |q| - 1 ensures Reads(k, q[n], q[n + 1]) { assert Reads(k, p[i + n], p[i + n + 1]); }
  }

  /** One more read in front. */
  lemma ReachesMore(k: Config, c: Cell, d: Cell, e: Cell)
    requires Reads(k, c, d) && Reaches(k, d, e)
    ensures Reaches(k, c, e)
  {
    hide Reads;
    var p :| Leads(k, p, d, e);
    ChainConcat(k, [c], p);
    assert Leads(k, [c] + p, c, e);
  }

  /** A circle can be entered anywhere. */
  lemma Rotate(k: Config, p: seq<Cell>, i: nat)
    requires Chain(k, p) && Reads(k, p[|p| - 1], p[0]) && i < |p| - 1
    ensures Chain(k, p[i + 1..] + p[..i + 1])
    ensures Reads(k, p[i], p[i + 1]) && Reaches(k, p[i + 1], p[i])
  {
    hide Reads;
    ChainPart(k, p, i + 1, |p|);
    ChainPart(k, p, 0, i + 1);
    assert p[..i + 1] == p[0..i + 1] && p[i + 1..] == p[i + 1..|p|];
    ChainConcat(k, p[i + 1..], p[..i + 1]);
    assert Leads(k, p[i + 1..] + p[..i + 1], p[i + 1], p[i]);
  }

  // ---------------------------------------------------------- order and circles

  lemma {:induction false} RankFalls(k: Config, rank: Cell -> nat, p: seq<Cell>, i: nat)
    requires LoopFree(k, rank) && Chain(k, p) && i < |p|
    ensures rank(p[i]) <= rank(p[0])
  {
    if i > 0 {
      RankFalls(k, rank, p, i - 1);
      assert Reads(k, p[i - 1], p[i - 1 + 1]);
    }
  }

  lemma OrderHasNoCircle(k: Config, rank: Cell -> nat)
    requires LoopFree(k, rank)
    ensures NoCircle(k)
  {
    forall c, d | Reads(k, c, d) ensures !Reaches(k, d, c) {
      forall p ensures !Leads(k, p, d, c) {
        if Leads(k, p, d, c) { RankFalls(k, rank, p, |p| - 1); }
      }
    }
  }

  function DefinedCells(k: Config): set<Cell> {
    (set s | 0 <= s < |k.syms| :: Vis(Sym(s))) + (set s | 0 <= s < |k.syms| :: TriVal(s)) +
    (set s | 0 <= s < |k.syms| :: StrVal(s)) + (set c | 0 <= c < |k.choices| :: Vis(Ch(c))) +
    (set c | 0 <= c < |k.choices| :: Pick(c))
  }

  /** All that is ever read by something that is defined. */
  function ReadCells(k: Config): set<Cell> {
    set c, d | c in DefinedCells(k) && d in StaticCells(k, c) :: d
  }

  lemma DefinedOwner(k: Config, c: Cell)
    ensures c in DefinedCells(k) <==> c.Owner() in DefinedItems(k)
  {
  }

  /** What a cell reads, directly or not. */
  ghost function Below(k: Config, c: Cell): set<Cell> {
    set d | d in ReadCells(k) && ReachesBelow(k, c, d)
  }

  ghost predicate ReachesBelow(k: Config, c: Cell, d: Cell) { exists e :: Reads(k, c, e) && Reaches(k, e, d) }

  /** The number of cells that are read on the way. */
  ghost function Depth(k: Config): Cell -> nat {
    (c: Cell) => if c in DefinedCells(k) then 2 + |Below(k, c)| else if c.Pick? then 1 else 0
  }

  lemma BelowShrinks(k: Config, c: Cell, d: Cell)
    requires NoCircle(k) && c in DefinedCells(k) && Reads(k, c, d)
    ensures |Below(k, d)| < |Below(k, c)|
  {
    hide DefinedCells, StaticCells;
    ReachesSelf(k, d);
    assert d in ReadCells(k);
    assert d in Below(k, c);
    assert d !in Below(k, d);
    forall x | x in Below(k, d) ensures x in Below(k, c) {
      var e :| Reads(k, d, e) && Reaches(k, e, x);
      ReachesMore(k, d, e, x);
    }
    Smaller(Below(k, d), Below(k, c), d);
  }

  lemma Smaller<T>(a: set<T>, b: set<T>, x: T)
    requires a <= b && x in b && x !in a
    ensures |a| < |b|
  {
    assert a <= b - {x};
    SubsetSize(a, b - {x});
  }

  lemma {:induction false} SubsetSize<T>(a: set<T>, b: set<T>)
    requires a <= b
    ensures |a| <= |b|
  {
    if a != {} {
      var x :| x in a;
      SubsetSize(a - {x}, b - {x});
    }
  }

  lemma UndefinedDepth(k: Config, c: Cell, d: Cell)
    requires c !in DefinedCells(k) && Reads(k, c, d)
    ensures c.Pick? && d == Vis(Ch(c.choice)) && d !in DefinedCells(k)
  {
    DefinedOwner(k, c);
    UndefinedReadsNothing(k, c);
  }

  lemma NoCircleHasOrder(k: Config)
    requires NoCircle(k)
    ensures LoopFree(k, Depth(k))
  {
    forall c, d | d in StaticCells(k, c) ensures Depth(k)(d) < Depth(k)(c) {
      assert Reads(k, c, d);
      hide StaticCells, DefinedCells, NoCircle, Below;
      if c in DefinedCells(k) { BelowShrinks(k, c, d); } else { UndefinedDepth(k, c, d); }
    }
  }

  /** A configuration can be evaluated in some order if and only if no cell reads itself. */
  lemma OrderIffNoCircle(k: Config)
    ensures (exists rank :: LoopFree(k, rank)) <==> NoCircle(k)
  {
    hide LoopFree, NoCircle;
    if rank :| LoopFree(k, rank) { OrderHasNoCircle(k, rank); }
    if NoCircle(k) { NoCircleHasOrder(k); }
  }
}
