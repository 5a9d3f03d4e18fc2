/** What a passed loop check means for evaluation, and which circles it cannot see. */
module KconfigLoops {
  import opened Wrappers
  import opened KconfigModel
  import opened KconfigReference
  import opened KconfigInvalidation
  import opened KconfigOrder
  import opened DepLoop

  /** What is registered when the check runs; that choices also depend on their
      symbols is added afterwards. */
  function BuiltDeps(k: Config, i: Item): set<Item> {
    match i
    case Ch(c) => ChoiceItems(k, c)
    case _ => Deps(k, i)
  }

  function NodeItem(n: Node): Item { match n case S(s) => Sym(s) case C(c) => Ch(c) }

  /** `g` is the graph of the configuration that is searched. */
  ghost predicate GraphOf(k: Config, g: Graph) {
    && |g.dependents| == |k.syms| && |g.members| == |k.choices|
    && (forall u: nat, n: Node | u < |k.syms| ::
          n in g.D(u) <==> NodeItem(n) in DefinedItems(k) && Sym(u) in BuiltDeps(k, NodeItem(n)))
    && (forall s: nat :: s in g.choiceOf <==> s < |k.syms| && k.syms[s].choice.Some?)
    && (forall s | s in g.choiceOf && s < |k.syms| :: k.syms[s].choice == Some(g.choiceOf[s]))
    && (forall c | 0 <= c < |k.choices| :: g.members[c] == k.choices[c].members)
  }

  /** Choice members are defined symbols. */
  predicate MembersDefined(k: Config) {
    forall c, m | 0 <= c < |k.choices| && m in k.choices[c].members :: m < |k.syms|
  }

  lemma GraphClosed(k: Config, g: Graph)
    requires GraphOf(k, g) && WellFormed(k) && MembersDefined(k)
    ensures Closed(g)
  {
    hide BuiltDeps, Deps;
    forall s: nat, n: Node | n in g.D(s) ensures Has(g, n) {
      assert s < |k.syms|;
      assert NodeItem(n) in DefinedItems(k);
    }
    forall s | s in g.choiceOf ensures g.choiceOf[s] < |g.members| && s in g.M(g.choiceOf[s]) {
      OwnChoice(k, s);
    }
  }

  // ------------------------------------------------------------- kinds of reads

  predicate IsMember(k: Config, i: Item, c: nat) { i.Sym? && i.sym in k.C(c).members }

  /** The order of an item's own cells. */
  function Level(c: Cell): nat {
    match c
    case Vis(_) => 0
    case TriVal(_) => 1
    case StrVal(_) => 2
    case Pick(_) => 1
  }

  predicate OwnRead(c: Cell, d: Cell) { d.Owner() == c.Owner() && Level(d) < Level(c) }

  /** What the loop check knows of. The selection of a choice is read only for the
      value of one of its symbols. */
  predicate RegisteredRead(k: Config, c: Cell, d: Cell) {
    d.Owner() in BuiltDeps(k, c.Owner()) && (d.Pick? ==> c.TriVal? && IsMember(k, c.Owner(), d.choice))
  }

  /** Selecting a member looks at the visibility of all of them. */
  predicate SelectionRead(k: Config, c: Cell, d: Cell) { c.Pick? && d in MemberCells(k.C(c.choice).members) }

  /** The item is tristate or mentions a tristate choice, so that MODULES decides a
      type that it looks at. */
  predicate TypeMatters(k: Config, i: Item) {
    OrigType(k, i) == TRISTATE || TristateChoiceIn(k, BuiltDeps(k, i))
  }

  /** MODULES is looked at to find out a type. */
  predicate TypeRead(k: Config, c: Cell, d: Cell) { d in ModulesCells(k) && TypeMatters(k, c.Owner()) }

  lemma SymReadKinds(k: Config, s: nat, c: Cell, d: Cell)
    requires WellFormed(k) && s < |k.syms| && c in {Vis(Sym(s)), TriVal(s), StrVal(s)} && Reads(k, c, d)
    ensures OwnRead(c, d) || RegisteredRead(k, c, d) || TypeRead(k, c, d)
  {
    SymOwners(k, s, c);
    if k.S(s).choice.Some? { OwnChoice(k, s); }
    assert BuiltDeps(k, Sym(s)) == Deps(k, Sym(s));
    hide StaticCells, Deps, WellFormed, BuiltDeps;
  }

  lemma ChoiceReadKinds(k: Config, h: nat, c: Cell, d: Cell)
    requires WellFormed(k) && (c == Vis(Ch(h)) || c == Pick(h)) && Reads(k, c, d)
    ensures OwnRead(c, d) || RegisteredRead(k, c, d) || SelectionRead(k, c, d) || TypeRead(k, c, d)
  {
    ChoiceOwners(k, h);
    assert BuiltDeps(k, Ch(h)) == ChoiceItems(k, h);
    hide StaticCells, WellFormed, BuiltDeps, ChoiceItems, MemberCells;
  }

  /** There are no other reads. */
  lemma ReadKinds(k: Config, c: Cell, d: Cell)
    requires WellFormed(k) && Reads(k, c, d)
    ensures OwnRead(c, d) || RegisteredRead(k, c, d) || SelectionRead(k, c, d) || TypeRead(k, c, d)
  {
    hide WellFormed, RegisteredRead, SelectionRead, TypeRead;
    DefinedOwner(k, c);
    if c.Owner() !in DefinedItems(k) {
      UndefinedDepth(k, c, d);
    } else if c.Owner().Sym? {
      hide Reads;
      SymReadKinds(k, c.Owner().sym, c, d);
    } else {
      hide Reads;
      ChoiceReadKinds(k, c.Owner().choice, c, d);
    }
  }

  /** The mode of a choice is looked at by something that is not one of its symbols. */
  predicate ModeRead(k: Config, c: Cell, d: Cell) {
    d.Vis? && d.item.Ch? && !OwnRead(c, d) && !IsMember(k, c.Owner(), d.item.choice)
  }

  predicate UnregisteredTypeRead(k: Config, c: Cell, d: Cell) {
    TypeRead(k, c, d) && !OwnRead(c, d) && !RegisteredRead(k, c, d)
  }

  /** The reads that the search does not follow. */
  predicate Blind(k: Config, c: Cell, d: Cell) {
    && Reads(k, c, d)
    && (SelectionRead(k, c, d) || UnregisteredTypeRead(k, c, d) || ModeRead(k, c, d))
  }

  // --------------------------------------------------- the order of the search

  ghost function Place(rank: Rank, clock: nat, n: Node): nat {
    if n in rank && rank[n] < clock then 4 * (clock - rank[n]) else 0
  }

  /** What finishes later in the search is evaluated earlier, and what is not
      defined before all else. */
  ghost function Height(k: Config, rank: Rank, clock: nat, c: Cell): nat {
    if c.Owner() !in DefinedItems(k) then (if c.Pick? then 1 else 0)
    else Place(rank, clock, if c.Owner().Sym? then S(c.Owner().sym) else C(c.Owner().choice)) + 2 + Level(c)
  }

  ghost predicate Timed(g: Graph, rank: Rank, clock: nat) {
    Ranked(g, rank) && forall n | n in rank :: rank[n] < clock
  }

  /** Below a node by at least one whole place. */
  lemma RegisteredBelow(k: Config, g: Graph, rank: Rank, clock: nat, n: Node, d: Cell)
    requires GraphOf(k, g) && Timed(g, rank, clock) && NodeItem(n) in DefinedItems(k)
    requires d.Owner().Sym? && d.Owner() in BuiltDeps(k, NodeItem(n))
    ensures Height(k, rank, clock, d) < Place(rank, clock, n) + 2
  {
    hide BuiltDeps;
    var u := d.Owner().sym;
    if u < |k.syms| {
      assert n in g.D(u);
      assert Followed(g, S(u), n);
    }
  }

  lemma MemberBelow(k: Config, g: Graph, rank: Rank, clock: nat, s: nat, d: Cell)
    requires GraphOf(k, g) && Timed(g, rank, clock) && s < |k.syms|
    requires d.Owner().Ch? && IsMember(k, Sym(s), d.Owner().choice)
    ensures Height(k, rank, clock, d) < Place(rank, clock, S(s)) + 2
  {
    hide BuiltDeps;
    var h := d.Owner().choice;
    assert h < |k.choices| && s in g.M(h);
    assert Followed(g, C(h), S(s));
  }

  lemma RegisteredDescends(k: Config, g: Graph, rank: Rank, clock: nat, c: Cell, d: Cell)
    requires GraphOf(k, g) && Timed(g, rank, clock)
    requires c.Owner() in DefinedItems(k) && RegisteredRead(k, c, d) && !ModeRead(k, c, d)
    ensures OwnRead(c, d) || Height(k, rank, clock, d) < Height(k, rank, clock, c)
  {
    hide GraphOf, Timed, BuiltDeps;
    var n := if c.Owner().Sym? then S(c.Owner().sym) else C(c.Owner().choice);
    assert NodeItem(n) == c.Owner();
    if d.Owner().Sym? {
      RegisteredBelow(k, g, rank, clock, n, d);
    } else if d.Owner().Ch? && !OwnRead(c, d) {
      MemberBelow(k, g, rank, clock, c.Owner().sym, d);
    }
  }

  /** Every read that is not blind goes down in the order the search has found. */
  lemma SearchedDescends(k: Config, g: Graph, rank: Rank, clock: nat, c: Cell, d: Cell)
    requires GraphOf(k, g) && WellFormed(k) && Timed(g, rank, clock) && Reads(k, c, d) && !Blind(k, c, d)
    ensures Height(k, rank, clock, d) < Height(k, rank, clock, c)
  {
    hide GraphOf, WellFormed, Timed;
    DefinedOwner(k, c);
    if c.Owner() !in DefinedItems(k) {
      UndefinedDepth(k, c, d);
      DefinedOwner(k, d);
    } else {
      hide Reads, RegisteredRead, SelectionRead, TypeRead, ModeRead;
      ReadKinds(k, c, d);
      if RegisteredRead(k, c, d) { RegisteredDescends(k, g, rank, clock, c, d); }
    }
  }

  // ------------------------------------------------------- what a pass means

  /** No symbol of a choice is visible because of the value that the selection gives
      to one of them. */
  ghost predicate MembersApart(k: Config) {
    forall c: nat, m: nat, o: nat | m in k.C(c).members && Reads(k, TriVal(o), Pick(c)) ::
      !Reaches(k, Vis(Sym(m)), TriVal(o))
  }

  /** The value of MODULES depends on nothing that looks at MODULES for a type. */
  ghost predicate TypesSettled(k: Config) {
    forall c, d | Reads(k, c, d) && UnregisteredTypeRead(k, c, d) :: !Reaches(k, d, c)
  }

  /** The visibility of a choice depends on nothing outside that looks at its mode. */
  ghost predicate ModesSettled(k: Config) {
    forall c, d | Reads(k, c, d) && ModeRead(k, c, d) :: !Reaches(k, d, c)
  }

  ghost predicate BlindReadsOpen(k: Config) { forall c, d | Blind(k, c, d) :: !Reaches(k, d, c) }

  /** Only the values of its symbols read the selection of a choice. */
  lemma SelectionReader(k: Config, c: Cell, h: nat)
    requires WellFormed(k) && Reads(k, c, Pick(h))
    ensures c.TriVal? && c.sym in k.C(h).members
  {
    hide WellFormed, Reads, BuiltDeps;
    ReadKinds(k, c, Pick(h));
  }

  /** Reaching a selection means reaching the value of one of the symbols. */
  lemma ReachesSelection(k: Config, d: Cell, h: nat)
    requires WellFormed(k) && d != Pick(h)
    ensures Reaches(k, d, Pick(h)) <==> exists o: nat :: Reads(k, TriVal(o), Pick(h)) && Reaches(k, d, TriVal(o))
  {
    hide WellFormed, Reads;
    if p: seq<Cell> :| Leads(k, p, d, Pick(h)) {
      var n := |p| - 2;
      assert Reads(k, p[n], p[n + 1]);
      SelectionReader(k, p[n], h);
      ChainPart(k, p, 0, n + 1);
      assert Leads(k, p[0..n + 1], d, TriVal(p[n].sym));
    }
    if o: nat :| Reads(k, TriVal(o), Pick(h)) && Reaches(k, d, TriVal(o)) {
      var p :| Leads(k, p, d, TriVal(o));
      ChainConcat(k, p, [Pick(h)]);
      assert Leads(k, p + [Pick(h)], d, Pick(h));
    }
  }

  lemma SelectionRuledOut(k: Config, c: Cell, d: Cell)
    requires WellFormed(k) && MembersApart(k) && Reads(k, c, d) && SelectionRead(k, c, d)
    ensures !Reaches(k, d, c)
  {
    hide WellFormed, Reads, Reaches;
    ReachesSelection(k, d, c.choice);
  }

  lemma MemberCellRead(k: Config, h: nat, m: nat)
    requires m in k.C(h).members
    ensures Reads(k, Pick(h), Vis(Sym(m))) && SelectionRead(k, Pick(h), Vis(Sym(m)))
  {
  }

  lemma OpenIffSettled(k: Config)
    requires WellFormed(k)
    ensures BlindReadsOpen(k) <==> MembersApart(k) && TypesSettled(k) && ModesSettled(k)
  {
    hide WellFormed, Reads, Reaches, SelectionRead, UnregisteredTypeRead, ModeRead;
    if BlindReadsOpen(k) {
      forall h: nat, m: nat, o: nat | m in k.C(h).members && Reads(k, TriVal(o), Pick(h))
        ensures !Reaches(k, Vis(Sym(m)), TriVal(o))
      {
        MemberCellRead(k, h, m);
        assert Blind(k, Pick(h), Vis(Sym(m)));
        ReachesSelection(k, Vis(Sym(m)), h);
      }
    }
    if MembersApart(k) && TypesSettled(k) && ModesSettled(k) {
      forall c, d | Blind(k, c, d) ensures !Reaches(k, d, c) {
        if SelectionRead(k, c, d) { SelectionRuledOut(k, c, d); }
      }
    }
  }

  lemma {:induction false} HeightFalls(k: Config, g: Graph, rank: Rank, clock: nat, p: seq<Cell>, i: nat)
    requires GraphOf(k, g) && WellFormed(k) && Timed(g, rank, clock) && Chain(k, p) && i < |p|
    requires forall j | 0 <= j < |p| - 1 :: !Blind(k, p[j], p[j + 1])
    ensures Height(k, rank, clock, p[i]) <= Height(k, rank, clock, p[0])
  {
    hide GraphOf, WellFormed, Timed, Blind, Height, Reads;
    if i > 0 {
      HeightFalls(k, g, rank, clock, p, i - 1);
      assert Reads(k, p[i - 1], p[i - 1 + 1]) && !Blind(k, p[i - 1], p[i - 1 + 1]);
      SearchedDescends(k, g, rank, clock, p[i - 1], p[i]);
    }
  }

  /** Some read on every circle is blind. */
  lemma CircleIsBlind(k: Config, g: Graph, rank: Rank, clock: nat, p: seq<Cell>)
    requires GraphOf(k, g) && WellFormed(k) && Timed(g, rank, clock) && Chain(k, p) && Reads(k, p[|p| - 1], p[0])
    ensures !BlindReadsOpen(k)
  {
    hide GraphOf, WellFormed, Timed, Blind, Height, Reads;
    var c, d := p[|p| - 1], p[0];
    assert Leads(k, p, d, c);
    if !Blind(k, c, d) {
      if forall j | 0 <= j < |p| - 1 :: !Blind(k, p[j], p[j + 1]) {
        HeightFalls(k, g, rank, clock, p, |p| - 1);
        SearchedDescends(k, g, rank, clock, c, d);
        assert false;
      }
      var j :| 0 <= j < |p| - 1 && Blind(k, p[j], p[j + 1]);
      Rotate(k, p, j);
    }
  }

  lemma OpenMeansNoCircle(k: Config, g: Graph, rank: Rank, clock: nat)
    requires GraphOf(k, g) && WellFormed(k) && Timed(g, rank, clock) && BlindReadsOpen(k)
    ensures NoCircle(k)
  {
    hide GraphOf, WellFormed, Timed, BlindReadsOpen, Height, Reads, Chain;
    forall c, d | Reads(k, c, d) ensures !Reaches(k, d, c) {
      forall p ensures !Leads(k, p, d, c) {
        if Leads(k, p, d, c) {
          assert Chain(k, p);
          CircleIsBlind(k, g, rank, clock, p);
          assert false;
        }
      }
    }
  }

  /** After a clean search, a configuration can be evaluated in some order if and
      only if no blind read closes a circle. The loops that are missed are exactly
      those through the selection of a choice, through MODULES as the decider of a
      type, and through the mode of a choice as seen from outside. */
  lemma PassedCheckExact(k: Config, g: Graph, vis: Colours)
    requires WellFormed(k) && MembersDefined(k) && GraphOf(k, g) && Fresh(g, vis) && VisitAll(g, vis, 0).out.Clean?
    ensures (exists rank :: LoopFree(k, rank)) <==> MembersApart(k) && TypesSettled(k) && ModesSettled(k)
  {
    hide WellFormed, MembersDefined, GraphOf, Fresh, VisitAll, Closed, Ranked, LoopFree, Blind, Reads, Reaches,
      MembersApart, TypesSettled, ModesSettled;
    GraphClosed(k, g);
    var rank, clock := CleanIsRanked(g, vis);
    OrderIffNoCircle(k);
    OpenIffSettled(k);
    if BlindReadsOpen(k) { OpenMeansNoCircle(k, g, rank, clock); }
    assert NoCircle(k) ==> BlindReadsOpen(k) by {
      forall c, d | NoCircle(k) && Blind(k, c, d) ensures !Reaches(k, d, c) { BlindReads(k, c, d); }
    }
  }

  lemma BlindReads(k: Config, c: Cell, d: Cell)
    requires Blind(k, c, d)
    ensures Reads(k, c, d)
  {
  }

  lemma LeadsNowhere(k: Config, d: Cell, c: Cell)
    requires StaticCells(k, d) == {} && Reads(k, c, d)
    ensures !Reaches(k, d, c)
  {
    forall p ensures !Leads(k, p, d, c) {
      assert |p| > 1 && p[0] == d && Chain(k, p) ==> Reads(k, p[0], p[0 + 1]);
    }
  }

  /** Without choices only MODULES can be overlooked. */
  lemma PassedCheckWithoutChoices(k: Config, g: Graph, vis: Colours)
    requires k.choices == []
    requires WellFormed(k) && GraphOf(k, g) && Fresh(g, vis) && VisitAll(g, vis, 0).out.Clean?
    ensures (exists rank :: LoopFree(k, rank)) <==> TypesSettled(k)
  {
    assert MembersDefined(k) && forall c: nat :: k.C(c) == UNDEFINED_CHOICE;
    hide WellFormed, MembersDefined, GraphOf, Fresh, VisitAll, LoopFree, TypesSettled;
    PassedCheckExact(k, g, vis);
    forall c, d | Reads(k, c, d) && ModeRead(k, c, d) ensures !Reaches(k, d, c) { LeadsNowhere(k, d, c); }
  }
}
