/** Why pruned invalidation is sound. `_dependents` is built from the static
    dependencies, invalidation stops at items without a cached visibility, and
    still no stale value survives. */
module KconfigInvalidation {
  import opened KconfigModel
  import opened KconfigReference

  function ExprItems(x: Expr): set<Item> {
    match x
    case Leaf(i) => {i}
    case And(l, r) => ExprItems(l) + ExprItems(r)
    case Or(l, r) => ExprItems(l) + ExprItems(r)
    case Not(y) => ExprItems(y)
    case Rel(_, a, b) => {a, b}
  }

  function PromptItems(ps: seq<Expr>): set<Item> {
    if ps == [] then {} else PromptItems(ps[..|ps| - 1]) + ExprItems(ps[|ps| - 1])
  }

  function DefaultItems(ds: seq<Default>): set<Item> {
    if ds == [] then {} else ExprItems(ds[0].value) + ExprItems(ds[0].cond) + DefaultItems(ds[1..])
  }

  function RangeItems(rs: seq<Range>): set<Item> {
    if rs == [] then {} else {rs[0].low, rs[0].high} + ExprItems(rs[0].cond) + RangeItems(rs[1..])
  }

  function CondItems(ds: seq<ChoiceDefault>): set<Item> {
    if ds == [] then {} else ExprItems(ds[0].cond) + CondItems(ds[1..])
  }

  /** The items that `i` is registered with by _build_dep() and _add_choice_deps(). */
  function Deps(k: Config, i: Item): set<Item> {
    match i
    case Sym(s) =>
      var d := k.S(s);
      PromptItems(d.prompts) + DefaultItems(d.defaults) + ExprItems(d.revDep) +
      ExprItems(d.weakRevDep) + RangeItems(d.ranges) + ExprItems(d.directDep)
    case Ch(c) => ChoiceItems(k, c) + set m | m in k.C(c).members :: Sym(m)
    case _ => {}
  }

  function DefinedItems(k: Config): set<Item> {
    (set s | 0 <= s < |k.syms| :: Sym(s)) + (set c | 0 <= c < |k.choices| :: Ch(c))
  }

  /** `_dependents` of an item. */
  function Dependents(k: Config, i: Item): set<Item> {
    set j | j in DefinedItems(k) && i in Deps(k, j)
  }

  /** Choice symbols are members of their choice and have it among their
      dependencies (their prompts lie inside it); choice defaults are members. */
  predicate WellFormed(k: Config) {
    && (forall s | 0 <= s < |k.syms| && k.syms[s].choice.Some? ::
          var c := k.syms[s].choice.value;
          c < |k.choices| && s in k.choices[c].members && Ch(c) in Deps(k, Sym(s)))
    && (forall c, i | 0 <= c < |k.choices| && 0 <= i < |k.choices[c].defaults| ::
          k.choices[c].defaults[i].member in k.choices[c].members)
  }

  predicate IsModules(k: Config, i: Item) { k.modules.Some? && i == Sym(k.modules.value) }

  // ------------------------------ static cells belong to static dependencies

  predicate TristateChoiceIn(k: Config, items: set<Item>) {
    exists i :: i in items && i.Ch? && k.C(i.choice).origType == TRISTATE
  }

  /** The cells belong to the items, but for MODULES, which decides the type of what
      is itself tristate and of tristate choices among the items. */
  predicate OwnersIn(k: Config, cells: set<Cell>, items: set<Item>, own: Type) {
    forall d | d in cells ::
      (d.Owner() in items && !d.Pick?) || (d in ModulesCells(k) && (own == TRISTATE || TristateChoiceIn(k, items)))
  }

  /** The cells of a symbol that are computed before one of its own, and the
      selection of its choice. */
  function OwnBelow(k: Config, s: nat, c: Cell): set<Cell> {
    match c
    case TriVal(_) => {Vis(Sym(s))} + (match k.S(s).choice case None => {} case Some(h) => {Pick(h)})
    case StrVal(_) => {Vis(Sym(s)), TriVal(s)}
    case _ => {}
  }

  lemma {:induction false} ExprOwners(k: Config, x: Expr)
    ensures OwnersIn(k, ExprCells(k, x), ExprItems(x), BOOL)
  {
    match x
    case Leaf(i) =>
    case And(l, r) => ExprOwners(k, l); ExprOwners(k, r);
    case Or(l, r) => ExprOwners(k, l); ExprOwners(k, r);
    case Not(y) => ExprOwners(k, y);
    case Rel(_, a, b) =>
  }

  lemma {:induction false} PromptOwners(k: Config, ps: seq<Expr>)
    ensures OwnersIn(k, PromptCells(k, ps), PromptItems(ps), BOOL)
  {
    if ps != [] {
      PromptOwners(k, ps[..|ps| - 1]);
      ExprOwners(k, ps[|ps| - 1]);
    }
  }

  lemma {:induction false} DefaultOwners(k: Config, ds: seq<Default>)
    ensures OwnersIn(k, DefaultCells(k, ds), DefaultItems(ds), BOOL)
    ensures OwnersIn(k, StrDefaultCells(k, ds), DefaultItems(ds), BOOL)
  {
    if ds != [] {
      ExprOwners(k, ds[0].cond);
      ExprOwners(k, ds[0].value);
      DefaultOwners(k, ds[1..]);
    }
  }

  lemma {:induction false} RangeOwners(k: Config, rs: seq<Range>)
    ensures OwnersIn(k, RangeCells(k, rs), RangeItems(rs), BOOL)
  {
    if rs != [] {
      ExprOwners(k, rs[0].cond);
      RangeOwners(k, rs[1..]);
    }
  }

  lemma {:induction false} ChoiceDefaultOwners(k: Config, ds: seq<ChoiceDefault>, members: seq<nat>)
    requires forall i | 0 <= i < |ds| :: ds[i].member in members
    ensures OwnersIn(k, ChoiceDefaultCells(k, ds) - MemberCells(members), CondItems(ds), BOOL)
  {
    if ds != [] {
      ExprOwners(k, ds[0].cond);
      ChoiceDefaultOwners(k, ds[1..], members);
    }
  }

  lemma OnePrompt(e: Env, x: Expr)
    ensures PromptVis(e, [x]) == Eval(e, x)
    ensures PromptCells(e.k, [x]) == ExprCells(e.k, x) && PromptItems([x]) == ExprItems(x)
  {
    assert [x][..0] == [] && [x][|[x]| - 1] == x;
  }

  lemma SymOwners(k: Config, s: nat, c: Cell)
    requires WellFormed(k)
    requires c in {Vis(Sym(s)), TriVal(s), StrVal(s)}
    ensures OwnersIn(k, StaticCells(k, c) - OwnBelow(k, s, c), Deps(k, Sym(s)), k.S(s).origType)
  {
    var d := k.S(s);
    PromptOwners(k, d.prompts);
    DefaultOwners(k, d.defaults);
    RangeOwners(k, d.ranges);
    ExprOwners(k, d.revDep);
    ExprOwners(k, d.weakRevDep);
    ExprOwners(k, d.directDep);
  }

  /** What a choice is registered with by _build_dep(). */
  function ChoiceItems(k: Config, c: nat): set<Item> {
    PromptItems(k.C(c).prompts) + CondItems(k.C(c).defaults)
  }

  lemma ChoiceOwners(k: Config, c: nat)
    requires WellFormed(k)
    ensures OwnersIn(k, StaticCells(k, Vis(Ch(c))), ChoiceItems(k, c), k.C(c).origType)
    ensures OwnersIn(k, StaticCells(k, Pick(c)) - MemberCells(k.C(c).members) - {Vis(Ch(c))}, ChoiceItems(k, c),
            k.C(c).origType)
  {
    PromptOwners(k, k.C(c).prompts);
    ChoiceDefaultOwners(k, k.C(c).defaults, k.C(c).members);
  }

  lemma UndefinedReadsNothing(k: Config, c: Cell)
    requires c.Owner() !in DefinedItems(k)
    ensures forall d | d in StaticCells(k, c) :: d.Owner() == c.Owner()
  {
    match c
    case Vis(Sym(s)) => assert k.S(s) == UNDEFINED_SYM;
    case Vis(Ch(c)) => assert k.C(c) == UNDEFINED_CHOICE;
    case Vis(_) =>
    case TriVal(s) => assert k.S(s) == UNDEFINED_SYM;
    case StrVal(s) => assert k.S(s) == UNDEFINED_SYM;
    case Pick(c) => assert k.C(c) == UNDEFINED_CHOICE;
  }

  /** A cell can only read its own item's cells, MODULES, and items that have
      its owner among their dependents. */
  lemma ReadsAreRegistered(k: Config, c: Cell, d: Cell)
    requires WellFormed(k)
    requires d in StaticCells(k, c)
    ensures || d.Owner() == c.Owner()
            || IsModules(k, d.Owner())
            || c.Owner() in Dependents(k, d.Owner())
  {
    hide StaticCells, WellFormed;
    if c.Owner() !in DefinedItems(k) {
      UndefinedReadsNothing(k, c);
    } else if c.Owner().Sym? {
      SymOwners(k, c.Owner().sym, c);
      if k.S(c.Owner().sym).choice.Some? { OwnChoice(k, c.Owner().sym); }
      hide Deps;
    } else {
      var h := c.Owner().choice;
      ChoiceOwners(k, h);
      assert Deps(k, Ch(h)) == ChoiceItems(k, h) + set m | m in k.C(h).members :: Sym(m);
      hide Deps, ChoiceItems;
    }
  }

  lemma OwnChoice(k: Config, s: nat)
    requires WellFormed(k) && s < |k.syms| && k.S(s).choice.Some?
    ensures Ch(k.S(s).choice.value) in Deps(k, Sym(s)) && s in k.C(k.S(s).choice.value).members
    ensures k.S(s).choice.value < |k.choices|
  {
  }

  // ------------------------------------------------------ the cache invariant

  /** Cells with a value of their own that never changes; the only ones that are
      cached without the item's visibility. */
  predicate Constant(k: Config, c: Cell) {
    match c
    case TriVal(s) => !k.S(s).origType.Logical()
    case StrVal(s) => k.S(s).origType == UNKNOWN
    case _ => false
  }

  type Cache = map<Cell, Val>

  /** Every cached value is the reference value, everything it was computed from
      is cached too, and so is the visibility of its item. */
  ghost predicate Sound(k: Config, u: User, rank: Cell -> nat, cache: Cache) {
    forall c | c in cache ::
      && cache[c] == Reference(k, u, rank)(c)
      && Step(At(k, u, rank), c).seen <= cache.Keys
      && (Constant(k, c) || Vis(c.Owner()) in cache)
  }

  lemma SoundExtend(k: Config, u: User, rank: Cell -> nat, cache: Cache, c: Cell, v: Val)
    requires LoopFree(k, rank) && WellFormedUser(k, u)
    requires Sound(k, u, rank, cache)
    requires Step(At(k, u, rank), c).seen <= cache.Keys
    requires v == Step(At(k, u, rank), c).val
    requires Constant(k, c) || Vis(c.Owner()) in cache || c == Vis(c.Owner())
    ensures Sound(k, u, rank, cache[c := v])
  {
    hide Step, LoopFree, Constant;
    ReferenceSolvesAt(k, u, rank, c);
  }

  /** `after` is `before` without the cells of `gone`. */
  ghost predicate Dropped(before: Cache, after: Cache, gone: set<Item>) {
    && (forall c :: c in after <==> c in before && c.Owner() !in gone)
    && (forall c | c in after :: after[c] == before[c])
  }

  /** An invalidation on its way: nothing registered with a dropped item still
      counts as cached, except the dependents of `i` that are still to do, and
      dropping MODULES has dropped every defined item. */
  ghost predicate Invalidating(k: Config, before: Cache, after: Cache, gone: set<Item>, i: Item, todo: set<Item>) {
    && Dropped(before, after, gone)
    && (forall p, q | p in gone && q in Dependents(k, p) :: Vis(q) !in after || (p == i && q in todo))
    && ((exists p :: p in gone && IsModules(k, p)) ==> forall c | c in after :: c.Owner() !in DefinedItems(k))
  }

  ghost predicate Invalidated(k: Config, before: Cache, after: Cache, gone: set<Item>) {
    && Dropped(before, after, gone)
    && (forall p, q | p in gone && q in Dependents(k, p) :: Vis(q) !in after)
    && ((exists p :: p in gone && IsModules(k, p)) ==> forall c | c in after :: c.Owner() !in DefinedItems(k))
  }

  lemma StartInvalidating(k: Config, before: Cache, after: Cache, i: Item)
    requires Dropped(before, after, {i}) && !IsModules(k, i)
    ensures Invalidating(k, before, after, {i}, i, Dependents(k, i))
  {
  }

  lemma SkipUncached(k: Config, before: Cache, after: Cache, gone: set<Item>, i: Item, todo: set<Item>, j: Item)
    requires Invalidating(k, before, after, gone, i, todo) && Vis(j) !in after
    ensures Invalidating(k, before, after, gone, i, todo - {j})
  {
    hide Dependents, Dropped, DefinedItems;
  }

  lemma NestedInvalidation(k: Config, before: Cache, mid: Cache, after: Cache, gone: set<Item>, more: set<Item>,
                           i: Item, todo: set<Item>, j: Item)
    requires Invalidating(k, before, mid, gone, i, todo) && Invalidated(k, mid, after, more) && j in more
    ensures Invalidating(k, before, after, gone + more, i, todo - {j})
  {
    hide Dependents, DefinedItems;
  }

  lemma InvalidationDone(k: Config, before: Cache, after: Cache, gone: set<Item>, i: Item)
    requires Invalidating(k, before, after, gone, i, {})
    ensures Invalidated(k, before, after, gone)
  {
    hide Dependents, Dropped, DefinedItems;
  }

  /** The users differ on invalidated items, promptless symbols, and logical
      symbols that have nothing cached. */
  ghost predicate ChangeCovered(k: Config, u: User, w: User, after: Cache, gone: set<Item>) {
    && (forall s: nat ::
          || Sym(s) in gone || k.S(s).prompts == []
          || (k.S(s).origType.Logical() && Vis(Sym(s)) !in after)
          || (u.TriOf(s) == w.TriOf(s) && u.StrOf(s) == w.StrOf(s)))
    && (forall c: nat :: Ch(c) in gone || (u.ModeOf(c) == w.ModeOf(c) && u.SelectionOf(c) == w.SelectionOf(c)))
  }

  ghost predicate DiffersOnlyOn(u: User, w: User, items: set<Item>) {
    && (forall s: nat :: Sym(s) in items || (u.TriOf(s) == w.TriOf(s) && u.StrOf(s) == w.StrOf(s)))
    && (forall c: nat :: Ch(c) in items || (u.ModeOf(c) == w.ModeOf(c) && u.SelectionOf(c) == w.SelectionOf(c)))
  }

  lemma ConstantReadsNothing(e: Env, c: Cell)
    requires Constant(e.k, c)
    ensures Step(e, c).seen == {}
  {
  }

  /** The comment in _rec_invalidate(), made precise: a surviving cell has read
      nothing that was dropped. */
  lemma SurvivorReadsSurvivors(k: Config, u: User, rank: Cell -> nat, before: Cache, after: Cache, gone: set<Item>,
      c: Cell)
    requires LoopFree(k, rank) && WellFormed(k) && WellFormedUser(k, u)
    requires Sound(k, u, rank, before) && Invalidated(k, before, after, gone)
    requires c in after
    ensures Step(At(k, u, rank), c).seen <= after.Keys
  {
    hide Step, StaticCells, LoopFree, WellFormed, Constant, Dependents, DefinedItems;
    var e := At(k, u, rank);
    forall d | d in Step(e, c).seen ensures d in after {
      StepStatic(e, c);
      assert d in before;
      if d.Owner() in gone {
        ReadsAreRegistered(k, c, d);
        if Constant(k, c) { ConstantReadsNothing(e, c); }
        if c.Owner() !in DefinedItems(k) { UndefinedReadsNothing(k, c); }
        assert false;
      }
    }
  }

  /** What survives on an item survives together with its visibility. */
  lemma SurvivorVisible(k: Config, u: User, rank: Cell -> nat, before: Cache, after: Cache, gone: set<Item>, c: Cell)
    requires Sound(k, u, rank, before) && Invalidated(k, before, after, gone)
    requires c in after
    ensures Vis(c.Owner()) in after || (c.Owner().Sym? && !k.S(c.Owner().sym).origType.Logical())
  {
    hide Step, Reference, Dependents, DefinedItems;
  }

  lemma PromptlessInvisible(k: Config, u: User, rank: Cell -> nat, s: nat)
    requires LoopFree(k, rank) && WellFormedUser(k, u)
    requires k.S(s).prompts == []
    ensures Reference(k, u, rank)(Vis(Sym(s))).T() == 0
  {
    hide Reference, LoopFree;
    ReferenceSolvesAt(k, u, rank, Vis(Sym(s)));
  }

  /** A surviving cell evaluates as it did before the change, in the same way. */
  lemma {:induction false} SurvivorUnchanged(k: Config, u: User, w: User, rank: Cell -> nat,
                                             before: Cache, after: Cache, gone: set<Item>, c: Cell)
    requires LoopFree(k, rank) && WellFormed(k) && WellFormedUser(k, u) && WellFormedUser(k, w)
    requires Sound(k, u, rank, before) && Invalidated(k, before, after, gone)
    requires ChangeCovered(k, u, w, after, gone)
    requires c in after
    ensures Reference(k, w, rank)(c) == Reference(k, u, rank)(c)
    ensures Step(At(k, w, rank), c) == Step(At(k, u, rank), c)
    decreases rank(c)
  {
    hide Step, StaticCells, LoopFree, WellFormed, Constant, Dependents, Reference, Sound;
    var e, f := At(k, u, rank), At(k, w, rank);
    SurvivorReadsSurvivors(k, u, rank, before, after, gone, c);
    StepStatic(e, c);
    forall d | d in Step(e, c).seen
      ensures e.v(d) == f.v(d) && (d.Owner().Ch? ==> ModeSame(e, f, d.Owner().choice))
    {
      LoopFreeAt(k, rank, c, d);
      SurvivorUnchanged(k, u, w, rank, before, after, gone, d);
    }
    SurvivorVisible(k, u, rank, before, after, gone, c);
    if c.Owner().Sym? && k.S(c.Owner().sym).prompts == [] { PromptlessInvisible(k, u, rank, c.Owner().sym); }
    StepCong(e, f, c);
    ReferenceSolvesAt(k, u, rank, c);
    ReferenceSolvesAt(k, w, rank, c);
  }

  lemma LoopFreeAt(k: Config, rank: Cell -> nat, c: Cell, d: Cell)
    requires LoopFree(k, rank) && d in StaticCells(k, c)
    ensures rank(d) < rank(c)
  {
    hide StaticCells;
  }

  /** After an invalidation that covers the change, the remaining cache is sound
      for the changed user values. */
  lemma InvalidationSound(k: Config, u: User, w: User, rank: Cell -> nat, before: Cache, after: Cache, gone: set<Item>)
    requires LoopFree(k, rank) && WellFormed(k) && WellFormedUser(k, u) && WellFormedUser(k, w)
    requires Sound(k, u, rank, before) && Invalidated(k, before, after, gone)
    requires ChangeCovered(k, u, w, after, gone)
    ensures Sound(k, w, rank, after)
  {
    hide Step, LoopFree, WellFormed, Dependents, Reference, ChangeCovered, DefinedItems;
    forall c | c in after
      ensures after[c] == Reference(k, w, rank)(c)
      ensures Step(At(k, w, rank), c).seen <= after.Keys
    {
      SurvivorReadsSurvivors(k, u, rank, before, after, gone, c);
      SurvivorUnchanged(k, u, w, rank, before, after, gone, c);
    }
  }
}
