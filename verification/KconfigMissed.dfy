/** Loops that the check does not see, one for each kind of read that it does not
    follow. */
module KconfigMissed {
  import opened Wrappers
  import opened KconfigModel
  import opened KconfigReference
  import opened KconfigInvalidation
  import opened DepLoop
  import opened KconfigLoops

  const NOTHING_SET := User(map[], map[], map[])

  /** The cell has the value that its own step computes. */
  ghost predicate Computed(e: Env, c: Cell) { e.v(c) == Step(e, c).val }

  /** Three values that are each looked up to compute the next leave no order. */
  lemma CircleHasNoOrder(e: Env, a: Cell, b: Cell, c: Cell)
    requires WellFormedUser(e.k, e.u)
    requires b in Step(e, a).seen && c in Step(e, b).seen && a in Step(e, c).seen
    ensures forall rank :: !LoopFree(e.k, rank)
  {
    hide Step, StaticCells, WellFormedUser;
    StepStatic(e, a);
    StepStatic(e, b);
    StepStatic(e, c);
    forall rank ensures !LoopFree(e.k, rank) {
      assert LoopFree(e.k, rank) ==> rank(b) < rank(a);
      assert LoopFree(e.k, rank) ==> rank(c) < rank(b);
    }
  }

  // ------------------------------------------------------------------- MODULES

  /** A MODULES symbol of type tristate that defaults to m passes the loop check,
      and yet its value is looked up while computing its value, whatever the
      valuation. */
  lemma ModulesLoopUnseen(k: Config, v: Valuation)
    requires k.choices == [] && k.modules == Some(0)
    requires k.syms == [SymDef(TRISTATE, [], [Default(Leaf(Lit(1)), YES)], [], NO, NO, YES, None, "MODULES", false)]
    ensures GraphOf(k, Graph([[]], map[], [])) && VisitAll(Graph([[]], map[], []), map[S(0) := White], 0).out.Clean?
    ensures TriVal(0) in Step(Env(k, NOTHING_SET, v), TriVal(0)).seen
  {
    var g := Graph([[]], map[], []);
    assert Deps(k, Sym(0)) == {Lit(0), Lit(1), Lit(2)} by {
      assert DefaultItems(k.syms[0].defaults[1..]) == {};
    }
    var e := Env(k, NOTHING_SET, v);
    assert k.S(0) == k.syms[0];
    assert FirstDefault(e, k.syms[0].defaults).val == Some((Default(Leaf(Lit(1)), YES), 2));
    assert VisitDependents(g, map[S(0) := White][S(0) := Grey], 0, 0).out.Clean?;
  }

  // ------------------------------------------------------- the selection of a choice

  /** SWITCH guards a choice of FIRST and SECOND; FIRST also depends on SECOND. */
  const SWITCH := SymDef(BOOL, [YES], [], [], NO, NO, YES, None, "SWITCH", false)
  const BOTH := And(Leaf(Sym(2)), Leaf(Ch(0)))
  const FIRST := SymDef(BOOL, [BOTH], [], [], NO, NO, BOTH, Some(0), "FIRST", false)
  const SECOND := SymDef(BOOL, [Leaf(Ch(0))], [], [], NO, NO, Leaf(Ch(0)), Some(0), "SECOND", false)
  const GUARDED := ChoiceDef(BOOL, [Leaf(Sym(0))], [], [1, 2], false)

  const MISSED := Graph([[C(0)], [], [S(1)]], map[1 := 0, 2 := 0], [[1, 2]])
  const ALL_WHITE: Colours := map[S(0) := White, S(1) := White, S(2) := White, C(0) := White]

  /** On the way, with the choice entered from SWITCH. */
  const ENTERED: Colours := ALL_WHITE[S(0) := Grey][C(0) := Grey]

  /** FIRST is done before SECOND is met, which FIRST depends on. */
  lemma MembersPass()
    ensures VisitMembers(MISSED, ENTERED, 0, None, 0) == Search(ENTERED[S(1) := Black][S(2) := Black], Clean)
  {
    var g, v, w := MISSED, ENTERED, ENTERED[S(1) := Black];
    assert g.D(1) == [] && g.D(2) == [S(1)] && g.M(0) == [1, 2];
    assert VisitDependents(g, v[S(1) := Grey], 1, 0) == Search(v[S(1) := Grey], Clean);
    assert v[S(1) := Grey][S(1) := Black] == w;
    assert VisitSym(g, v, 1, true) == Search(w, Clean);
    var x := w[S(2) := Grey];
    assert Visit(g, x, S(1)) == VisitSym(g, x, 1, false) == Search(x, Clean);
    assert VisitDependents(g, x, 2, 1) == Search(x, Clean);
    assert VisitDependents(g, x, 2, 0) == Search(x, Clean);
    assert x[S(2) := Black] == w[S(2) := Black];
    assert VisitSym(g, w, 2, true) == Search(w[S(2) := Black], Clean);
    hide VisitSym, VisitDependents, Visit;
    assert VisitMembers(g, w[S(2) := Black], 0, None, 2) == Search(w[S(2) := Black], Clean);
    assert VisitMembers(g, w, 0, None, 1) == Search(w[S(2) := Black], Clean);
  }

  lemma SearchPasses()
    ensures VisitAll(MISSED, ALL_WHITE, 0).out.Clean?
  {
    var g, grey, v := MISSED, ALL_WHITE[S(0) := Grey], ENTERED[S(1) := Black][S(2) := Black];
    MembersPass();
    assert g.D(0) == [C(0)];
    hide VisitMembers;
    assert VisitChoice(g, grey, 0, None) == Search(v[C(0) := Black], Clean);
    assert Visit(g, grey, C(0)) == VisitChoice(g, grey, 0, None);
    hide VisitChoice;
    var w := v[C(0) := Black];
    assert VisitDependents(g, w, 0, 1) == Search(w, Clean);
    assert VisitDependents(g, grey, 0, 0) == Search(w, Clean);
    hide Visit, VisitDependents;
    var x := w[S(0) := Black];
    assert VisitSym(g, ALL_WHITE, 0, false) == Search(x, Clean);
    assert VisitSym(g, x, 1, false) == Search(x, Clean) && VisitSym(g, x, 2, false) == Search(x, Clean);
    hide VisitSym;
    assert VisitAll(g, x, 3) == Search(x, Clean);
    assert VisitAll(g, x, 2) == Search(x, Clean);
    assert VisitAll(g, x, 1) == Search(x, Clean);
  }

  lemma NothingVisited()
    ensures Fresh(MISSED, ALL_WHITE)
  {
  }

  predicate Missed(k: Config) {
    k.syms == [SWITCH, FIRST, SECOND] && k.choices == [GUARDED] && k.modules == None
  }

  lemma MissedDefined(k: Config)
    requires Missed(k)
    ensures |k.syms| == 3 && |k.choices| == 1
    ensures k.S(0) == SWITCH && k.S(1) == FIRST && k.S(2) == SECOND && k.C(0) == GUARDED
    ensures k.syms[0].choice == None && k.syms[1].choice == k.syms[2].choice == Some(0)
    ensures k.choices[0].members == [1, 2]
  {
  }

  lemma MissedSymDeps(k: Config, s: nat)
    requires Missed(k) && s < 3
    ensures Deps(k, Sym(s)) ==
            if s == 0 then {Lit(2), Lit(0)} else if s == 1 then {Sym(2), Ch(0), Lit(0)} else {Ch(0), Lit(0)}
  {
    var e := Env(k, NOTHING_SET, (c: Cell) => PickV(None));
    MissedDefined(k);
    hide Missed;
    OnePrompt(e, k.S(s).prompts[0]);
  }

  lemma MissedChoiceDeps(k: Config)
    requires Missed(k)
    ensures BuiltDeps(k, Ch(0)) == {Sym(0)}
  {
    var e := Env(k, NOTHING_SET, (c: Cell) => PickV(None));
    MissedDefined(k);
    hide Missed;
    OnePrompt(e, GUARDED.prompts[0]);
  }

  lemma MissedDependents(k: Config, u: nat, n: Node)
    requires Missed(k) && u < 3
    ensures n in MISSED.D(u) <==> NodeItem(n) in DefinedItems(k) && Sym(u) in BuiltDeps(k, NodeItem(n))
  {
    MissedDefined(k);
    assert MISSED.D(u) == if u == 0 then [C(0)] else if u == 1 then [] else [S(1)];
    assert DefinedItems(k) == {Sym(0), Sym(1), Sym(2), Ch(0)};
    hide Missed, DefinedItems;
    if n.S? && n.sym < 3 {
      MissedSymDeps(k, n.sym);
      assert BuiltDeps(k, NodeItem(n)) == Deps(k, Sym(n.sym));
    }
    MissedChoiceDeps(k);
    hide Deps, BuiltDeps;
  }

  lemma MissedGraph(k: Config)
    requires Missed(k)
    ensures GraphOf(k, MISSED)
  {
    MissedDefined(k);
    hide Missed, BuiltDeps, DefinedItems;
    forall u: nat, n: Node | u < |k.syms|
      ensures n in MISSED.D(u) <==> NodeItem(n) in DefinedItems(k) && Sym(u) in BuiltDeps(k, NodeItem(n))
    {
      MissedDependents(k, u, n);
    }
  }

  /** SWITCH set to y opens the choice, in y mode because it is a bool one, and with
      it SECOND. */
  lemma Opened(e: Env)
    requires Missed(e.k) && e.u == User(map[0 := UserTri(2)], map[], map[])
    requires Computed(e, Vis(Sym(0))) && Computed(e, TriVal(0)) && Computed(e, Vis(Ch(0))) && Computed(e, Vis(Sym(2)))
    ensures Mode(e, 0).val == 2 && e.v(Vis(Sym(2))).T() == 2
  {
    MissedDefined(e.k);
    hide Missed;
    OnePrompt(e, YES);
    assert e.v(Vis(Sym(0))).T() == 2;
    assert e.v(TriVal(0)).T() == 2;
    OnePrompt(e, Leaf(Sym(0)));
    assert e.v(Vis(Ch(0))).T() == 2;
    OnePrompt(e, Leaf(Ch(0)));
  }

  lemma EndlessVisibility(e: Env)
    requires Missed(e.k)
    ensures TriVal(2) in Step(e, Vis(Sym(1))).seen
  {
    MissedDefined(e.k);
    hide Missed, Mode;
    OnePrompt(e, FIRST.prompts[0]);
  }

  lemma EndlessValue(e: Env)
    requires Missed(e.k) && e.v(Vis(Sym(2))).T() == 2
    ensures Pick(0) in Step(e, TriVal(2)).seen
  {
    MissedDefined(e.k);
    hide Missed;
  }

  lemma EndlessSelection(e: Env)
    requires Missed(e.k) && e.u.SelectionOf(0) == None && Mode(e, 0).val == 2
    ensures Vis(Sym(1)) in Step(e, Pick(0)).seen
  {
    MissedDefined(e.k);
    hide Missed, Mode;
  }

  /** The search passes this configuration, for which there is no order of
      evaluation. With SWITCH set to y by the user, three values are each looked up
      to compute the next: the visibility of FIRST, the value of SECOND and the
      selection. */
  lemma LoopMissed(k: Config, e: Env)
    requires Missed(k) && e.k == k && e.u == User(map[0 := UserTri(2)], map[], map[])
    requires Computed(e, Vis(Sym(0))) && Computed(e, TriVal(0)) && Computed(e, Vis(Ch(0))) && Computed(e, Vis(Sym(2)))
    ensures GraphOf(k, MISSED) && Fresh(MISSED, ALL_WHITE) && VisitAll(MISSED, ALL_WHITE, 0).out.Clean?
    ensures forall rank :: !LoopFree(k, rank)
    ensures TriVal(2) in Step(e, Vis(Sym(1))).seen
    ensures Pick(0) in Step(e, TriVal(2)).seen
    ensures Vis(Sym(1)) in Step(e, Pick(0)).seen
  {
    Opened(e);
    hide GraphOf, VisitAll, Mode, Fresh, Missed, Step, LoopFree, Computed;
    SearchPasses();
    NothingVisited();
    MissedGraph(k);
    EndlessVisibility(e);
    EndlessValue(e);
    EndlessSelection(e);
    CircleHasNoOrder(e, Vis(Sym(1)), TriVal(2), Pick(0));
  }

  // ------------------------------------------- the mode of a choice, from outside

  /** The choice of ONLY is prompted for if INNER is set, and INNER stands in a menu
      inside the choice. */
  const ONLY := SymDef(BOOL, [Leaf(Ch(0))], [], [], NO, NO, Leaf(Ch(0)), Some(0), "ONLY", false)
  const INNER := SymDef(BOOL, [Leaf(Ch(0))], [], [], NO, NO, Leaf(Ch(0)), None, "INNER", false)
  const ASKED := ChoiceDef(BOOL, [Leaf(Sym(1))], [], [0], false)

  const MODE_LOOP := Graph([[], [C(0)]], map[0 := 0], [[0]])
  const UNSEEN: Colours := map[S(0) := White, S(1) := White, C(0) := White]

  predicate Nested(k: Config) { k.syms == [ONLY, INNER] && k.choices == [ASKED] && k.modules == None }

  lemma ModeSearchPasses()
    ensures VisitAll(MODE_LOOP, UNSEEN, 0).out.Clean?
  {
    var g := MODE_LOOP;
    var a := UNSEEN[S(0) := Grey];
    var b := a[C(0) := Grey];
    assert g.D(0) == [] && g.D(1) == [C(0)] && g.M(0) == [0];
    assert VisitDependents(g, a, 0, 0) == Search(a, Clean);
    assert VisitMembers(g, b, 0, Some(0), 1) == Search(b, Clean);
    assert VisitMembers(g, b, 0, Some(0), 0) == Search(b, Clean);
    assert VisitChoice(g, a, 0, Some(0)) == Search(b[C(0) := Black], Clean);
    var c := b[C(0) := Black][S(0) := Black];
    assert VisitSym(g, UNSEEN, 0, false) == Search(c, Clean);
    var d := c[S(1) := Grey];
    assert Visit(g, d, C(0)) == VisitChoice(g, d, 0, None) == Search(d, Clean);
    assert VisitDependents(g, d, 1, 1) == Search(d, Clean);
    assert VisitDependents(g, d, 1, 0) == Search(d, Clean);
    assert VisitSym(g, c, 1, false) == Search(d[S(1) := Black], Clean);
    hide VisitSym, VisitDependents, VisitMembers, VisitChoice, Visit;
    assert VisitAll(g, d[S(1) := Black], 2).out.Clean?;
    assert VisitAll(g, c, 1).out.Clean?;
  }

  lemma NestedDeps(k: Config)
    requires Nested(k)
    ensures |k.syms| == 2 && |k.choices| == 1 && k.S(0) == ONLY && k.S(1) == INNER && k.C(0) == ASKED
    ensures Deps(k, Sym(0)) == Deps(k, Sym(1)) == {Ch(0), Lit(0)} && BuiltDeps(k, Ch(0)) == {Sym(1)}
  {
    var e := Env(k, NOTHING_SET, (c: Cell) => PickV(None));
    OnePrompt(e, Leaf(Ch(0)));
    OnePrompt(e, Leaf(Sym(1)));
  }

  lemma NestedGraph(k: Config)
    requires Nested(k)
    ensures GraphOf(k, MODE_LOOP)
  {
    NestedDeps(k);
    assert DefinedItems(k) == {Sym(0), Sym(1), Ch(0)};
    assert MODE_LOOP.D(0) == [] && MODE_LOOP.D(1) == [C(0)];
    assert forall s: nat | s < 2 :: BuiltDeps(k, Sym(s)) == Deps(k, Sym(s));
    hide Deps, BuiltDeps, DefinedItems;
  }

  lemma ModeEndless(e: Env)
    requires Nested(e.k)
    ensures TriVal(1) in Step(e, Vis(Ch(0))).seen
    ensures Vis(Sym(1)) in Step(e, TriVal(1)).seen
    ensures Vis(Ch(0)) in Step(e, Vis(Sym(1))).seen
  {
    NestedDeps(e.k);
    hide Nested, Deps, BuiltDeps;
    OnePrompt(e, Leaf(Sym(1)));
    OnePrompt(e, Leaf(Ch(0)));
  }

  /** The check passes, and the visibility of the choice is looked up to compute
      itself, whatever the valuation and the user. */
  lemma ModeLoopUnseen(k: Config, e: Env)
    requires Nested(k) && e.k == k
    ensures GraphOf(k, MODE_LOOP) && Fresh(MODE_LOOP, UNSEEN) && VisitAll(MODE_LOOP, UNSEEN, 0).out.Clean?
    ensures forall rank :: !LoopFree(k, rank)
    ensures TriVal(1) in Step(e, Vis(Ch(0))).seen
    ensures Vis(Sym(1)) in Step(e, TriVal(1)).seen
    ensures Vis(Ch(0)) in Step(e, Vis(Sym(1))).seen
  {
    hide GraphOf, VisitAll, Nested, Step, LoopFree;
    NestedGraph(k);
    ModeSearchPasses();
    ModeEndless(e);
    var f := e.(u := NOTHING_SET);
    ModeEndless(f);
    CircleHasNoOrder(f, Vis(Ch(0)), TriVal(1), Vis(Sym(1)));
  }

  // ------------------------------- a choice, with no choice among any dependents

  /** A choice that is always visible, and whose first symbol is a plain one. */
  const PLAIN := SymDef(BOOL, [Leaf(Ch(0))], [], [], NO, NO, Leaf(Ch(0)), Some(0), "PLAIN", false)
  const ALWAYS := ChoiceDef(BOOL, [YES], [], [0, 1, 2], false)

  const ALL_INSIDE := Graph([[], [], [S(1)]], map[0 := 0, 1 := 0, 2 := 0], [[0, 1, 2]])

  predicate Inside(k: Config) {
    k.syms == [PLAIN, FIRST, SECOND] && k.choices == [ALWAYS] && k.modules == None
  }

  /** The choice entered from PLAIN. */
  const WITHIN: Colours := ALL_WHITE[S(0) := Grey][C(0) := Grey]

  lemma InsideMembersPass()
    ensures VisitMembers(ALL_INSIDE, WITHIN, 0, Some(0), 0) == Search(WITHIN[S(1) := Black][S(2) := Black], Clean)
  {
    var g, v, w := ALL_INSIDE, WITHIN, WITHIN[S(1) := Black];
    assert g.D(1) == [] && g.D(2) == [S(1)] && g.M(0) == [0, 1, 2];
    assert VisitDependents(g, v[S(1) := Grey], 1, 0) == Search(v[S(1) := Grey], Clean);
    assert v[S(1) := Grey][S(1) := Black] == w;
    assert VisitSym(g, v, 1, true) == Search(w, Clean);
    var x := w[S(2) := Grey];
    assert Visit(g, x, S(1)) == VisitSym(g, x, 1, false) == Search(x, Clean);
    assert VisitDependents(g, x, 2, 1) == Search(x, Clean);
    assert VisitDependents(g, x, 2, 0) == Search(x, Clean);
    assert x[S(2) := Black] == w[S(2) := Black];
    assert VisitSym(g, w, 2, true) == Search(w[S(2) := Black], Clean);
    hide VisitSym, VisitDependents, Visit;
    var done := Search(w[S(2) := Black], Clean);
    assert VisitMembers(g, w[S(2) := Black], 0, Some(0), 3) == done;
    assert VisitMembers(g, w, 0, Some(0), 2) == done;
    assert VisitMembers(g, v, 0, Some(0), 1) == done;
  }

  lemma InsideSearchPasses()
    ensures VisitAll(ALL_INSIDE, ALL_WHITE, 0).out.Clean?
  {
    var g, grey, v := ALL_INSIDE, ALL_WHITE[S(0) := Grey], WITHIN[S(1) := Black][S(2) := Black];
    InsideMembersPass();
    assert g.D(0) == [];
    hide VisitMembers;
    assert VisitDependents(g, grey, 0, 0) == Search(grey, Clean);
    var w := v[C(0) := Black];
    assert VisitChoice(g, grey, 0, Some(0)) == Search(w, Clean);
    hide VisitDependents, VisitChoice;
    var x := w[S(0) := Black];
    assert VisitSym(g, ALL_WHITE, 0, false) == Search(x, Clean);
    assert VisitSym(g, x, 1, false) == Search(x, Clean) && VisitSym(g, x, 2, false) == Search(x, Clean);
    hide VisitSym;
    assert VisitAll(g, x, 3) == Search(x, Clean);
    assert VisitAll(g, x, 2) == Search(x, Clean);
    assert VisitAll(g, x, 1) == Search(x, Clean);
  }

  lemma InsideDeps(k: Config)
    requires Inside(k)
    ensures |k.syms| == 3 && |k.choices| == 1 && k.C(0) == ALWAYS
    ensures k.S(0) == PLAIN && k.S(1) == FIRST && k.S(2) == SECOND
    ensures Deps(k, Sym(0)) == Deps(k, Sym(2)) == {Ch(0), Lit(0)} && Deps(k, Sym(1)) == {Sym(2), Ch(0), Lit(0)}
    ensures BuiltDeps(k, Ch(0)) == {Lit(2)}
  {
    var e := Env(k, NOTHING_SET, (c: Cell) => PickV(None));
    assert k.S(0) == PLAIN && k.S(1) == FIRST && k.S(2) == SECOND && k.C(0) == ALWAYS;
    OnePrompt(e, Leaf(Ch(0)));
    OnePrompt(e, BOTH);
    OnePrompt(e, YES);
  }

  lemma InsideDependents(k: Config, u: nat, n: Node)
    requires Inside(k) && u < 3
    ensures n in ALL_INSIDE.D(u) <==> NodeItem(n) in DefinedItems(k) && Sym(u) in BuiltDeps(k, NodeItem(n))
  {
    InsideDeps(k);
    assert ALL_INSIDE.D(u) == if u == 2 then [S(1)] else [];
    assert DefinedItems(k) == {Sym(0), Sym(1), Sym(2), Ch(0)};
    if n.S? { assert BuiltDeps(k, NodeItem(n)) == Deps(k, Sym(n.sym)); }
    hide Inside, Deps, BuiltDeps, DefinedItems;
    assert n.S? && n.sym < 3 ==> n.sym == 0 || n.sym == 1 || n.sym == 2;
  }

  lemma InsideGraph(k: Config)
    requires Inside(k)
    ensures GraphOf(k, ALL_INSIDE)
  {
    InsideDeps(k);
    hide Inside, BuiltDeps, Deps, DefinedItems;
    forall u: nat, n: Node | u < |k.syms|
      ensures n in ALL_INSIDE.D(u) <==> NodeItem(n) in DefinedItems(k) && Sym(u) in BuiltDeps(k, NodeItem(n))
    {
      InsideDependents(k, u, n);
    }
  }

  lemma InsideOpen(e: Env)
    requires Inside(e.k) && e.u.ModeOf(0) == None && Computed(e, Vis(Ch(0))) && Computed(e, Vis(Sym(2)))
    ensures Mode(e, 0).val == 2 && e.v(Vis(Sym(2))).T() == 2
  {
    InsideDeps(e.k);
    hide Inside, Deps, BuiltDeps;
    OnePrompt(e, YES);
    assert e.v(Vis(Ch(0))).T() == 2;
    OnePrompt(e, Leaf(Ch(0)));
  }

  lemma InsideEndless(e: Env)
    requires Inside(e.k) && Mode(e, 0).val == 2 && e.v(Vis(Sym(2))).T() == 2 && e.u.SelectionOf(0) == Some(1)
    ensures TriVal(2) in Step(e, Vis(Sym(1))).seen
    ensures Pick(0) in Step(e, TriVal(2)).seen
    ensures Vis(Sym(1)) in Step(e, Pick(0)).seen
  {
    InsideDeps(e.k);
    hide Inside, Deps, BuiltDeps, Mode;
    OnePrompt(e, BOTH);
  }

  lemma InsideFresh()
    ensures Fresh(ALL_INSIDE, ALL_WHITE)
  {
  }

  /** The same loop, entered from a symbol of the choice. The user has selected
      FIRST. */
  lemma LoopMissedInside(k: Config, e: Env)
    requires Inside(k) && e.k == k && e.u == User(map[1 := UserTri(2)], map[], map[0 := 1])
    requires Computed(e, Vis(Ch(0))) && Computed(e, Vis(Sym(2)))
    ensures GraphOf(k, ALL_INSIDE) && Fresh(ALL_INSIDE, ALL_WHITE) && VisitAll(ALL_INSIDE, ALL_WHITE, 0).out.Clean?
    ensures forall rank :: !LoopFree(k, rank)
    ensures TriVal(2) in Step(e, Vis(Sym(1))).seen
    ensures Pick(0) in Step(e, TriVal(2)).seen
    ensures Vis(Sym(1)) in Step(e, Pick(0)).seen
  {
    hide GraphOf, Fresh, VisitAll, Inside, Computed, Step, Mode, LoopFree;
    InsideGraph(k);
    InsideFresh();
    InsideSearchPasses();
    InsideOpen(e);
    InsideEndless(e);
    assert WellFormedUser(k, e.u) by { InsideDeps(k); hide Deps, BuiltDeps; }
    CircleHasNoOrder(e, Vis(Sym(1)), TriVal(2), Pick(0));
  }
}
