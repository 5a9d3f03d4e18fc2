/** The `assignable` attributes against what an assignment achieves once everything
    has been evaluated again. */
module KconfigAssignable {
  import opened Wrappers
  import opened KconfigModel
  import opened KconfigReference
  import opened KconfigChoice
  import opened KconfigLaws

  // ------------------------------------- what an assignment cannot have an effect on

  /** The users agree on what the cell itself looks at. */
  predicate OwnAlike(u: User, w: User, c: Cell) {
    match c
    case Vis(_) => true
    case TriVal(s) => u.TriOf(s) == w.TriOf(s)
    case StrVal(s) => u.StrOf(s) == w.StrOf(s)
    case Pick(c) => u.SelectionOf(c) == w.SelectionOf(c)
  }

  /** And on the mode, which those see that read a cell of the choice. */
  predicate Alike(u: User, w: User, c: Cell) {
    OwnAlike(u, w, c) && (c.Owner().Ch? ==> u.ModeOf(c.Owner().choice) == w.ModeOf(c.Owner().choice))
  }

  ghost predicate AlikeBelow(u: User, w: User, rank: Cell -> nat, limit: nat) {
    forall d | rank(d) < limit :: Alike(u, w, d)
  }

  /** What comes before everything that the users differ on is evaluated alike. */
  lemma {:induction false} EvaluatedAlike(k: Config, u: User, w: User, rank: Cell -> nat, limit: nat, c: Cell)
    requires LoopFree(k, rank) && WellFormedUser(k, u) && WellFormedUser(k, w)
    requires AlikeBelow(u, w, rank, limit) && rank(c) <= limit && OwnAlike(u, w, c)
    ensures Reference(k, u, rank)(c) == Reference(k, w, rank)(c)
    decreases rank(c)
  {
    hide Step, StaticCells, WellFormedUser, Reference;
    var e, f := At(k, u, rank), At(k, w, rank);
    StepStatic(e, c);
    forall d | d in Step(e, c).seen
      ensures e.v(d) == f.v(d) && (d.Owner().Ch? ==> ModeSame(e, f, d.Owner().choice))
    {
      assert rank(d) < rank(c);
      assert Alike(u, w, d);
      EvaluatedAlike(k, u, w, rank, limit, d);
    }
    StepCong(e, f, c);
    ReferenceSolvesAt(k, u, rank, c);
    ReferenceSolvesAt(k, w, rank, c);
  }

  lemma SameBelow(k: Config, u: User, w: User, rank: Cell -> nat, limit: nat, cells: set<Cell>)
    requires LoopFree(k, rank) && WellFormedUser(k, u) && WellFormedUser(k, w) && AlikeBelow(u, w, rank, limit)
    requires forall d | d in cells :: rank(d) < limit
    ensures Same(At(k, u, rank), At(k, w, rank), cells)
  {
    hide LoopFree, WellFormedUser, Reference;
    var e, f := At(k, u, rank), At(k, w, rank);
    forall d | d in cells ensures e.v(d) == f.v(d) && (d.Owner().Ch? ==> ModeSame(e, f, d.Owner().choice)) {
      assert Alike(u, w, d);
      EvaluatedAlike(k, u, w, rank, limit, d);
    }
  }

  // ------------------------------------------------------------ symbols

  /** Symbol._assignable(), the tuple as a sequence. */
  function Assignable(e: Env, s: nat): seq<Tri> {
    var d := e.k.S(s);
    var vis, rev, weak := VisOf(e, s), Eval(e, d.revDep).val, Eval(e, d.weakRevDep).val;
    var fixed := !IsTristate(e, s).val || weak == 2;
    if !d.origType.Logical() || vis == 0 then []
    else if vis == 2 then
      if d.choice.Some? then [2]
      else if rev == 0 then (if fixed then [0, 2] else [0, 1, 2])
      else if rev == 2 then [2]
      else if fixed then [2] else [1, 2]
    else if rev == 0 then (if weak != 2 then [0, 1] else [0, 2])
    else if rev == 2 then [2]
    else [1]
  }

  /** The environment after set_value(). */
  ghost function Assigned(k: Config, u: User, rank: Cell -> nat, s: nat, t: Tri): Env {
    At(k, AfterSet(k, u, s, UserTri(t)), rank)
  }

  /** All that decides how an assignment to the symbol comes out. */
  ghost predicate SameLimits(e: Env, f: Env, s: nat) {
    && e.k == f.k && VisOf(e, s) == VisOf(f, s) && IsTristate(e, s).val == IsTristate(f, s).val
    && Eval(e, e.k.S(s).revDep).val == Eval(f, e.k.S(s).revDep).val
    && Eval(e, e.k.S(s).weakRevDep).val == Eval(f, e.k.S(s).weakRevDep).val
  }

  lemma SameSubset(e: Env, f: Env, cells: set<Cell>, part: set<Cell>)
    requires Same(e, f, cells) && part <= cells
    ensures Same(e, f, part)
  {
  }

  lemma LimitsAgree(e: Env, f: Env, s: nat)
    requires Same(e, f, LogicalCells(e.k, s)) && e.k.S(s).choice.None?
    ensures SameLimits(e, f, s)
  {
    var d, all := e.k.S(s), LogicalCells(e.k, s);
    assert ExprCells(e.k, d.revDep) <= all && ExprCells(e.k, d.weakRevDep) <= all && Vis(Sym(s)) in all;
    assert IsTristate(e, s).seen <= all;
    hide Eval, ExprCells, LogicalCells;
    EvalStatic(e, d.revDep);
    EvalStatic(e, d.weakRevDep);
    SameSubset(e, f, all, Eval(e, d.revDep).seen);
    SameSubset(e, f, all, Eval(e, d.weakRevDep).seen);
    SameSubset(e, f, all, IsTristate(e, s).seen);
    EvalCong(e, f, d.revDep);
    EvalCong(e, f, d.weakRevDep);
    IsTristateCong(e, f, s);
  }

  lemma AssignmentKeepsLimits(k: Config, u: User, rank: Cell -> nat, s: nat, t: Tri)
    requires LoopFree(k, rank) && WellFormedUser(k, u) && k.S(s).choice.None? && k.S(s).origType.Logical()
    ensures WellFormedUser(k, AfterSet(k, u, s, UserTri(t)))
    ensures SameLimits(At(k, u, rank), Assigned(k, u, rank, s, t), s)
  {
    var w := AfterSet(k, u, s, UserTri(t));
    assert StaticCells(k, TriVal(s)) == LogicalCells(k, s) && TriVal(s) in StaticCells(k, StrVal(s));
    hide StaticCells, LogicalCells, SameLimits, Reference;
    assert AlikeBelow(u, w, rank, rank(TriVal(s)));
    SameBelow(k, u, w, rank, rank(TriVal(s)), LogicalCells(k, s));
    LimitsAgree(At(k, u, rank), Assigned(k, u, rank, s, t), s);
  }

  /** What the symbol gets, from the state before. */
  function Outcome(e: Env, s: nat, t: Tri): Tri {
    Raised(e, s, Max(Eval(e, e.k.S(s).revDep).val, Min(t, VisOf(e, s))))
  }

  lemma AssignmentOutcome(k: Config, u: User, rank: Cell -> nat, s: nat, t: Tri)
    requires LoopFree(k, rank) && WellFormedUser(k, u) && k.S(s).choice.None? && k.S(s).origType.Logical()
    requires VisOf(At(k, u, rank), s) != 0
    ensures TriOf(Assigned(k, u, rank, s, t), s) == Outcome(At(k, u, rank), s, t)
  {
    hide Reference, Solves, LoopFree, WellFormedUser, Eval, IsTristate;
    AssignmentKeepsLimits(k, u, rank, s, t);
    ReferenceSolves(k, AfterSet(k, u, s, UserTri(t)), rank);
    UserValueCounts(Assigned(k, u, rank, s, t), s);
  }

  /** Visible and selected to m, and implied to y. */
  predicate Overimplied(e: Env, s: nat) {
    VisOf(e, s) == 1 && Eval(e, e.k.S(s).revDep).val == 1 && Eval(e, e.k.S(s).weakRevDep).val == 2
  }

  lemma OutcomeInRange(e: Env, s: nat, t: Tri)
    requires Solves(e) && e.k.S(s).choice.None? && e.k.S(s).origType.Logical() && VisOf(e, s) != 0
    ensures !Overimplied(e, s) ==> (t in Assignable(e, s) <==> Outcome(e, s, t) == t)
    ensures Overimplied(e, s) ==> Assignable(e, s) == [1] && Outcome(e, s, t) == 2
    ensures t in Assignable(e, s) ==> ValidFor(e.k, s, UserTri(t))
    ensures Overimplied(e, s) ==> e.k.S(s).origType == TRISTATE
  {
    hide Solves, Eval;
    VisibilityLaw(e, s);
  }

  /** For a visible symbol outside choices, `assignable` lists exactly the values
      that are respected, if and only if it is not selected to m while implied to y
      with visibility m. There every assignment comes out as y, though only m is
      listed. */
  lemma AssignableExact(k: Config, u: User, rank: Cell -> nat, s: nat)
    requires LoopFree(k, rank) && WellFormedUser(k, u) && k.S(s).choice.None? && k.S(s).origType.Logical()
    requires VisOf(At(k, u, rank), s) != 0
    ensures (forall t: Tri | ValidFor(k, s, UserTri(t)) ::
               t in Assignable(At(k, u, rank), s) <==> TriOf(Assigned(k, u, rank, s, t), s) == t)
            <==> !Overimplied(At(k, u, rank), s)
    ensures forall t: Tri | t in Assignable(At(k, u, rank), s) :: ValidFor(k, s, UserTri(t))
  {
    hide Reference, Solves, LoopFree, WellFormedUser, Outcome, Assignable, Overimplied;
    var e := At(k, u, rank);
    ReferenceSolves(k, u, rank);
    forall t: Tri
      ensures TriOf(Assigned(k, u, rank, s, t), s) == Outcome(e, s, t)
      ensures !Overimplied(e, s) ==> (t in Assignable(e, s) <==> Outcome(e, s, t) == t)
      ensures Overimplied(e, s) ==> Assignable(e, s) == [1] && Outcome(e, s, t) == 2
      ensures t in Assignable(e, s) ==> ValidFor(k, s, UserTri(t))
    {
      AssignmentOutcome(k, u, rank, s, t);
      OutcomeInRange(e, s, t);
    }
    if Overimplied(e, s) {
      OutcomeInRange(e, s, 1);
      assert 1 in Assignable(e, s) && TriOf(Assigned(k, u, rank, s, 1), s) == 2;
    }
  }

  /** MODULES is y, DRIVER is selected to m by a symbol that defaults to m, implied by
      one that defaults to y, and prompted for if m. */
  const ENABLED := SymDef(BOOL, [], [Default(YES, YES)], [], NO, NO, YES, None, "MODULES", false)
  const SELECTOR := SymDef(TRISTATE, [], [Default(Leaf(Lit(1)), YES)], [], NO, NO, YES, None, "SELECTOR", false)
  const HINT := SymDef(BOOL, [], [Default(YES, YES)], [], NO, NO, YES, None, "HINT", false)
  const WHEN_M := And(Leaf(Lit(1)), Leaf(Sym(0)))
  const DRIVER := SymDef(TRISTATE, [WHEN_M], [], [], Leaf(Sym(1)), Leaf(Sym(2)), YES, None, "DRIVER", false)

  predicate Hinted(k: Config) {
    k.syms == [ENABLED, SELECTOR, HINT, DRIVER] && k.choices == [] && k.modules == Some(0)
  }

  /** The value of a symbol without prompt that has one default. */
  lemma OneDefault(e: Env, s: nat, t: Tri)
    requires Solves(e) && e.k.S(s).origType.Logical() && e.k.S(s).choice.None? && e.k.S(s).prompts == []
    requires e.k.S(s).defaults == [Default(Leaf(Lit(t)), YES)] && e.k.S(s).revDep == e.k.S(s).weakRevDep == NO
    ensures TriOf(e, s) == if t == 1 && !IsTristate(e, s).val then 2 else t
  {
    hide Solves, IsTristate;
    SolvesAt(e, Vis(Sym(s)));
    DefaultsCount(e, s);
  }

  /** A configuration where `assignable` gives m alone, and the symbol is y whatever
      it is assigned. */
  lemma AssignableWrong(e: Env)
    requires Hinted(e.k) && Solves(e) && e.u.TriOf(3).Some?
    ensures Overimplied(e, 3) && Assignable(e, 3) == [1] && TriOf(e, 3) == 2
  {
    assert e.k.S(0) == ENABLED && e.k.S(1) == SELECTOR && e.k.S(2) == HINT && e.k.S(3) == DRIVER;
    hide Hinted, Solves;
    OneDefault(e, 0, 2);
    OneDefault(e, 1, 1);
    OneDefault(e, 2, 2);
    assert PromptVis(e, [WHEN_M]).val == 1 by {
      assert [WHEN_M][..0] == [];
      assert Eval(e, WHEN_M).val == 1;
    }
    VisibilityLaw(e, 3);
    UserValueCounts(e, 3);
  }

  // ------------------------------------------------------------ choice symbols

  lemma MemberRanks(k: Config, rank: Cell -> nat, s: nat, c: nat)
    requires LoopFree(k, rank) && WellFormedChoice(k, c) && s in k.C(c).members
    ensures forall d | d in ModeCells(k, c) + {Vis(Sym(s))} :: rank(d) < rank(Pick(c))
    ensures rank(Pick(c)) < rank(TriVal(s)) < rank(StrVal(s))
  {
    assert Pick(c) in StaticCells(k, TriVal(s)) && TriVal(s) in StaticCells(k, StrVal(s));
  }

  lemma SelectingUser(k: Config, u: User, s: nat, c: nat)
    requires WellFormedUser(k, u) && WellFormedChoice(k, c) && s in k.C(c).members
    ensures var w := AfterSet(k, u, s, UserTri(2));
            && WellFormedUser(k, w) && w.SelectionOf(c) == Some(s) && w.mode == u.mode
            && forall d | d !in {TriVal(s), StrVal(s), Pick(c)} :: Alike(u, w, d)
  {
    MemberOf(k, c, s);
    hide WellFormedChoice;
  }

  /** Selecting changes neither the mode nor the visibility of the symbol. */
  lemma SelectingKeeps(k: Config, u: User, rank: Cell -> nat, s: nat, c: nat)
    requires LoopFree(k, rank) && WellFormedUser(k, u) && WellFormedChoice(k, c) && s in k.C(c).members
    ensures var e, f := At(k, u, rank), Assigned(k, u, rank, s, 2);
            Mode(f, c) == Mode(e, c) && VisOf(f, s) == VisOf(e, s)
  {
    var w, e, f := AfterSet(k, u, s, UserTri(2)), At(k, u, rank), Assigned(k, u, rank, s, 2);
    var cells := ModeCells(k, c) + {Vis(Sym(s))};
    MemberRanks(k, rank, s, c);
    SelectingUser(k, u, s, c);
    assert Mode(e, c).seen <= cells;
    hide AfterSet, Reference, LoopFree, WellFormedUser, WellFormedChoice, Alike, Mode, ModeCells;
    assert AlikeBelow(u, w, rank, rank(Pick(c)));
    SameBelow(k, u, w, rank, rank(Pick(c)), cells);
    SameSubset(e, f, cells, Mode(e, c).seen);
    ModeCong(e, f, c);
  }

  /** A y-visible choice symbol can be assigned y, and then it is the one selected. */
  lemma MemberAssignable(k: Config, u: User, rank: Cell -> nat, s: nat, c: nat)
    requires LoopFree(k, rank) && WellFormedUser(k, u) && WellFormedChoice(k, c) && s in k.C(c).members
    requires VisOf(At(k, u, rank), s) == 2
    ensures Assignable(At(k, u, rank), s) == [2] && TriOf(Assigned(k, u, rank, s, 2), s) == 2
    ensures Assigned(k, u, rank, s, 2).v(Pick(c)).P() == Some(s)
  {
    var w, e, f := AfterSet(k, u, s, UserTri(2)), At(k, u, rank), Assigned(k, u, rank, s, 2);
    MemberOf(k, c, s);
    SelectingUser(k, u, s, c);
    SelectingKeeps(k, u, rank, s, c);
    hide AfterSet, Reference, Solves, LoopFree, WellFormedUser, WellFormedChoice, Mode, Eval, IsTristate, Alike;
    ReferenceSolves(k, u, rank);
    ReferenceSolves(k, w, rank);
    MemberVisibility(e, c, s);
    SolvesAt(f, Pick(c));
    MemberValue(f, c, s);
  }

  // ------------------------------------------------------------------- choices

  /** Choice._assignable() */
  function ModeAssignable(e: Env, c: nat): seq<Tri> {
    var vis, isBool := e.v(Vis(Ch(c))).T(), ChoiceIsBool(e, c).val;
    if vis == 0 then []
    else if vis == 2 then
      if e.k.C(c).optional then (if isBool then [0, 2] else [0, 1, 2]) else if isBool then [2] else [1, 2]
    else if e.k.C(c).optional then [0, 1] else [1]
  }

  lemma ModeLimitsAgree(k: Config, u: User, rank: Cell -> nat, c: nat, m: Tri)
    requires LoopFree(k, rank) && WellFormedUser(k, u)
    ensures var e, f := At(k, u, rank), At(k, AfterSetMode(u, c, m), rank);
            e.v(Vis(Ch(c))) == f.v(Vis(Ch(c))) && ChoiceIsBool(e, c) == ChoiceIsBool(f, c)
  {
    var w := AfterSetMode(u, c, m);
    assert Vis(Ch(c)) in StaticCells(k, Pick(c));
    assert TypeCells(k, k.C(c).origType) <= StaticCells(k, Vis(Ch(c)));
    hide StaticCells, Reference;
    var limit := rank(Vis(Ch(c)));
    assert AlikeBelow(u, w, rank, limit);
    SameBelow(k, u, w, rank, limit, TypeCells(k, k.C(c).origType));
    EvaluatedAlike(k, u, w, rank, limit, Vis(Ch(c)));
  }

  /** For a visible choice, `assignable` lists exactly the modes that are respected. */
  lemma ModeAssignableExact(k: Config, u: User, rank: Cell -> nat, c: nat, m: Tri)
    requires LoopFree(k, rank) && WellFormedUser(k, u) && k.C(c).origType.Logical()
    requires At(k, u, rank).v(Vis(Ch(c))).T() != 0
    ensures m in ModeAssignable(At(k, u, rank), c) <==> Mode(At(k, AfterSetMode(u, c, m), rank), c).val == m
  {
    hide Reference, LoopFree, PromptVis;
    ModeLimitsAgree(k, u, rank, c, m);
    ReferenceSolvesAt(k, u, rank, Vis(Ch(c)));
  }
}
