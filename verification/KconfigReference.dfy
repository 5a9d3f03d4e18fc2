/** Evaluation from scratch. A loop-free configuration has exactly one valuation
    in which every cell agrees with its own step; that valuation is what cached
    values are measured against. */
module KconfigReference {
  import opened KconfigModel

  // ------------------------------------------- what a step can depend on

  /** The mode of the choice comes out the same. */
  ghost predicate ModeSame(e: Env, f: Env, c: nat) {
    e.u.ModeOf(c) == f.u.ModeOf(c) || Mode(e, c) == Mode(f, c)
  }

  /** Two environments for one configuration that agree on the given cells, and
      on the modes of the choices among their owners. */
  ghost predicate Same(e: Env, f: Env, cells: set<Cell>) {
    e.k == f.k &&
    forall d | d in cells :: e.v(d) == f.v(d) && (d.Owner().Ch? ==> ModeSame(e, f, d.Owner().choice))
  }

  /** The users agree on what only the cell itself looks at. What was assigned
      to an invisible symbol makes no difference. */
  ghost predicate OwnUserSame(e: Env, f: Env, c: Cell) {
    match c
    case Vis(_) => true
    case TriVal(s) => e.v(Vis(Sym(s))).T() == 0 || e.u.TriOf(s) == f.u.TriOf(s)
    case StrVal(s) => e.v(Vis(Sym(s))).T() == 0 || e.u.StrOf(s) == f.u.StrOf(s)
    case Pick(c) => e.u.SelectionOf(c) == f.u.SelectionOf(c)
  }

  lemma ModeCong(e: Env, f: Env, c: nat)
    requires Same(e, f, Mode(e, c).seen)
    ensures Mode(f, c) == Mode(e, c)
  {
    assert Vis(Ch(c)) in Mode(e, c).seen;
    assert ModeSame(e, f, c);
  }

  lemma IsTristateCong(e: Env, f: Env, s: nat)
    requires Same(e, f, IsTristate(e, s).seen)
    ensures IsTristate(f, s) == IsTristate(e, s)
  {
    if e.k.S(s).origType == TRISTATE && e.k.S(s).choice.Some? {
      ModeCong(e, f, e.k.S(s).choice.value);
    }
  }

  lemma ItemTriCong(e: Env, f: Env, i: Item)
    requires Same(e, f, ItemTri(e, i).seen)
    ensures ItemTri(f, i) == ItemTri(e, i)
  {
    if i.Ch? { ModeCong(e, f, i.choice); }
  }

  lemma ItemStrCong(e: Env, f: Env, i: Item)
    requires Same(e, f, ItemStr(e, i).seen)
    ensures ItemStr(f, i) == ItemStr(e, i)
  {
    if i.Ch? { ModeCong(e, f, i.choice); }
  }

  lemma CompareStringsCong(e: Env, f: Env, a: Item, b: Item)
    requires Same(e, f, CompareStrings(e, a, b).seen)
    ensures CompareStrings(f, a, b) == CompareStrings(e, a, b)
  {
    ItemStrCong(e, f, a);
    ItemStrCong(e, f, b);
  }

  lemma ItemNumCong(e: Env, f: Env, i: Item)
    requires Same(e, f, ItemNum(e, i).seen)
    ensures ItemNum(f, i) == ItemNum(e, i)
  {
    if OrigType(e.k, i).Logical() { ItemTriCong(e, f, i); } else { ItemStrCong(e, f, i); }
  }

  lemma CompareCong(e: Env, f: Env, a: Item, b: Item)
    requires Same(e, f, Compare(e, a, b).seen)
    ensures Compare(f, a, b) == Compare(e, a, b)
  {
    if OrigType(e.k, a) == STRING && OrigType(e.k, b) == STRING {
      CompareStringsCong(e, f, a, b);
    } else {
      ItemNumCong(e, f, a);
      if ItemNum(e, a).val.None? {
        CompareStringsCong(e, f, a, b);
      } else {
        ItemNumCong(e, f, b);
        if ItemNum(e, b).val.None? { CompareStringsCong(e, f, a, b); }
      }
    }
  }

  /** Short-circuited operands really do not matter. */
  lemma {:induction false} EvalCong(e: Env, f: Env, x: Expr)
    requires Same(e, f, Eval(e, x).seen)
    ensures Eval(f, x) == Eval(e, x)
  {
    match x
    case Leaf(i) => ItemTriCong(e, f, i);
    case And(l, r) => EvalCong(e, f, l); if Eval(e, l).val != 0 { EvalCong(e, f, r); }
    case Or(l, r) => EvalCong(e, f, l); if Eval(e, l).val != 2 { EvalCong(e, f, r); }
    case Not(y) => EvalCong(e, f, y);
    case Rel(_, a, b) => CompareCong(e, f, a, b);
  }

  lemma {:induction false} PromptVisCong(e: Env, f: Env, ps: seq<Expr>)
    requires Same(e, f, PromptVis(e, ps).seen)
    ensures PromptVis(f, ps) == PromptVis(e, ps)
  {
    if ps != [] {
      PromptVisCong(e, f, ps[..|ps| - 1]);
      EvalCong(e, f, ps[|ps| - 1]);
    }
  }

  lemma SymVisCong(e: Env, f: Env, s: nat)
    requires Same(e, f, SymVis(e, s).seen)
    ensures SymVis(f, s) == SymVis(e, s)
  {
    var d := e.k.S(s);
    PromptVisCong(e, f, d.prompts);
    if d.choice.Some? && e.k.C(d.choice.value).origType == TRISTATE && d.origType != TRISTATE {
      ModeCong(e, f, d.choice.value);
    } else if PromptVis(e, d.prompts).val == 1 {
      if d.choice.Some? && d.origType == TRISTATE { ModeCong(e, f, d.choice.value); }
      if !(d.choice.Some? && d.origType == TRISTATE && Mode(e, d.choice.value).val == 2) {
        IsTristateCong(e, f, s);
      }
    }
  }

  lemma {:induction false} FirstDefaultCong(e: Env, f: Env, ds: seq<Default>)
    requires Same(e, f, FirstDefault(e, ds).seen)
    ensures FirstDefault(f, ds) == FirstDefault(e, ds)
  {
    if ds != [] {
      EvalCong(e, f, ds[0].cond);
      if Eval(e, ds[0].cond).val == 0 { FirstDefaultCong(e, f, ds[1..]); }
    }
  }

  lemma FromDefaultsCong(e: Env, f: Env, d: SymDef, vis: Tri)
    requires Same(e, f, FromDefaults(e, d, vis).seen)
    ensures FromDefaults(f, d, vis) == FromDefaults(e, d, vis)
  {
    FirstDefaultCong(e, f, d.defaults);
    var first := FirstDefault(e, d.defaults).val;
    if first.Some? { EvalCong(e, f, first.value.0.value); }
    EvalCong(e, f, d.weakRevDep);
    if Eval(e, d.weakRevDep).val != 0 { EvalCong(e, f, d.directDep); }
  }

  lemma SymTriCong(e: Env, f: Env, s: nat)
    requires Same(e, f, SymTri(e, s).seen) && OwnUserSame(e, f, TriVal(s))
    ensures SymTri(f, s) == SymTri(e, s)
  {
    var d := e.k.S(s);
    if d.origType.Logical() {
      assert Vis(Sym(s)) in SymTri(e, s).seen;
      if d.choice.None? {
        var vis := e.v(Vis(Sym(s))).T();
        if !(vis != 0 && e.u.TriOf(s).Some?) { FromDefaultsCong(e, f, d, vis); }
        EvalCong(e, f, d.revDep);
        assert Unpromoted(f, s) == Unpromoted(e, s);
        if Unpromoted(e, s).val.0 == 1 {
          IsTristateCong(e, f, s);
          if IsTristate(e, s).val { EvalCong(e, f, d.weakRevDep); }
        }
      }
    }
  }

  lemma {:induction false} ActiveRangeCong(e: Env, f: Env, rs: seq<Range>, base: nat)
    requires Same(e, f, ActiveRange(e, rs, base).seen)
    ensures ActiveRange(f, rs, base) == ActiveRange(e, rs, base)
  {
    if rs != [] {
      EvalCong(e, f, rs[0].cond);
      if Eval(e, rs[0].cond).val == 0 {
        ActiveRangeCong(e, f, rs[1..], base);
      } else {
        ItemStrCong(e, f, rs[0].low);
        ItemStrCong(e, f, rs[0].high);
      }
    }
  }

  lemma StrDefaultCong(e: Env, f: Env, d: SymDef)
    requires Same(e, f, StrDefault(e, d).seen)
    ensures StrDefault(f, d) == StrDefault(e, d)
  {
    FirstDefaultCong(e, f, d.defaults);
    var first := FirstDefault(e, d.defaults).val;
    if first.Some? && first.value.0.value.Leaf? { ItemStrCong(e, f, first.value.0.value.item); }
  }

  lemma SymStrCong(e: Env, f: Env, s: nat)
    requires Same(e, f, SymStr(e, s).seen) && OwnUserSame(e, f, StrVal(s))
    ensures SymStr(f, s) == SymStr(e, s)
  {
    var d := e.k.S(s);
    if !d.origType.Logical() && d.origType != UNKNOWN {
      assert Vis(Sym(s)) in SymStr(e, s).seen;
      if d.origType == STRING {
        if !(e.v(Vis(Sym(s))).T() != 0 && e.u.StrOf(s).Some?) { StrDefaultCong(e, f, d); }
      } else {
        ActiveRangeCong(e, f, d.ranges, d.origType.Base());
        if StrDefault(e, d).seen <= NumberStr(e, s).seen { StrDefaultCong(e, f, d); }
      }
    }
  }

  lemma {:induction false} DefaultPickCong(e: Env, f: Env, ds: seq<ChoiceDefault>)
    requires Same(e, f, DefaultPick(e, ds).seen)
    ensures DefaultPick(f, ds) == DefaultPick(e, ds)
  {
    if ds != [] {
      EvalCong(e, f, ds[0].cond);
      if Eval(e, ds[0].cond).val == 0 || e.v(Vis(Sym(ds[0].member))).T() == 0 {
        DefaultPickCong(e, f, ds[1..]);
      }
    }
  }

  lemma {:induction false} FirstVisibleCong(e: Env, f: Env, ms: seq<nat>)
    requires Same(e, f, FirstVisible(e, ms).seen)
    ensures FirstVisible(f, ms) == FirstVisible(e, ms)
  {
    if ms != [] {
      assert Vis(Sym(ms[0])) in FirstVisible(e, ms).seen;
      if e.v(Vis(Sym(ms[0]))).T() == 0 { FirstVisibleCong(e, f, ms[1..]); }
    }
  }

  lemma SelectionFromDefaultsCong(e: Env, f: Env, c: nat)
    requires Same(e, f, SelectionFromDefaults(e, c).seen)
    ensures SelectionFromDefaults(f, c) == SelectionFromDefaults(e, c)
  {
    DefaultPickCong(e, f, e.k.C(c).defaults);
    if DefaultPick(e, e.k.C(c).defaults).val.None? { FirstVisibleCong(e, f, e.k.C(c).members); }
  }

  lemma SelectionCong(e: Env, f: Env, c: nat)
    requires Same(e, f, Selection(e, c).seen) && OwnUserSame(e, f, Pick(c))
    ensures Selection(f, c) == Selection(e, c)
  {
    ModeCong(e, f, c);
    assert Vis(Ch(c)) in Selection(e, c).seen;
    if Mode(e, c).val == 2 {
      var s := e.u.SelectionOf(c);
      if s.None? || e.v(Vis(Sym(s.value))).T() == 0 { SelectionFromDefaultsCong(e, f, c); }
    }
  }

  /** A step depends on nothing but the cells it reads and the user data it is
      meant to look at: agreeing there gives the same value and the same reads. */
  lemma StepCong(e: Env, f: Env, c: Cell)
    requires Same(e, f, Step(e, c).seen) && OwnUserSame(e, f, c)
    ensures Step(f, c) == Step(e, c)
  {
    match c
    case Vis(Sym(s)) => SymVisCong(e, f, s);
    case Vis(Ch(c)) =>
      PromptVisCong(e, f, e.k.C(c).prompts);
    case Vis(_) =>
    case TriVal(s) => SymTriCong(e, f, s);
    case StrVal(s) => SymStrCong(e, f, s);
    case Pick(c) => SelectionCong(e, f, c);
  }

  // --------------------------------------------------- what it could read

  function ModulesCells(k: Config): set<Cell> {
    match k.modules case None => {} case Some(m) => {TriVal(m)}
  }

  function TypeCells(k: Config, t: Type): set<Cell> {
    if t == TRISTATE then ModulesCells(k) else {}
  }

  function ModeCells(k: Config, c: nat): set<Cell> {
    {Vis(Ch(c))} + TypeCells(k, k.C(c).origType)
  }

  function OperandCells(k: Config, i: Item): set<Cell> {
    match i
    case Sym(s) => {TriVal(s), StrVal(s)}
    case Ch(c) => ModeCells(k, c)
    case _ => {}
  }

  function ExprCells(k: Config, x: Expr): set<Cell> {
    match x
    case Leaf(Sym(s)) => {TriVal(s)}
    case Leaf(i) => OperandCells(k, i)
    case And(l, r) => ExprCells(k, l) + ExprCells(k, r)
    case Or(l, r) => ExprCells(k, l) + ExprCells(k, r)
    case Not(y) => ExprCells(k, y)
    case Rel(_, a, b) => OperandCells(k, a) + OperandCells(k, b)
  }

  function PromptCells(k: Config, ps: seq<Expr>): set<Cell> {
    if ps == [] then {} else PromptCells(k, ps[..|ps| - 1]) + ExprCells(k, ps[|ps| - 1])
  }

  function DefaultCells(k: Config, ds: seq<Default>): set<Cell> {
    if ds == [] then {}
    else ExprCells(k, ds[0].cond) + ExprCells(k, ds[0].value) + DefaultCells(k, ds[1..])
  }

  function StrDefaultCells(k: Config, ds: seq<Default>): set<Cell> {
    if ds == [] then {}
    else (if ds[0].value.Leaf? then OperandCells(k, ds[0].value.item) else {}) + StrDefaultCells(k, ds[1..])
  }

  function RangeCells(k: Config, rs: seq<Range>): set<Cell> {
    if rs == [] then {}
    else ExprCells(k, rs[0].cond) + OperandCells(k, rs[0].low) + OperandCells(k, rs[0].high) + RangeCells(k, rs[1..])
  }

  function ChoiceDefaultCells(k: Config, ds: seq<ChoiceDefault>): set<Cell> {
    if ds == [] then {}
    else ExprCells(k, ds[0].cond) + {Vis(Sym(ds[0].member))} + ChoiceDefaultCells(k, ds[1..])
  }

  function MemberCells(ms: seq<nat>): set<Cell> {
    set m | m in ms :: Vis(Sym(m))
  }

  function LogicalCells(k: Config, s: nat): set<Cell> {
    {Vis(Sym(s))} + TypeCells(k, k.S(s).origType) +
    (match k.S(s).choice
     case Some(c) => {Pick(c)}
     case None => DefaultCells(k, k.S(s).defaults) + ExprCells(k, k.S(s).weakRevDep) +
                  ExprCells(k, k.S(s).directDep) + ExprCells(k, k.S(s).revDep))
  }

  /** Every cell that computing `c` could touch, whatever the values are. */
  function StaticCells(k: Config, c: Cell): set<Cell> {
    match c
    case Vis(Sym(s)) =>
      PromptCells(k, k.S(s).prompts) + TypeCells(k, k.S(s).origType) +
      (match k.S(s).choice case None => {} case Some(c) => ModeCells(k, c))
    case Vis(Ch(c)) => PromptCells(k, k.C(c).prompts) + TypeCells(k, k.C(c).origType)
    case Vis(_) => {}
    case TriVal(s) => if k.S(s).origType.Logical() then LogicalCells(k, s) else {}
    case StrVal(s) =>
      if k.S(s).origType.Logical() then {TriVal(s)}
      else if k.S(s).origType == UNKNOWN then {}
      else {Vis(Sym(s))} + RangeCells(k, k.S(s).ranges) + DefaultCells(k, k.S(s).defaults) +
           StrDefaultCells(k, k.S(s).defaults)
    case Pick(c) => ModeCells(k, c) + ChoiceDefaultCells(k, k.C(c).defaults) + MemberCells(k.C(c).members)
  }

  /** A user selection is a member of its choice. */
  predicate WellFormedUser(k: Config, u: User) {
    forall c | c in u.selection :: u.selection[c] in k.C(c).members
  }

  lemma CompareStatic(e: Env, a: Item, b: Item)
    ensures Compare(e, a, b).seen <= OperandCells(e.k, a) + OperandCells(e.k, b)
  {
    assert ItemStr(e, a).seen <= OperandCells(e.k, a) && ItemStr(e, b).seen <= OperandCells(e.k, b);
    assert ItemNum(e, a).seen <= OperandCells(e.k, a) && ItemNum(e, b).seen <= OperandCells(e.k, b);
  }

  lemma {:induction false} EvalStatic(e: Env, x: Expr)
    ensures Eval(e, x).seen <= ExprCells(e.k, x)
  {
    match x
    case Leaf(i) =>
    case And(l, r) => EvalStatic(e, l); EvalStatic(e, r);
    case Or(l, r) => EvalStatic(e, l); EvalStatic(e, r);
    case Not(y) => EvalStatic(e, y);
    case Rel(_, a, b) => CompareStatic(e, a, b);
  }

  lemma {:induction false} PromptVisStatic(e: Env, ps: seq<Expr>)
    ensures PromptVis(e, ps).seen <= PromptCells(e.k, ps)
  {
    if ps != [] {
      PromptVisStatic(e, ps[..|ps| - 1]);
      EvalStatic(e, ps[|ps| - 1]);
    }
  }

  lemma {:induction false} FirstDefaultStatic(e: Env, ds: seq<Default>)
    ensures FirstDefault(e, ds).seen <= DefaultCells(e.k, ds)
    ensures FirstDefault(e, ds).val.Some? ==>
              var x := FirstDefault(e, ds).val.value.0.value;
              ExprCells(e.k, x) <= DefaultCells(e.k, ds) &&
              (x.Leaf? ==> OperandCells(e.k, x.item) <= StrDefaultCells(e.k, ds))
  {
    if ds != [] {
      EvalStatic(e, ds[0].cond);
      FirstDefaultStatic(e, ds[1..]);
    }
  }

  lemma {:induction false} ActiveRangeStatic(e: Env, rs: seq<Range>, base: nat)
    ensures ActiveRange(e, rs, base).seen <= RangeCells(e.k, rs)
  {
    if rs != [] {
      EvalStatic(e, rs[0].cond);
      ActiveRangeStatic(e, rs[1..], base);
    }
  }

  lemma {:induction false} DefaultPickStatic(e: Env, ds: seq<ChoiceDefault>)
    ensures DefaultPick(e, ds).seen <= ChoiceDefaultCells(e.k, ds)
  {
    if ds != [] {
      EvalStatic(e, ds[0].cond);
      DefaultPickStatic(e, ds[1..]);
    }
  }

  lemma {:induction false} FirstVisibleStatic(e: Env, ms: seq<nat>)
    ensures FirstVisible(e, ms).seen <= MemberCells(ms)
  {
    if ms != [] { FirstVisibleStatic(e, ms[1..]); }
  }

  lemma FromDefaultsStatic(e: Env, d: SymDef, vis: Tri)
    ensures FromDefaults(e, d, vis).seen <=
              DefaultCells(e.k, d.defaults) + ExprCells(e.k, d.weakRevDep) + ExprCells(e.k, d.directDep)
  {
    FirstDefaultStatic(e, d.defaults);
    var first := FirstDefault(e, d.defaults).val;
    if first.Some? { EvalStatic(e, first.value.0.value); }
    EvalStatic(e, d.weakRevDep);
    EvalStatic(e, d.directDep);
  }

  lemma SymTriStatic(e: Env, s: nat)
    ensures SymTri(e, s).seen <= StaticCells(e.k, TriVal(s))
  {
    var d := e.k.S(s);
    if d.origType.Logical() && d.choice.None? {
      FromDefaultsStatic(e, d, e.v(Vis(Sym(s))).T());
      EvalStatic(e, d.revDep);
      EvalStatic(e, d.weakRevDep);
    }
  }

  lemma StrDefaultStatic(e: Env, d: SymDef)
    ensures StrDefault(e, d).seen <= DefaultCells(e.k, d.defaults) + StrDefaultCells(e.k, d.defaults)
  {
    FirstDefaultStatic(e, d.defaults);
  }

  lemma SymStrStatic(e: Env, s: nat)
    ensures SymStr(e, s).seen <= StaticCells(e.k, StrVal(s))
  {
    var d := e.k.S(s);
    if !d.origType.Logical() && d.origType != UNKNOWN {
      StrDefaultStatic(e, d);
      ActiveRangeStatic(e, d.ranges, d.origType.Base());
    }
  }

  /** Reads stay within the static dependencies. */
  lemma StepStatic(e: Env, c: Cell)
    requires WellFormedUser(e.k, e.u)
    ensures Step(e, c).seen <= StaticCells(e.k, c)
  {
    match c
    case Vis(Sym(s)) => PromptVisStatic(e, e.k.S(s).prompts);
    case Vis(Ch(c)) => PromptVisStatic(e, e.k.C(c).prompts);
    case Vis(_) =>
    case TriVal(s) => SymTriStatic(e, s);
    case StrVal(s) => SymStrStatic(e, s);
    case Pick(c) =>
      DefaultPickStatic(e, e.k.C(c).defaults);
      FirstVisibleStatic(e, e.k.C(c).members);
  }

  // ------------------------------------------------ the reference valuation

  /** No cell depends on itself, directly or through others. */
  ghost predicate LoopFree(k: Config, rank: Cell -> nat) {
    forall c, d | d in StaticCells(k, c) :: rank(d) < rank(c)
  }

  /** Evaluation that gives up after `depth` nested reads. */
  ghost function Approx(k: Config, u: User, depth: nat, c: Cell): Val {
    if depth == 0 then TriV(0, false)
    else Step(Env(k, u, (d: Cell) => Approx(k, u, depth - 1, d)), c).val
  }

  /** Evaluation from scratch: deep enough never to give up. */
  ghost function Reference(k: Config, u: User, rank: Cell -> nat): Valuation {
    (c: Cell) => Approx(k, u, rank(c) + 1, c)
  }

  ghost function At(k: Config, u: User, rank: Cell -> nat): Env {
    Env(k, u, Reference(k, u, rank))
  }

  /** A valuation in which every cell agrees with its step. */
  ghost predicate Solves(e: Env) {
    forall c :: e.v(c) == Step(e, c).val
  }

  lemma {:induction false} ApproxStable(k: Config, u: User, rank: Cell -> nat, depth: nat, c: Cell)
    requires LoopFree(k, rank) && WellFormedUser(k, u)
    requires depth > rank(c)
    ensures Approx(k, u, depth, c) == Approx(k, u, rank(c) + 1, c)
    decreases rank(c)
  {
    hide Step;
    var e := Env(k, u, (d: Cell) => Approx(k, u, rank(c), d));
    var f := Env(k, u, (d: Cell) => Approx(k, u, depth - 1, d));
    StepStatic(e, c);
    forall d | d in Step(e, c).seen ensures e.v(d) == f.v(d) {
      ApproxStable(k, u, rank, rank(c), d);
      ApproxStable(k, u, rank, depth - 1, d);
    }
    StepCong(e, f, c);
  }

  lemma ReferenceSolvesAt(k: Config, u: User, rank: Cell -> nat, c: Cell)
    requires LoopFree(k, rank) && WellFormedUser(k, u)
    ensures Reference(k, u, rank)(c) == Step(At(k, u, rank), c).val
  {
    hide Step, StaticCells;
    var e := Env(k, u, (d: Cell) => Approx(k, u, rank(c), d));
    var f := At(k, u, rank);
    StepStatic(e, c);
    forall d | d in Step(e, c).seen ensures e.v(d) == f.v(d) {
      ApproxStable(k, u, rank, rank(c), d);
    }
    StepCong(e, f, c);
  }

  /** Evaluation from scratch satisfies every property's own definition... */
  lemma ReferenceSolves(k: Config, u: User, rank: Cell -> nat)
    requires LoopFree(k, rank) && WellFormedUser(k, u)
    ensures Solves(At(k, u, rank))
  {
    hide Step;
    forall c: Cell ensures At(k, u, rank).v(c) == Step(At(k, u, rank), c).val {
      ReferenceSolvesAt(k, u, rank, c);
    }
  }

  /** ... and is the only valuation that does. */
  lemma {:induction false} SolutionUnique(e: Env, rank: Cell -> nat, c: Cell)
    requires LoopFree(e.k, rank) && WellFormedUser(e.k, e.u)
    requires Solves(e)
    ensures e.v(c) == Reference(e.k, e.u, rank)(c)
    decreases rank(c)
  {
    hide Step;
    var f := At(e.k, e.u, rank);
    ReferenceSolves(e.k, e.u, rank);
    StepStatic(e, c);
    forall d | d in Step(e, c).seen ensures e.v(d) == f.v(d) {
      SolutionUnique(e, rank, d);
    }
    StepCong(e, f, c);
  }
}
