/** The static configuration that kconfiglib builds from Kconfig files, the user
    values laid over it, and the evaluation of both.

    Evaluation is written once, as a *traced* step: the value of one cached
    attribute as a function of the other attributes, together with the set of
    attributes that the short-circuiting evaluator really looks at. */
module KconfigModel {
  import opened Wrappers

  type Tri = t: int | 0 <= t <= 2

  datatype Type = UNKNOWN | BOOL | TRISTATE | STRING | INT | HEX {
    predicate Logical() { BOOL? || TRISTATE? }
    /** The radix given to the number parser. */
    function Base(): nat { if HEX? then 16 else if INT? then 10 else 0 }
  }

  /** What an expression can mention: the constants n/m/y, quoted constants and
      undefined symbols (both known by name only), defined symbols, choices. */
  datatype Item = Lit(lit: Tri) | Name(name: string) | Sym(sym: nat) | Ch(choice: nat)

  datatype Relation = EQUAL | UNEQUAL | LESS | LESS_EQUAL | GREATER | GREATER_EQUAL

  datatype Expr =
    | Leaf(item: Item)
    | And(left: Expr, right: Expr)
    | Or(left: Expr, right: Expr)
    | Not(arg: Expr)
    | Rel(rel: Relation, lhs: Item, rhs: Item)

  datatype Default = Default(value: Expr, cond: Expr)
  datatype Range = Range(low: Item, high: Item, cond: Expr)
  datatype ChoiceDefault = ChoiceDefault(member: nat, cond: Expr)

  /** `prompts` holds the prompt conditions of the menu nodes that have one. */
  datatype SymDef = SymDef(
    origType: Type,
    prompts: seq<Expr>,
    defaults: seq<Default>,
    ranges: seq<Range>,
    revDep: Expr,
    weakRevDep: Expr,
    directDep: Expr,
    choice: Option<nat>,
    name: string,
    neverWritten: bool)

  datatype ChoiceDef = ChoiceDef(
    origType: Type,
    prompts: seq<Expr>,
    defaults: seq<ChoiceDefault>,
    members: seq<nat>,
    optional: bool)

  const NO: Expr := Leaf(Lit(0))
  const YES: Expr := Leaf(Lit(2))

  const UNDEFINED_SYM := SymDef(UNKNOWN, [], [], [], NO, NO, NO, None, "", false)
  const UNDEFINED_CHOICE := ChoiceDef(UNKNOWN, [], [], [], false)

  /** `modules` is the MODULES symbol if it is defined. `parse` and `print` are
      Python's int(), and str()/hex(), which stay uninterpreted. */
  datatype Config = Config(
    syms: seq<SymDef>,
    choices: seq<ChoiceDef>,
    modules: Option<nat>,
    parse: (string, nat) -> Option<int>,
    print_: (int, nat) -> string)
  {
    function S(s: nat): SymDef { if s < |syms| then syms[s] else UNDEFINED_SYM }
    function C(c: nat): ChoiceDef { if c < |choices| then choices[c] else UNDEFINED_CHOICE }
  }

  datatype UserValue = UserTri(tri: Tri) | UserStr(str: string)

  /** Everything the user has assigned: symbol values, choice modes, choice selections. */
  datatype User = User(symValue: map<nat, UserValue>, mode: map<nat, Tri>, selection: map<nat, nat>) {
    function TriOf(s: nat): Option<Tri> {
      if s in symValue && symValue[s].UserTri? then Some(symValue[s].tri) else None
    }
    function StrOf(s: nat): Option<string> {
      if s in symValue && symValue[s].UserStr? then Some(symValue[s].str) else None
    }
    function ModeOf(c: nat): Option<Tri> { if c in mode then Some(mode[c]) else None }
    function SelectionOf(c: nat): Option<nat> { if c in selection then Some(selection[c]) else None }
  }

  /** The cached attributes: `_cached_vis`, `_cached_tri_val`, `_cached_str_val`
      and `_cached_selection`, one cell per object and field. */
  datatype Cell = Vis(item: Item) | TriVal(sym: nat) | StrVal(sym: nat) | Pick(choice: nat) {
    function Owner(): Item {
      match this
      case Vis(i) => i
      case TriVal(s) => Sym(s)
      case StrVal(s) => Sym(s)
      case Pick(c) => Ch(c)
    }
  }

  /** Contents of a cell. `written` is `_write_to_conf`, which the source sets
      while it computes the value. */
  datatype Val = TriV(tri: Tri, written: bool) | StrV(str: string, written: bool) | PickV(pick: Option<nat>) {
    function T(): Tri { if TriV? then tri else 0 }
    function S(): string { if StrV? then str else "" }
    function P(): Option<nat> { if PickV? then pick else None }
    predicate W() { (TriV? || StrV?) && written }
  }

  /** A value together with the cells that were looked at to get it. */
  datatype Traced<+X> = Traced(val: X, seen: set<Cell>)

  type Valuation = Cell -> Val

  /** What one evaluation step may use: the configuration, the user values, and
      the values of the other cells. */
  datatype Env = Env(k: Config, u: User, v: Valuation)

  function Min(a: Tri, b: Tri): Tri { if a <= b then a else b }
  function Max(a: Tri, b: Tri): Tri { if a <= b then b else a }

  function TriStr(t: Tri): string { if t == 0 then "n" else if t == 1 then "m" else "y" }

  function StrCmp(a: string, b: string): int {
    if a == b then 0
    else if a == [] then -1
    else if b == [] then 1
    else if a[0] == b[0] then StrCmp(a[1..], b[1..])
    else if a[0] < b[0] then -1 else 1
  }

  // ---------------------------------------------------------------- reading

  /** MODULES as a tristate; n when the symbol is undefined. */
  function Modules(e: Env): Traced<Tri> {
    match e.k.modules
    case None => Traced(0, {})
    case Some(m) => Traced(e.v(TriVal(m)).T(), {TriVal(m)})
  }

  /** Choice.type is BOOL for a tristate choice while MODULES is n. */
  function ChoiceIsBool(e: Env, c: nat): Traced<bool> {
    if e.k.C(c).origType == TRISTATE then
      var m := Modules(e);
      Traced(m.val == 0, m.seen)
    else Traced(e.k.C(c).origType == BOOL, {})
  }

  /** Choice.tri_value, the mode of the choice, which is not itself cached. */
  function Mode(e: Env, c: nat): Traced<Tri> {
    var base := if e.k.C(c).optional then 0 else 1;
    var wanted := match e.u.ModeOf(c) case None => base case Some(m) => Max(base, m);
    var limited := Min(wanted, e.v(Vis(Ch(c))).T());
    var here := {Vis(Ch(c))};
    if limited == 1 then
      var b := ChoiceIsBool(e, c);
      Traced(if b.val then 2 else limited, here + b.seen)
    else Traced(limited, here)
  }

  /** Symbol.type is not TRISTATE: some other declared type, or a tristate
      demoted to bool by a y-mode choice or by MODULES being n. */
  function IsTristate(e: Env, s: nat): Traced<bool> {
    if e.k.S(s).origType != TRISTATE then Traced(false, {})
    else match e.k.S(s).choice
      case None => var m := Modules(e); Traced(m.val != 0, m.seen)
      case Some(c) =>
        var mode := Mode(e, c);
        if mode.val == 2 then Traced(false, mode.seen)
        else var m := Modules(e); Traced(m.val != 0, mode.seen + m.seen)
  }

  function ItemTri(e: Env, i: Item): Traced<Tri> {
    match i
    case Lit(t) => Traced(t, {})
    case Name(_) => Traced(0, {})
    case Sym(s) => Traced(e.v(TriVal(s)).T(), {TriVal(s)})
    case Ch(c) => Mode(e, c)
  }

  function ItemStr(e: Env, i: Item): Traced<string> {
    match i
    case Lit(t) => Traced(TriStr(t), {})
    case Name(n) => Traced(n, {})
    case Sym(s) => Traced(e.v(StrVal(s)).S(), {StrVal(s)})
    case Ch(c) => var m := Mode(e, c); Traced(TriStr(m.val), m.seen)
  }

  function OrigType(k: Config, i: Item): Type {
    match i
    case Lit(_) => TRISTATE
    case Name(_) => UNKNOWN
    case Sym(s) => k.S(s).origType
    case Ch(c) => k.C(c).origType
  }

  // ------------------------------------------------------------ expressions

  function ItemNum(e: Env, i: Item): Traced<Option<int>> {
    if OrigType(e.k, i).Logical() then
      var t := ItemTri(e, i); Traced(Some(t.val), t.seen)
    else
      var s := ItemStr(e, i); Traced(e.k.parse(s.val, OrigType(e.k, i).Base()), s.seen)
  }

  function CompareStrings(e: Env, a: Item, b: Item): Traced<int> {
    var x, y := ItemStr(e, a), ItemStr(e, b);
    Traced(StrCmp(x.val, y.val), x.seen + y.seen)
  }

  /** Compared as strings if both are string symbols, else as numbers, else as strings. */
  function Compare(e: Env, a: Item, b: Item): Traced<int> {
    if OrigType(e.k, a) == STRING && OrigType(e.k, b) == STRING then CompareStrings(e, a, b)
    else
      var x := ItemNum(e, a);
      if x.val.None? then
        var c := CompareStrings(e, a, b); Traced(c.val, x.seen + c.seen)
      else
        var y := ItemNum(e, b);
        if y.val.None? then
          var c := CompareStrings(e, a, b); Traced(c.val, x.seen + y.seen + c.seen)
        else Traced(x.val.value - y.val.value, x.seen + y.seen)
  }

  function RelHolds(rel: Relation, cmp: int): bool {
    match rel
    case EQUAL => cmp == 0
    case UNEQUAL => cmp != 0
    case LESS => cmp < 0
    case LESS_EQUAL => cmp <= 0
    case GREATER => cmp > 0
    case GREATER_EQUAL => cmp >= 0
  }

  /** expr_value(), with its short-circuits. */
  function Eval(e: Env, x: Expr): Traced<Tri> {
    match x
    case Leaf(i) => ItemTri(e, i)
    case And(l, r) =>
      var a := Eval(e, l);
      if a.val == 0 then a
      else var b := Eval(e, r); Traced(Min(a.val, b.val), a.seen + b.seen)
    case Or(l, r) =>
      var a := Eval(e, l);
      if a.val == 2 then a
      else var b := Eval(e, r); Traced(Max(a.val, b.val), a.seen + b.seen)
    case Not(y) => var a := Eval(e, y); Traced(2 - a.val, a.seen)
    case Rel(rel, a, b) =>
      var c := Compare(e, a, b);
      Traced(if RelHolds(rel, c.val) then 2 else 0, c.seen)
  }

  // ------------------------------------------------------------- attributes

  /** The largest prompt condition; every one is evaluated. */
  function PromptVis(e: Env, prompts: seq<Expr>): Traced<Tri> {
    if prompts == [] then Traced(0, {})
    else
      var rest := PromptVis(e, prompts[..|prompts| - 1]);
      var last := Eval(e, prompts[|prompts| - 1]);
      Traced(Max(rest.val, last.val), rest.seen + last.seen)
  }

  function SymVis(e: Env, s: nat): Traced<Tri> {
    var d := e.k.S(s);
    var p := PromptVis(e, d.prompts);
    if d.choice.Some? && e.k.C(d.choice.value).origType == TRISTATE && d.origType != TRISTATE then
      // A choice symbol that is not tristate can only be seen while its choice is y
      var m := Mode(e, d.choice.value);
      Traced(if m.val != 2 || p.val == 0 then 0 else 2, p.seen + m.seen)
    else if p.val != 1 then p
    else if d.choice.Some? && d.origType == TRISTATE && Mode(e, d.choice.value).val == 2 then
      // A y-mode choice hides those of its symbols whose prompts allow m only
      Traced(0, p.seen + Mode(e, d.choice.value).seen)
    else
      var t := IsTristate(e, s);
      var m := if d.choice.Some? && d.origType == TRISTATE then Mode(e, d.choice.value).seen else {};
      Traced(if t.val then 1 else 2, p.seen + m + t.seen)
  }

  function ChoiceVis(e: Env, c: nat): Traced<Tri> {
    var p := PromptVis(e, e.k.C(c).prompts);
    if p.val != 1 then p
    else if e.k.C(c).origType != TRISTATE then Traced(2, p.seen)
    else
      var b := ChoiceIsBool(e, c);
      Traced(if b.val then 2 else 1, p.seen + b.seen)
  }

  /** The first default whose condition holds, with the condition's value. */
  function FirstDefault(e: Env, ds: seq<Default>): Traced<Option<(Default, Tri)>> {
    if ds == [] then Traced(None, {})
    else
      var c := Eval(e, ds[0].cond);
      if c.val != 0 then Traced(Some((ds[0], c.val)), c.seen)
      else var rest := FirstDefault(e, ds[1..]); Traced(rest.val, c.seen + rest.seen)
  }

  /** Value and write flag from defaults and implies. */
  function FromDefaults(e: Env, d: SymDef, vis: Tri): Traced<(Tri, bool)> {
    var f := FirstDefault(e, d.defaults);
    var def := match f.val
      case None => Traced(0, {})
      case Some((x, c)) => var y := Eval(e, x.value); Traced(Min(y.val, c), y.seen);
    var w := vis != 0 || def.val != 0;
    var weak := Eval(e, d.weakRevDep);
    var r := f.seen + def.seen + weak.seen;
    if weak.val == 0 then Traced((def.val, w), r)
    else
      var dir := Eval(e, d.directDep);
      if dir.val == 0 then Traced((def.val, w), r + dir.seen)
      else Traced((Max(weak.val, def.val), true), r + dir.seen)
  }

  /** Before promotion: user value or defaults, then selects on top. */
  function Unpromoted(e: Env, s: nat): Traced<(Tri, bool)> {
    var d := e.k.S(s);
    var vis := e.v(Vis(Sym(s))).T();
    var user := e.u.TriOf(s);
    var base := if vis != 0 && user.Some? then Traced((Min(user.value, vis), true), {})
                else FromDefaults(e, d, vis);
    var rev := Eval(e, d.revDep);
    var r := {Vis(Sym(s))} + base.seen + rev.seen;
    if rev.val == 0 then Traced(base.val, r) else Traced((Max(rev.val, base.val.0), true), r)
  }

  /** Symbol.tri_value of a bool or tristate symbol outside any choice. */
  function PlainTri(e: Env, s: nat): Traced<(Tri, bool)> {
    var b := Unpromoted(e, s);
    if b.val.0 != 1 then b
    else
      var t := IsTristate(e, s);
      if !t.val then Traced((2, b.val.1), b.seen + t.seen)
      else
        var w := Eval(e, e.k.S(s).weakRevDep);
        Traced((if w.val == 2 then 2 else 1, b.val.1), b.seen + t.seen + w.seen)
  }

  /** Symbol.tri_value of a choice symbol. */
  function MemberTri(e: Env, s: nat, c: nat): Traced<(Tri, bool)> {
    var vis := e.v(Vis(Sym(s))).T();
    var here := {Vis(Sym(s))};
    if vis == 2 then
      Traced((if e.v(Pick(c)).P() == Some(s) then 2 else 0, true), here + {Pick(c)})
    else if vis != 0 && e.u.TriOf(s).Some? && e.u.TriOf(s).value != 0 then Traced((1, true), here)
    else Traced((0, vis != 0), here)
  }

  function SymTri(e: Env, s: nat): Traced<(Tri, bool)> {
    if !e.k.S(s).origType.Logical() then Traced((0, false), {})
    else match e.k.S(s).choice
      case None => PlainTri(e, s)
      case Some(c) => MemberTri(e, s, c)
  }

  function NumOrZero(k: Config, s: string, base: nat): int {
    match k.parse(s, base) case None => 0 case Some(n) => n
  }

  /** The first range whose condition holds. */
  function ActiveRange(e: Env, rs: seq<Range>, base: nat): Traced<Option<(int, int)>> {
    if rs == [] then Traced(None, {})
    else
      var c := Eval(e, rs[0].cond);
      if c.val != 0 then
        var lo, hi := ItemStr(e, rs[0].low), ItemStr(e, rs[0].high);
        Traced(Some((NumOrZero(e.k, lo.val, base), NumOrZero(e.k, hi.val, base))), c.seen + lo.seen + hi.seen)
      else var rest := ActiveRange(e, rs[1..], base); Traced(rest.val, c.seen + rest.seen)
  }

  /** The string a non-logical symbol gets from its defaults, and whether there was one. */
  function StrDefault(e: Env, d: SymDef): Traced<(string, bool)> {
    var f := FirstDefault(e, d.defaults);
    match f.val
    case None => Traced(("", false), f.seen)
    case Some((x, _)) =>
      if x.value.Leaf? then var y := ItemStr(e, x.value.item); Traced((y.val, true), f.seen + y.seen)
      else Traced(("", true), f.seen)
  }

  /** Clamping runs even without a default, on the number zero. */
  function Clamped(k: Config, val: string, found: bool, range: Option<(int, int)>, base: nat): string {
    if range.None? then val
    else
      var n := if found then NumOrZero(k, val, base) else 0;
      if n < range.value.0 then k.print_(range.value.0, base)
      else if n > range.value.1 then k.print_(range.value.1, base)
      else val
  }

  /** Symbol.str_value of an int or hex symbol. */
  function NumberStr(e: Env, s: nat): Traced<(string, bool)> {
    var d := e.k.S(s);
    var base := d.origType.Base();
    var vis := e.v(Vis(Sym(s))).T();
    var user := e.u.StrOf(s);
    var range := ActiveRange(e, d.ranges, base);
    var here := {Vis(Sym(s))} + range.seen;
    if vis != 0 && user.Some? && user.value != "" &&
       (range.val.None? || range.val.value.0 <= NumOrZero(e.k, user.value, base) <= range.val.value.1)
    then Traced((user.value, true), here)
    else
      var def := StrDefault(e, d);
      Traced((Clamped(e.k, def.val.0, def.val.1, range.val, base), vis != 0 || def.val.1), here + def.seen)
  }

  /** Symbol.str_value of a string symbol. */
  function TextStr(e: Env, s: nat): Traced<(string, bool)> {
    var vis := e.v(Vis(Sym(s))).T();
    var here := {Vis(Sym(s))};
    if vis != 0 && e.u.StrOf(s).Some? then Traced((e.u.StrOf(s).value, true), here)
    else
      var def := StrDefault(e, e.k.S(s));
      Traced((def.val.0, vis != 0 || def.val.1), here + def.seen)
  }

  function SymStr(e: Env, s: nat): Traced<(string, bool)> {
    var d := e.k.S(s);
    if d.origType.Logical() then
      Traced((TriStr(e.v(TriVal(s)).T()), e.v(TriVal(s)).W()), {TriVal(s)})
    else if d.origType == UNKNOWN then Traced((d.name, false), {})
    else
      var t := if d.origType == STRING then TextStr(e, s) else NumberStr(e, s);
      Traced((t.val.0, t.val.1 && !d.neverWritten), t.seen)
  }

  /** The first choice default whose condition holds and whose symbol is visible. */
  function DefaultPick(e: Env, ds: seq<ChoiceDefault>): Traced<Option<nat>> {
    if ds == [] then Traced(None, {})
    else
      var c := Eval(e, ds[0].cond);
      if c.val == 0 then
        var rest := DefaultPick(e, ds[1..]); Traced(rest.val, c.seen + rest.seen)
      else
        var here := c.seen + {Vis(Sym(ds[0].member))};
        if e.v(Vis(Sym(ds[0].member))).T() != 0 then Traced(Some(ds[0].member), here)
        else var rest := DefaultPick(e, ds[1..]); Traced(rest.val, here + rest.seen)
  }

  function FirstVisible(e: Env, ms: seq<nat>): Traced<Option<nat>> {
    if ms == [] then Traced(None, {})
    else if e.v(Vis(Sym(ms[0]))).T() != 0 then Traced(Some(ms[0]), {Vis(Sym(ms[0]))})
    else var rest := FirstVisible(e, ms[1..]); Traced(rest.val, {Vis(Sym(ms[0]))} + rest.seen)
  }

  /** Choice._selection_from_defaults() */
  function SelectionFromDefaults(e: Env, c: nat): Traced<Option<nat>> {
    var d := DefaultPick(e, e.k.C(c).defaults);
    if d.val.Some? then d
    else var f := FirstVisible(e, e.k.C(c).members); Traced(f.val, d.seen + f.seen)
  }

  /** Choice._selection() */
  function Selection(e: Env, c: nat): Traced<Option<nat>> {
    var m := Mode(e, c);
    if m.val != 2 then Traced(None, m.seen)
    else match e.u.SelectionOf(c)
      case None => var d := SelectionFromDefaults(e, c); Traced(d.val, m.seen + d.seen)
      case Some(s) =>
        var here := m.seen + {Vis(Sym(s))};
        if e.v(Vis(Sym(s))).T() != 0 then Traced(Some(s), here)
        else var d := SelectionFromDefaults(e, c); Traced(d.val, here + d.seen)
  }

  /** One cell, computed from the others. */
  function Step(e: Env, c: Cell): Traced<Val> {
    match c
    case Vis(Sym(s)) => var t := SymVis(e, s); Traced(TriV(t.val, false), t.seen)
    case Vis(Ch(c)) => var t := ChoiceVis(e, c); Traced(TriV(t.val, false), t.seen)
    case Vis(_) => Traced(TriV(0, false), {})
    case TriVal(s) => var t := SymTri(e, s); Traced(TriV(t.val.0, t.val.1), t.seen)
    case StrVal(s) => var t := SymStr(e, s); Traced(StrV(t.val.0, t.val.1), t.seen)
    case Pick(c) => var t := Selection(e, c); Traced(PickV(t.val), t.seen)
  }

  // ------------------------------------------------------------- assignment

  /** Whether set_value() accepts the value for the symbol's type. */
  predicate ValidFor(k: Config, s: nat, v: UserValue) {
    match k.S(s).origType
    case UNKNOWN => false
    case BOOL => v.UserTri? && v.tri != 1
    case TRISTATE => v.UserTri?
    case STRING => v.UserStr?
    case INT => v.UserStr? && k.parse(v.str, 10).Some?
    case HEX => v.UserStr? && k.parse(v.str, 16).Some? && k.parse(v.str, 16).value >= 0
  }

  predicate ValidMode(k: Config, c: nat, m: Tri) {
    k.C(c).origType == TRISTATE || (k.C(c).origType == BOOL && m != 1)
  }

  predicate Accepts(k: Config, u: User, s: nat, v: UserValue) {
    ValidFor(k, s, v) || (s in u.symValue && u.symValue[s] == v && k.S(s).choice.None?)
  }

  predicate AcceptsMode(k: Config, u: User, c: nat, m: Tri) {
    ValidMode(k, c, m) || u.ModeOf(c) == Some(m)
  }

  /** Setting a choice symbol to y also makes it the user selection of the choice. */
  function AfterSet(k: Config, u: User, s: nat, v: UserValue): User {
    var w := u.(symValue := u.symValue[s := v]);
    if k.S(s).choice.Some? && v == UserTri(2) then w.(selection := w.selection[k.S(s).choice.value := s]) else w
  }

  function AfterUnset(u: User, s: nat): User { u.(symValue := u.symValue - {s}) }

  function AfterSetMode(u: User, c: nat, m: Tri): User { u.(mode := u.mode[c := m]) }

  function AfterUnsetMode(u: User, c: nat): User {
    u.(mode := u.mode - {c}, selection := u.selection - {c})
  }
}
