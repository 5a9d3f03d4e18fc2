/** The evaluation engine itself: values are computed on demand and cached,
    assignments invalidate. Every public operation keeps the cache sound, so
    every value ever returned is the one evaluation from scratch would give. */
module KconfigCache {
  import opened Wrappers
  import opened KconfigModel
  import opened KconfigReference
  import opened KconfigInvalidation

  /** All cells rank below `r`. */
  ghost predicate Below(rank: Cell -> nat, cells: set<Cell>, r: nat) {
    forall d | d in cells :: rank(d) < r
  }

  lemma StaticBelow(k: Config, rank: Cell -> nat, c: Cell)
    requires LoopFree(k, rank)
    ensures Below(rank, StaticCells(k, c), rank(c))
  {
    hide StaticCells;
  }

  lemma CachedValue(k: Config, u: User, rank: Cell -> nat, cache: Cache, c: Cell)
    requires Sound(k, u, rank, cache) && c in cache
    ensures cache[c] == At(k, u, rank).v(c)
    ensures Constant(k, c) || Vis(c.Owner()) in cache
  {
    hide Step, Reference;
  }

  lemma {:induction false} PromptCellsAt(k: Config, ps: seq<Expr>, n: nat)
    requires n < |ps|
    ensures ExprCells(k, ps[n]) <= PromptCells(k, ps)
  {
    if n < |ps| - 1 { PromptCellsAt(k, ps[..|ps| - 1], n); }
  }

  lemma {:induction false} DefaultCellsAt(k: Config, ds: seq<Default>, n: nat)
    requires n < |ds|
    ensures ExprCells(k, ds[n].cond) + ExprCells(k, ds[n].value) <= DefaultCells(k, ds)
    ensures ds[n].value.Leaf? ==> OperandCells(k, ds[n].value.item) <= StrDefaultCells(k, ds)
  {
    if n > 0 { DefaultCellsAt(k, ds[1..], n - 1); }
  }

  lemma {:induction false} RangeCellsAt(k: Config, rs: seq<Range>, n: nat)
    requires n < |rs|
    ensures ExprCells(k, rs[n].cond) <= RangeCells(k, rs)
    ensures OperandCells(k, rs[n].low) <= RangeCells(k, rs)
    ensures OperandCells(k, rs[n].high) <= RangeCells(k, rs)
  {
    hide ExprCells, OperandCells;
    if n > 0 { RangeCellsAt(k, rs[1..], n - 1); }
  }

  lemma {:induction false} ChoiceDefaultCellsAt(k: Config, ds: seq<ChoiceDefault>, n: nat)
    requires n < |ds|
    ensures ExprCells(k, ds[n].cond) <= ChoiceDefaultCells(k, ds)
    ensures Vis(Sym(ds[n].member)) in ChoiceDefaultCells(k, ds)
  {
    if n > 0 { ChoiceDefaultCellsAt(k, ds[1..], n - 1); }
  }

  lemma MemberCellsAt(k: Config, s: nat)
    requires k.S(s).origType.Logical() && k.S(s).choice.Some?
    ensures Vis(Sym(s)) in StaticCells(k, TriVal(s)) && Pick(k.S(s).choice.value) in StaticCells(k, TriVal(s))
  {
  }

  /** The public operations of the engine and what they answer. */
  datatype Op =
    | Set(s: nat, v: UserValue) | Unset(s: nat)
    | SetMode(c: nat, m: Tri) | UnsetMode(c: nat)
    | ReadVisibility(i: Item) | ReadTri(s: nat) | ReadStr(s: nat) | ReadSelection(c: nat)

  datatype Answer = Done | Accepted(ok: bool) | SawTri(t: Tri) | SawStr(str: string) | SawPick(p: Option<nat>)

  predicate InRange(k: Config, op: Op) {
    match op
    case Set(s, _) => s < |k.syms|
    case Unset(s) => s < |k.syms|
    case SetMode(c, _) => c < |k.choices|
    case UnsetMode(c) => c < |k.choices|
    case _ => true
  }

  function After(k: Config, u: User, op: Op): User {
    match op
    case Set(s, v) => if Accepts(k, u, s, v) then AfterSet(k, u, s, v) else u
    case Unset(s) => AfterUnset(u, s)
    case SetMode(c, m) => if AcceptsMode(k, u, c, m) then AfterSetMode(u, c, m) else u
    case UnsetMode(c) => AfterUnsetMode(u, c)
    case _ => u
  }

  function AfterAll(k: Config, u: User, ops: seq<Op>): User {
    if ops == [] then u else After(k, AfterAll(k, u, ops[..|ops| - 1]), ops[|ops| - 1])
  }

  /** The answer without any cache. */
  ghost function FromScratch(k: Config, u: User, rank: Cell -> nat, op: Op): Answer {
    match op
    case Set(s, v) => Accepted(Accepts(k, u, s, v))
    case SetMode(c, m) => Accepted(AcceptsMode(k, u, c, m))
    case ReadVisibility(i) => SawTri(Reference(k, u, rank)(Vis(i)).T())
    case ReadTri(s) => SawTri(Reference(k, u, rank)(TriVal(s)).T())
    case ReadStr(s) => SawStr(Reference(k, u, rank)(StrVal(s)).S())
    case ReadSelection(c) => SawPick(Reference(k, u, rank)(Pick(c)).P())
    case _ => Done
  }

  lemma SetDiffers(k: Config, u: User, s: nat, v: UserValue)
    requires WellFormed(k) && WellFormedUser(k, u) && s < |k.syms|
    ensures var w := AfterSet(k, u, s, v);
            && WellFormedUser(k, w)
            && DiffersOnlyOn(u, w, if k.S(s).choice.Some?
                 && v == UserTri(2) then {Sym(s), Ch(k.S(s).choice.value)} else {Sym(s)})
  {
    hide Deps;
  }

  lemma NothingInvalidated(k: Config, cache: Cache)
    ensures Invalidated(k, cache, cache, {})
  {
  }

  lemma AllInvalidated(k: Config, before: Cache, after: Cache)
    requires after == map c | c in before && c.Owner() !in DefinedItems(k) :: before[c]
    ensures Invalidated(k, before, after, DefinedItems(k))
  {
    hide Deps;
  }

  lemma DroppedOne(before: Cache, after: Cache, i: Item)
    requires after == map c | c in before && c.Owner() != i :: before[c]
    ensures Dropped(before, after, {i})
  {
  }

  lemma OnlyDropped(k: Config, before: Cache, after: Cache, gone: set<Item>)
    requires Invalidated(k, before, after, gone)
    ensures after.Keys <= before.Keys
  {
  }

  lemma DependentsDefined(k: Config, i: Item, j: Item)
    requires j in Dependents(k, i)
    ensures j in DefinedItems(k)
  {
  }

  class Kconfig {
    const k: Config
    ghost const rank: Cell -> nat
    var user: User
    var cache: Cache

    ghost predicate Valid()
      reads this
    {
      WellFormed(k) && LoopFree(k, rank) && WellFormedUser(k, user) && Sound(k, user, rank, cache)
    }

    ghost function Env(): Env
      reads this`user
    {
      At(k, user, rank)
    }

    /** `x` is the traced value, and what it was read from is cached by now. */
    ghost predicate Got<X>(t: Traced<X>, x: X)
      reads this`cache
    {
      x == t.val && t.seen <= cache.Keys
    }

    constructor (k: Config, ghost rank: Cell -> nat)
      requires WellFormed(k) && LoopFree(k, rank)
      ensures Valid() && this.k == k && this.rank == rank
      ensures user == User(map[], map[], map[]) && cache == map[]
    {
      this.k, this.rank := k, rank;
      user, cache := User(map[], map[], map[]), map[];
    }

    method Store(c: Cell, v: Val)
      requires Valid()
      requires Got(Step(Env(), c), v)
      requires Constant(k, c) || Vis(c.Owner()) in cache || c == Vis(c.Owner())
      modifies this`cache
      ensures Valid() && cache == old(cache)[c := v] && v == Env().v(c)
    {
      hide Step, Sound, LoopFree, WellFormed, Reference, Constant;
      SoundExtend(k, user, rank, cache, c, v);
      ReferenceSolvesAt(k, user, rank, c);
      cache := cache[c := v];
    }

    // --------------------------------------------------------- evaluation

    method ModulesValue(ghost r: nat) returns (t: Tri)
      requires Valid() && Below(rank, ModulesCells(k), r)
      modifies this`cache
      ensures Valid() && old(cache.Keys) <= cache.Keys && Got(Modules(Env()), t)
      decreases r, 0
    {
      hide Sound, LoopFree, WellFormed, Reference;
      if k.modules.None? { return 0; }
      t := TriValue(k.modules.value);
    }

    method ChoiceIsBoolValue(c: nat, ghost r: nat) returns (b: bool)
      requires Valid() && Below(rank, TypeCells(k, k.C(c).origType), r)
      modifies this`cache
      ensures Valid() && old(cache.Keys) <= cache.Keys && Got(ChoiceIsBool(Env(), c), b)
      decreases r, 1
    {
      hide Sound, LoopFree, WellFormed, Reference, Modules;
      if k.C(c).origType == TRISTATE {
        var m := ModulesValue(r);
        b := m == 0;
      } else {
        b := k.C(c).origType == BOOL;
      }
    }

    /** Choice.tri_value */
    method ModeValue(c: nat, ghost r: nat) returns (t: Tri)
      requires Valid() && Below(rank, ModeCells(k, c), r)
      modifies this`cache
      ensures Valid() && old(cache.Keys) <= cache.Keys && Got(Mode(Env(), c), t)
      decreases r, 2
    {
      hide Sound, LoopFree, WellFormed, Reference, ChoiceIsBool;
      t := if k.C(c).optional then 0 else 1;
      if user.ModeOf(c).Some? { t := Max(t, user.ModeOf(c).value); }
      var vis := Visibility(Ch(c));
      t := Min(t, vis);
      if t == 1 {
        var b := ChoiceIsBoolValue(c, r);
        if b { t := 2; }
      }
    }

    /** Symbol.type is TRISTATE */
    method IsTristateValue(s: nat, ghost r: nat) returns (b: bool)
      requires Valid() && Below(rank, TypeCells(k, k.S(s).origType), r)
      requires k.S(s).choice.Some? ==> Below(rank, ModeCells(k, k.S(s).choice.value), r)
      modifies this`cache
      ensures Valid() && old(cache.Keys) <= cache.Keys && Got(IsTristate(Env(), s), b)
      decreases r, 3
    {
      hide Sound, LoopFree, WellFormed, Reference, Mode, Modules;
      if k.S(s).origType != TRISTATE { return false; }
      if k.S(s).choice.Some? {
        var mode := ModeValue(k.S(s).choice.value, r);
        if mode == 2 { return false; }
      }
      var m := ModulesValue(r);
      b := m != 0;
    }

    method ItemTriValue(i: Item, ghost r: nat) returns (t: Tri)
      requires Valid() && Below(rank, ExprCells(k, Leaf(i)), r)
      modifies this`cache
      ensures Valid() && old(cache.Keys) <= cache.Keys && Got(ItemTri(Env(), i), t)
      decreases r, 3
    {
      hide Sound, LoopFree, WellFormed, Reference, Mode;
      match i
      case Lit(l) => t := l;
      case Name(_) => t := 0;
      case Sym(s) => t := TriValue(s);
      case Ch(c) => t := ModeValue(c, r);
    }

    method ItemStrValue(i: Item, ghost r: nat) returns (t: string)
      requires Valid() && Below(rank, OperandCells(k, i), r)
      modifies this`cache
      ensures Valid() && old(cache.Keys) <= cache.Keys && Got(ItemStr(Env(), i), t)
      decreases r, 3
    {
      hide Sound, LoopFree, WellFormed, Reference, Mode;
      match i
      case Lit(l) => t := TriStr(l);
      case Name(n) => t := n;
      case Sym(s) => t := StrValue(s);
      case Ch(c) => var m := ModeValue(c, r); t := TriStr(m);
    }

    method ItemNumValue(i: Item, ghost r: nat) returns (n: Option<int>)
      requires Valid() && Below(rank, OperandCells(k, i), r)
      modifies this`cache
      ensures Valid() && old(cache.Keys) <= cache.Keys && Got(ItemNum(Env(), i), n)
      decreases r, 4
    {
      hide Sound, LoopFree, WellFormed, Reference, ItemTri, ItemStr;
      if OrigType(k, i).Logical() {
        assert ExprCells(k, Leaf(i)) <= OperandCells(k, i);
        var t := ItemTriValue(i, r);
        n := Some(t);
      } else {
        var t := ItemStrValue(i, r);
        n := k.parse(t, OrigType(k, i).Base());
      }
    }

    method CompareStringsValue(a: Item, b: Item, ghost r: nat) returns (n: int)
      requires Valid() && Below(rank, OperandCells(k, a) + OperandCells(k, b), r)
      modifies this`cache
      ensures Valid() && old(cache.Keys) <= cache.Keys && Got(CompareStrings(Env(), a, b), n)
      decreases r, 4
    {
      hide Sound, LoopFree, WellFormed, Reference, ItemStr, StrCmp, OperandCells;
      var x := ItemStrValue(a, r);
      var y := ItemStrValue(b, r);
      n := StrCmp(x, y);
    }

    method CompareValue(a: Item, b: Item, ghost r: nat) returns (n: int)
      requires Valid() && Below(rank, OperandCells(k, a) + OperandCells(k, b), r)
      modifies this`cache
      ensures Valid() && old(cache.Keys) <= cache.Keys && Got(Compare(Env(), a, b), n)
      decreases r, 5
    {
      hide Sound, LoopFree, WellFormed, Reference, ItemNum, CompareStrings, OrigType, OperandCells;
      if !(OrigType(k, a) == STRING && OrigType(k, b) == STRING) {
        var x := ItemNumValue(a, r);
        if x.Some? {
          var y := ItemNumValue(b, r);
          if y.Some? { return x.value - y.value; }
        }
      }
      n := CompareStringsValue(a, b, r);
    }

    /** expr_value() */
    method ExprValue(x: Expr, ghost r: nat) returns (t: Tri)
      requires Valid() && Below(rank, ExprCells(k, x), r)
      modifies this`cache
      ensures Valid() && old(cache.Keys) <= cache.Keys && Got(Eval(Env(), x), t)
      decreases r, 6, x
    {
      hide Sound, LoopFree, WellFormed, Reference, ItemTri, Compare;
      match x
      case Leaf(i) => t := ItemTriValue(i, r);
      case And(l, q) =>
        t := ExprValue(l, r);
        if t != 0 { var t2 := ExprValue(q, r); t := Min(t, t2); }
      case Or(l, q) =>
        t := ExprValue(l, r);
        if t != 2 { var t2 := ExprValue(q, r); t := Max(t, t2); }
      case Not(y) => t := ExprValue(y, r); t := 2 - t;
      case Rel(rel, a, b) =>
        var n := CompareValue(a, b, r);
        t := if RelHolds(rel, n) then 2 else 0;
    }

    method PromptVisValue(ps: seq<Expr>, ghost r: nat) returns (vis: Tri)
      requires Valid() && Below(rank, PromptCells(k, ps), r)
      modifies this`cache
      ensures Valid() && old(cache.Keys) <= cache.Keys && Got(PromptVis(Env(), ps), vis)
      decreases r, 7
    {
      hide Sound, LoopFree, WellFormed, Reference, Eval;
      vis := 0;
      for n := 0 to |ps|
        invariant Valid() && old(cache.Keys) <= cache.Keys && Got(PromptVis(Env(), ps[..n]), vis)
      {
        assert ps[..n + 1][..n] == ps[..n];
        PromptCellsAt(k, ps, n);
        var t := ExprValue(ps[n], r);
        vis := Max(vis, t);
      }
      assert ps[..|ps|] == ps;
    }

    method SymVisValue(s: nat, ghost r: nat) returns (vis: Tri)
      requires Valid() && Below(rank, StaticCells(k, Vis(Sym(s))), r)
      modifies this`cache
      ensures Valid() && old(cache.Keys) <= cache.Keys && Got(SymVis(Env(), s), vis)
      decreases r, 8
    {
      hide Sound, LoopFree, WellFormed, Reference, PromptVis, Mode, Modules;
      var d := k.S(s);
      vis := PromptVisValue(d.prompts, r);
      if d.choice.Some? {
        var c := d.choice.value;
        if k.C(c).origType == TRISTATE && d.origType != TRISTATE {
          var m := ModeValue(c, r);
          if m != 2 { return 0; }
        }
        if d.origType == TRISTATE && vis == 1 {
          var m := ModeValue(c, r);
          if m == 2 { return 0; }
        }
      }
      if vis == 1 {
        var b := IsTristateValue(s, r);
        if !b { vis := 2; }
      }
    }

    method ChoiceVisValue(c: nat, ghost r: nat) returns (vis: Tri)
      requires Valid() && Below(rank, StaticCells(k, Vis(Ch(c))), r)
      modifies this`cache
      ensures Valid() && old(cache.Keys) <= cache.Keys && Got(ChoiceVis(Env(), c), vis)
      decreases r, 8
    {
      hide Sound, LoopFree, WellFormed, Reference, PromptVis, Modules;
      vis := PromptVisValue(k.C(c).prompts, r);
      if vis == 1 {
        if k.C(c).origType != TRISTATE { return 2; }
        var b := ChoiceIsBoolValue(c, r);
        if b { vis := 2; }
      }
    }

    /** Symbol.visibility and Choice.visibility */
    method Visibility(i: Item) returns (vis: Tri)
      requires Valid()
      modifies this`cache
      ensures Valid() && old(cache.Keys) <= cache.Keys
      ensures vis == Env().v(Vis(i)).T() && Vis(i) in cache
      decreases rank(Vis(i)), 20
    {
      hide Sound, LoopFree, WellFormed, Reference, StaticCells, SymVis, ChoiceVis;
      if Vis(i) in cache {
        CachedValue(k, user, rank, cache, Vis(i));
        return cache[Vis(i)].T();
      }
      StaticBelow(k, rank, Vis(i));
      match i {
        case Sym(s) => vis := SymVisValue(s, rank(Vis(i)));
        case Ch(c) => vis := ChoiceVisValue(c, rank(Vis(i)));
        case _ => vis := 0;
      }
      Store(Vis(i), TriV(vis, false));
    }

    method FirstDefaultValue(ds: seq<Default>, ghost r: nat) returns (f: Option<(Default, Tri)>)
      requires Valid() && Below(rank, DefaultCells(k, ds), r)
      modifies this`cache
      ensures Valid() && old(cache.Keys) <= cache.Keys && Got(FirstDefault(Env(), ds), f)
      ensures f.Some? ==> Below(rank, ExprCells(k, f.value.0.value), r)
      ensures f.Some? && f.value.0.value.Leaf? ==> OperandCells(k, f.value.0.value.item) <= StrDefaultCells(k, ds)
      decreases r, 7
    {
      hide Sound, LoopFree, WellFormed, Reference, Eval, ExprCells, OperandCells, StrDefaultCells, DefaultCells;
      for n := 0 to |ds|
        invariant Valid() && old(cache.Keys) <= cache.Keys
        invariant FirstDefault(Env(), ds).val == FirstDefault(Env(), ds[n..]).val
        invariant FirstDefault(Env(), ds).seen <= cache.Keys + FirstDefault(Env(), ds[n..]).seen
      {
        DefaultCellsAt(k, ds, n);
        var t := ExprValue(ds[n].cond, r);
        if t != 0 { return Some((ds[n], t)); }
        assert ds[n..][1..] == ds[n + 1..];
      }
      f := None;
    }

    method FromDefaultsValue(d: SymDef, vis: Tri, ghost r: nat) returns (val: Tri, w: bool)
      requires Valid() && Below(rank, DefaultCells(k, d.defaults), r)
      requires Below(rank, ExprCells(k, d.weakRevDep), r) && Below(rank, ExprCells(k, d.directDep), r)
      modifies this`cache
      ensures Valid() && old(cache.Keys) <= cache.Keys && Got(FromDefaults(Env(), d, vis), (val, w))
      decreases r, 8
    {
      hide Sound, LoopFree, WellFormed, Reference, Eval, FirstDefault, ExprCells, DefaultCells, StrDefaultCells,
        OperandCells;
      val, w := 0, vis != 0;
      var f := FirstDefaultValue(d.defaults, r);
      if f.Some? {
        var t := ExprValue(f.value.0.value, r);
        val := Min(t, f.value.1);
        if val != 0 { w := true; }
      }
      var weak := ExprValue(d.weakRevDep, r);
      if weak != 0 {
        var dir := ExprValue(d.directDep, r);
        if dir != 0 { val, w := Max(weak, val), true; }
      }
    }

    method PlainTriValue(s: nat, ghost r: nat) returns (val: Tri, w: bool)
      requires Valid() && k.S(s).origType.Logical() && k.S(s).choice.None?
      requires r == rank(TriVal(s)) && Below(rank, LogicalCells(k, s), r)
      modifies this`cache
      ensures Valid() && old(cache.Keys) <= cache.Keys && Got(PlainTri(Env(), s), (val, w))
      ensures Vis(Sym(s)) in cache
      decreases r, 9
    {
      hide Sound, LoopFree, WellFormed, Reference, Eval, FromDefaults, ExprCells, DefaultCells, Modules, IsTristate;
      var d := k.S(s);
      var vis := Visibility(Sym(s));
      if vis != 0 && user.TriOf(s).Some? {
        val, w := Min(user.TriOf(s).value, vis), true;
      } else {
        val, w := FromDefaultsValue(d, vis, r);
      }
      var rev := ExprValue(d.revDep, r);
      if rev != 0 { val, w := Max(rev, val), true; }
      if val == 1 {
        var b := IsTristateValue(s, r);
        if !b {
          val := 2;
        } else {
          var weak := ExprValue(d.weakRevDep, r);
          if weak == 2 { val := 2; }
        }
      }
    }

    method MemberTriValue(s: nat, c: nat) returns (val: Tri, w: bool)
      requires Valid() && k.S(s).origType.Logical() && k.S(s).choice == Some(c)
      requires rank(Vis(Sym(s))) < rank(TriVal(s)) && rank(Pick(c)) < rank(TriVal(s))
      modifies this`cache
      ensures Valid() && old(cache.Keys) <= cache.Keys && Got(MemberTri(Env(), s, c), (val, w))
      ensures Vis(Sym(s)) in cache
      decreases rank(TriVal(s)), 9
    {
      hide Sound, LoopFree, WellFormed, Reference;
      var vis := Visibility(Sym(s));
      val, w := 0, vis != 0;
      if vis == 2 {
        var p := SelectionValue(c);
        val := if p == Some(s) then 2 else 0;
      } else if vis != 0 && user.TriOf(s).Some? && user.TriOf(s).value != 0 {
        val := 1;
      }
    }

    /** Symbol.tri_value */
    method TriValue(s: nat) returns (t: Tri)
      requires Valid()
      modifies this`cache
      ensures Valid() && old(cache.Keys) <= cache.Keys
      ensures t == Env().v(TriVal(s)).T() && TriVal(s) in cache
      decreases rank(TriVal(s)), 20
    {
      hide Sound, LoopFree, WellFormed, Reference, LogicalCells, PlainTri, MemberTri;
      if TriVal(s) in cache {
        CachedValue(k, user, rank, cache, TriVal(s));
        return cache[TriVal(s)].T();
      }
      var w := false;
      t := 0;
      if k.S(s).origType.Logical() {
        StaticBelow(k, rank, TriVal(s));
        if k.S(s).choice.None? {
          t, w := PlainTriValue(s, rank(TriVal(s)));
        } else {
          MemberCellsAt(k, s);
          t, w := MemberTriValue(s, k.S(s).choice.value);
        }
      }
      Store(TriVal(s), TriV(t, w));
    }

    method ActiveRangeValue(rs: seq<Range>, base: nat, ghost r: nat) returns (f: Option<(int, int)>)
      requires Valid() && Below(rank, RangeCells(k, rs), r)
      modifies this`cache
      ensures Valid() && old(cache.Keys) <= cache.Keys && Got(ActiveRange(Env(), rs, base), f)
      decreases r, 7
    {
      hide Sound, LoopFree, WellFormed, Reference, Eval, ItemStr, ExprCells, OperandCells, RangeCells;
      for n := 0 to |rs|
        invariant Valid() && old(cache.Keys) <= cache.Keys
        invariant ActiveRange(Env(), rs, base).val == ActiveRange(Env(), rs[n..], base).val
        invariant ActiveRange(Env(), rs, base).seen <= cache.Keys + ActiveRange(Env(), rs[n..], base).seen
      {
        RangeCellsAt(k, rs, n);
        var t := ExprValue(rs[n].cond, r);
        if t != 0 {
          var lo := ItemStrValue(rs[n].low, r);
          var hi := ItemStrValue(rs[n].high, r);
          return Some((NumOrZero(k, lo, base), NumOrZero(k, hi, base)));
        }
        assert rs[n..][1..] == rs[n + 1..];
      }
      f := None;
    }

    method StrDefaultValue(d: SymDef, ghost r: nat) returns (val: string, found: bool)
      requires Valid() && Below(rank, DefaultCells(k, d.defaults), r) && Below(rank, StrDefaultCells(k, d.defaults), r)
      modifies this`cache
      ensures Valid() && old(cache.Keys) <= cache.Keys && Got(StrDefault(Env(), d), (val, found))
      decreases r, 8
    {
      hide Sound, LoopFree, WellFormed, Reference, FirstDefault, ItemStr, ExprCells, OperandCells, StrDefaultCells,
        DefaultCells;
      var f := FirstDefaultValue(d.defaults, r);
      if f.None? { return "", false; }
      if !f.value.0.value.Leaf? { return "", true; }
      val := ItemStrValue(f.value.0.value.item, r);
      found := true;
    }

    method NumberStrValue(s: nat, ghost r: nat) returns (val: string, w: bool)
      requires Valid() && (k.S(s).origType == INT || k.S(s).origType == HEX)
      requires r == rank(StrVal(s)) && Below(rank, StaticCells(k, StrVal(s)), r)
      modifies this`cache
      ensures Valid() && old(cache.Keys) <= cache.Keys && Got(NumberStr(Env(), s), (val, w))
      ensures Vis(Sym(s)) in cache
      decreases r, 9
    {
      hide Sound, LoopFree, WellFormed, Reference, ActiveRange, StrDefault, RangeCells, DefaultCells, StrDefaultCells,
        NumOrZero;
      var d := k.S(s);
      var base := d.origType.Base();
      var vis := Visibility(Sym(s));
      var range := ActiveRangeValue(d.ranges, base, r);
      if vis != 0 && user.StrOf(s).Some? && user.StrOf(s).value != "" {
        var n := NumOrZero(k, user.StrOf(s).value, base);
        if range.None? || range.value.0 <= n <= range.value.1 {
          return user.StrOf(s).value, true;
        }
      }
      var def, found := StrDefaultValue(d, r);
      val := Clamped(k, def, found, range, base);
      w := vis != 0 || found;
    }

    method TextStrValue(s: nat, ghost r: nat) returns (val: string, w: bool)
      requires Valid() && k.S(s).origType == STRING
      requires r == rank(StrVal(s)) && Below(rank, StaticCells(k, StrVal(s)), r)
      modifies this`cache
      ensures Valid() && old(cache.Keys) <= cache.Keys && Got(TextStr(Env(), s), (val, w))
      ensures Vis(Sym(s)) in cache
      decreases r, 9
    {
      hide Sound, LoopFree, WellFormed, Reference, StrDefault, RangeCells, DefaultCells, StrDefaultCells;
      var vis := Visibility(Sym(s));
      if vis != 0 && user.StrOf(s).Some? { return user.StrOf(s).value, true; }
      var def, found := StrDefaultValue(k.S(s), r);
      val, w := def, vis != 0 || found;
    }

    /** Symbol.str_value */
    method StrValue(s: nat) returns (t: string)
      requires Valid()
      modifies this`cache
      ensures Valid() && old(cache.Keys) <= cache.Keys
      ensures t == Env().v(StrVal(s)).S() && StrVal(s) in cache
      decreases rank(StrVal(s)), 20
    {
      hide Sound, LoopFree, WellFormed, Reference, RangeCells, DefaultCells, StrDefaultCells, TextStr, NumberStr;
      if StrVal(s) in cache {
        CachedValue(k, user, rank, cache, StrVal(s));
        return cache[StrVal(s)].S();
      }
      StaticBelow(k, rank, StrVal(s));
      var w := false;
      if k.S(s).origType.Logical() {
        var tri := TriValue(s);
        CachedValue(k, user, rank, cache, TriVal(s));
        t, w := TriStr(tri), cache[TriVal(s)].W();
      } else if k.S(s).origType == UNKNOWN {
        t := k.S(s).name;
      } else {
        if k.S(s).origType == STRING {
          t, w := TextStrValue(s, rank(StrVal(s)));
        } else {
          t, w := NumberStrValue(s, rank(StrVal(s)));
        }
        w := w && !k.S(s).neverWritten;
      }
      Store(StrVal(s), StrV(t, w));
    }

    method DefaultPickValue(ds: seq<ChoiceDefault>, ghost r: nat) returns (p: Option<nat>)
      requires Valid() && Below(rank, ChoiceDefaultCells(k, ds), r)
      modifies this`cache
      ensures Valid() && old(cache.Keys) <= cache.Keys && Got(DefaultPick(Env(), ds), p)
      decreases r, 7
    {
      hide Sound, LoopFree, WellFormed, Reference, Eval, ExprCells, ChoiceDefaultCells;
      for n := 0 to |ds|
        invariant Valid() && old(cache.Keys) <= cache.Keys
        invariant DefaultPick(Env(), ds).val == DefaultPick(Env(), ds[n..]).val
        invariant DefaultPick(Env(), ds).seen <= cache.Keys + DefaultPick(Env(), ds[n..]).seen
      {
        ChoiceDefaultCellsAt(k, ds, n);
        assert ds[n..][1..] == ds[n + 1..];
        var t := ExprValue(ds[n].cond, r);
        if t != 0 {
          var vis := Visibility(Sym(ds[n].member));
          if vis != 0 { return Some(ds[n].member); }
        }
      }
      p := None;
    }

    method FirstVisibleValue(ms: seq<nat>, ghost r: nat) returns (p: Option<nat>)
      requires Valid() && Below(rank, MemberCells(ms), r)
      modifies this`cache
      ensures Valid() && old(cache.Keys) <= cache.Keys && Got(FirstVisible(Env(), ms), p)
      decreases r, 7
    {
      hide Sound, LoopFree, WellFormed, Reference;
      for n := 0 to |ms|
        invariant Valid() && old(cache.Keys) <= cache.Keys
        invariant FirstVisible(Env(), ms).val == FirstVisible(Env(), ms[n..]).val
        invariant FirstVisible(Env(), ms).seen <= cache.Keys + FirstVisible(Env(), ms[n..]).seen
      {
        assert ms[n..][1..] == ms[n + 1..];
        assert Vis(Sym(ms[n])) in MemberCells(ms);
        var vis := Visibility(Sym(ms[n]));
        if vis != 0 { return Some(ms[n]); }
      }
      p := None;
    }

    method SelectionFromDefaultsValue(c: nat, ghost r: nat) returns (p: Option<nat>)
      requires Valid() && Below(rank, StaticCells(k, Pick(c)), r)
      modifies this`cache
      ensures Valid() && old(cache.Keys) <= cache.Keys && Got(SelectionFromDefaults(Env(), c), p)
      decreases r, 8
    {
      hide Sound, LoopFree, WellFormed, Reference, DefaultPick, FirstVisible, ModeCells, ChoiceDefaultCells;
      p := DefaultPickValue(k.C(c).defaults, r);
      if p.None? { p := FirstVisibleValue(k.C(c).members, r); }
    }

    /** Choice.selection */
    method SelectionValue(c: nat) returns (p: Option<nat>)
      requires Valid()
      modifies this`cache
      ensures Valid() && old(cache.Keys) <= cache.Keys
      ensures p == Env().v(Pick(c)).P() && Pick(c) in cache
      decreases rank(Pick(c)), 20
    {
      hide Sound, LoopFree, WellFormed, Reference, ModeCells, ChoiceDefaultCells, SelectionFromDefaults;
      if Pick(c) in cache {
        CachedValue(k, user, rank, cache, Pick(c));
        return cache[Pick(c)].P();
      }
      StaticBelow(k, rank, Pick(c));
      var m := ModeValue(c, rank(Pick(c)));
      p := None;
      if m == 2 {
        if user.SelectionOf(c).Some? {
          var s := user.SelectionOf(c).value;
          assert Vis(Sym(s)) in MemberCells(k.C(c).members);
          var vis := Visibility(Sym(s));
          if vis != 0 { p := Some(s); }
        }
        if p.None? { p := SelectionFromDefaultsValue(c, rank(Pick(c))); }
      }
      Store(Pick(c), PickV(p));
    }

    // ------------------------------------------------------- invalidation

    ghost function CachedItems(): set<Item>
      reads this`cache
    {
      set j | j in DefinedItems(k) && Vis(j) in cache
    }

    /** Symbol._rec_invalidate() and Choice._rec_invalidate(). Terminates through
        the choice/choice symbol cycles because an item is entered only while
        its visibility is cached, and loses it on entry. */
    method RecInvalidate(i: Item) returns (ghost gone: set<Item>)
      requires i in DefinedItems(k)
      modifies this`cache
      ensures i in gone && Invalidated(k, old(cache), cache, gone)
      decreases CachedItems() - {i}
    {
      hide Dependents, Dropped, Invalidating;
      if IsModules(k, i) {
        ghost var was := cache;
        cache := map c | c in cache && c.Owner() !in DefinedItems(k) :: cache[c];
        AllInvalidated(k, was, cache);
        return DefinedItems(k);
      }
      ghost var was := cache;
      cache := map c | c in cache && c.Owner() != i :: cache[c];
      gone := {i};
      var todo := Dependents(k, i);
      DroppedOne(was, cache, i);
      StartInvalidating(k, was, cache, i);
      while todo != {}
        invariant i in gone && Invalidating(k, was, cache, gone, i, todo)
        invariant CachedItems() <= old(CachedItems()) - {i} && todo <= Dependents(k, i)
        decreases todo
      {
        var j :| j in todo;
        ghost var mid := cache;
        if Vis(j) in cache {
          DependentsDefined(k, i, j);
          ghost var more := RecInvalidate(j);
          NestedInvalidation(k, was, mid, cache, gone, more, i, todo, j);
          OnlyDropped(k, mid, cache, more);
          gone := gone + more;
        } else {
          SkipUncached(k, was, cache, gone, i, todo, j);
        }
        todo := todo - {j};
      }
      InvalidationDone(k, was, cache, gone, i);
    }

    // --------------------------------------------------------- assignment

    /** Symbol._rec_invalidate_if_has_prompt(), right after the user value changed. */
    method InvalidateIfPrompted(s: nat, ghost before: User)
      requires s < |k.syms| && WellFormed(k) && LoopFree(k, rank)
      requires WellFormedUser(k, before) && WellFormedUser(k, user) && Sound(k, before, rank, cache)
      requires DiffersOnlyOn(before, user, {Sym(s)})
      modifies this`cache
      ensures Valid()
    {
      hide Sound, LoopFree, WellFormed, WellFormedUser, Invalidated, Dependents;
      ghost var was, gone := cache, {Sym(s)};
      if k.S(s).prompts != [] {
        gone := RecInvalidate(Sym(s));
      } else {
        gone := {};
        NothingInvalidated(k, cache);
      }
      InvalidationSound(k, before, user, rank, was, cache, gone);
    }

    /** Choice._rec_invalidate() on behalf of a member that was just set to y. */
    method InvalidateChoiceOf(s: nat, ghost before: User)
      requires s < |k.syms| && WellFormed(k) && LoopFree(k, rank)
      requires k.S(s).choice.Some? && k.S(s).origType.Logical()
      requires WellFormedUser(k, before) && WellFormedUser(k, user) && Sound(k, before, rank, cache)
      requires DiffersOnlyOn(before, user, {Sym(s), Ch(k.S(s).choice.value)})
      modifies this`cache
      ensures Valid()
    {
      hide Sound, LoopFree, WellFormedUser, Deps;
      var c := k.S(s).choice.value;
      ghost var was := cache;
      ghost var gone := RecInvalidate(Ch(c));
      assert Sym(s) in Dependents(k, Ch(c));  // so nothing is cached on the symbol either
      assert Vis(Sym(s)) !in cache;
      InvalidationSound(k, before, user, rank, was, cache, gone);
    }

    /** Symbol.set_value() */
    method SetValue(s: nat, v: UserValue) returns (ok: bool)
      requires Valid() && s < |k.syms|
      modifies this`user, this`cache
      ensures Valid() && ok == Accepts(k, old(user), s, v)
      ensures user == if ok then AfterSet(k, old(user), s, v) else old(user)
      ensures !(s in old(user).symValue && old(user).symValue[s] == v && k.S(s).choice.None?) ==>
                (ok <==> match k.S(s).origType
                         case UNKNOWN => false
                         case BOOL => v == UserTri(0) || v == UserTri(2)
                         case TRISTATE => v.UserTri?
                         case STRING => v.UserStr?
                         case INT => v.UserStr? && k.parse(v.str, 10).Some?
                         case HEX => v.UserStr? && k.parse(v.str, 16).Some? && k.parse(v.str, 16).value >= 0)
      ensures ok ==> user.symValue == old(user).symValue[s := v] && user.mode == old(user).mode
      ensures ok ==> user.selection == if k.S(s).choice.Some? && v == UserTri(2)
                                       then old(user).selection[k.S(s).choice.value := s] else old(user).selection
    {
      hide Sound, LoopFree, WellFormed, WellFormedUser, DiffersOnlyOn;
      if s in user.symValue && user.symValue[s] == v && k.S(s).choice.None? {
        assert user.symValue[s := v] == user.symValue;
        return true;
      }
      if !ValidFor(k, s, v) { return false; }
      ghost var before := user;
      SetDiffers(k, user, s, v);
      user := user.(symValue := user.symValue[s := v]);
      if k.S(s).choice.Some? && v == UserTri(2) {
        user := user.(selection := user.selection[k.S(s).choice.value := s]);
        InvalidateChoiceOf(s, before);
      } else {
        InvalidateIfPrompted(s, before);
      }
      ok := true;
    }

    /** Symbol.unset_value() */
    method UnsetValue(s: nat)
      requires Valid() && s < |k.syms|
      modifies this`user, this`cache
      ensures Valid() && user == AfterUnset(old(user), s)
      ensures user.symValue == old(user).symValue - {s}
      ensures user.mode == old(user).mode && user.selection == old(user).selection
    {
      hide Sound, LoopFree, WellFormed;
      if s in user.symValue {
        ghost var before := user;
        user := user.(symValue := user.symValue - {s});
        InvalidateIfPrompted(s, before);
      } else {
        assert user.symValue - {s} == user.symValue;
      }
    }

    method InvalidateChoice(c: nat, ghost before: User)
      requires c < |k.choices| && WellFormed(k) && LoopFree(k, rank)
      requires WellFormedUser(k, before) && WellFormedUser(k, user) && Sound(k, before, rank, cache)
      requires DiffersOnlyOn(before, user, {Ch(c)})
      modifies this`cache
      ensures Valid()
    {
      hide Sound, LoopFree, WellFormed, WellFormedUser, Invalidated, Dependents;
      ghost var was := cache;
      ghost var gone := RecInvalidate(Ch(c));
      InvalidationSound(k, before, user, rank, was, cache, gone);
    }

    /** Choice.set_value() */
    method SetMode(c: nat, m: Tri) returns (ok: bool)
      requires Valid() && c < |k.choices|
      modifies this`user, this`cache
      ensures Valid() && ok == AcceptsMode(k, old(user), c, m)
      ensures user == if ok then AfterSetMode(old(user), c, m) else old(user)
      ensures !(c in old(user).mode && old(user).mode[c] == m) ==>
                (ok <==> k.C(c).origType == TRISTATE || (k.C(c).origType == BOOL && (m == 0 || m == 2)))
      ensures ok ==> user.mode == old(user).mode[c := m]
      ensures user.symValue == old(user).symValue && user.selection == old(user).selection
    {
      hide Sound, LoopFree, WellFormed;
      if user.ModeOf(c) == Some(m) {
        assert user.mode[c := m] == user.mode;
        return true;
      }
      if !ValidMode(k, c, m) { return false; }
      ghost var before := user;
      user := user.(mode := user.mode[c := m]);
      InvalidateChoice(c, before);
      ok := true;
    }

    /** Choice.unset_value() */
    method UnsetMode(c: nat)
      requires Valid() && c < |k.choices|
      modifies this`user, this`cache
      ensures Valid() && user == AfterUnsetMode(old(user), c)
      ensures user.mode == old(user).mode - {c} && user.selection == old(user).selection - {c}
      ensures user.symValue == old(user).symValue
    {
      hide Sound, LoopFree, WellFormed;
      if c in user.mode || c in user.selection {
        ghost var before := user;
        user := user.(mode := user.mode - {c}, selection := user.selection - {c});
        InvalidateChoice(c, before);
      } else {
        assert user.mode - {c} == user.mode && user.selection - {c} == user.selection;
      }
    }

    // --------------------------------------------------------------- runs

    method Do(op: Op) returns (a: Answer)
      requires Valid() && InRange(k, op)
      modifies this`user, this`cache
      ensures Valid() && user == After(k, old(user), op)
      ensures a == FromScratch(k, old(user), rank, op)
    {
      hide Sound, LoopFree, WellFormed, Reference, Accepts, AcceptsMode, AfterSet, AfterUnset, AfterSetMode,
        AfterUnsetMode;
      match op
      case Set(s, v) => var ok := SetValue(s, v); a := Accepted(ok);
      case Unset(s) => UnsetValue(s); a := Done;
      case SetMode(c, m) => var ok := SetMode(c, m); a := Accepted(ok);
      case UnsetMode(c) => UnsetMode(c); a := Done;
      case ReadVisibility(i) => var t := Visibility(i); a := SawTri(t);
      case ReadTri(s) => var t := TriValue(s); a := SawTri(t);
      case ReadStr(s) => var t := StrValue(s); a := SawStr(t);
      case ReadSelection(c) => var p := SelectionValue(c); a := SawPick(p);
    }

    /** Over any history of assignments and reads, every answer is the one that
        evaluation from scratch on the current user values gives. */
    method Run(ops: seq<Op>) returns (answers: seq<Answer>)
      requires Valid() && forall op | op in ops :: InRange(k, op)
      modifies this`user, this`cache
      ensures Valid() && user == AfterAll(k, old(user), ops)
      ensures |answers| == |ops|
      ensures forall n | 0 <= n < |ops| :: answers[n] == FromScratch(k, AfterAll(k, old(user), ops[..n]), rank, ops[n])
    {
      hide After, FromScratch, InRange, Sound, LoopFree, WellFormed, WellFormedUser;
      answers := [];
      for n := 0 to |ops|
        invariant Valid() && user == AfterAll(k, old(user), ops[..n]) && |answers| == n
        invariant forall j | 0 <= j < n :: answers[j] == FromScratch(k, AfterAll(k, old(user), ops[..j]), rank, ops[j])
      {
        assert ops[..n + 1][..n] == ops[..n];
        var a := Do(ops[n]);
        answers := answers + [a];
      }
      assert ops[..|ops|] == ops;
    }
  }
}
