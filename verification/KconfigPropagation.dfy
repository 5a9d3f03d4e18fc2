/** Dependency propagation: the conditions that parsing leaves on menu nodes are
    combined with everything around them, and collected on the symbols. */
module KconfigPropagation {
  import opened Wrappers
  import opened KconfigModel
  import opened MenuTree
  import opened MenuLinks

  datatype Place = SymbolAt(sym: nat) | ChoiceAt(choice: nat) | MenuAt | OtherAt

  datatype Target = Target(sym: nat, cond: Expr)

  /** The properties of one menu node; `visibleIf` is used on menus only, and
      `prompt` is the condition of the prompt. */
  datatype Node = Node(
    place: Place,
    dep: Expr,
    visibleIf: Expr,
    prompt: Option<Expr>,
    defaults: seq<Default>,
    ranges: seq<Range>,
    selects: seq<Target>,
    implies: seq<Target>)

  // ------------------------------------------------------- simplified and/or

  function MakeAnd(a: Expr, b: Expr): Expr {
    if a == YES then b else if b == YES then a else if a == NO || b == NO then NO else And(a, b)
  }

  function MakeOr(a: Expr, b: Expr): Expr {
    if a == NO then b else if b == NO then a else if a == YES || b == YES then YES else Or(a, b)
  }

  function ValueOf(e: Env, x: Expr): Tri { Eval(e, x).val }

  /** The simplifications keep the value, under every valuation. */
  lemma MakeValues(e: Env, a: Expr, b: Expr)
    ensures ValueOf(e, MakeAnd(a, b)) == Min(ValueOf(e, a), ValueOf(e, b))
    ensures ValueOf(e, MakeOr(a, b)) == Max(ValueOf(e, a), ValueOf(e, b))
  {
  }

  // ------------------------------------------------------------- propagation

  function WithDep(ds: seq<Default>, dep: Expr): seq<Default> {
    seq(|ds|, i requires 0 <= i < |ds| => ds[i].(cond := MakeAnd(ds[i].cond, dep)))
  }

  function RangesWithDep(rs: seq<Range>, dep: Expr): seq<Range> {
    seq(|rs|, i requires 0 <= i < |rs| => rs[i].(cond := MakeAnd(rs[i].cond, dep)))
  }

  function TargetsWithDep(ts: seq<Target>, dep: Expr): seq<Target> {
    seq(|ts|, i requires 0 <= i < |ts| => ts[i].(cond := MakeAnd(ts[i].cond, dep)))
  }

  /** What one step of _propagate_deps() makes of a child. */
  function Limited(n: Node, base: Expr, visibleIf: Expr): Node {
    var dep := MakeAnd(n.dep, base);
    if n.place.SymbolAt? || n.place.ChoiceAt? then
      Node(n.place, dep, n.visibleIf,
           (match n.prompt case None => None case Some(p) => Some(MakeAnd(p, MakeAnd(visibleIf, dep)))),
           WithDep(n.defaults, dep), RangesWithDep(n.ranges, dep),
           TargetsWithDep(n.selects, dep), TargetsWithDep(n.implies, dep))
    else
      n.(dep := dep, prompt := match n.prompt case None => None case Some(p) => Some(MakeAnd(p, dep)))
  }

  function Last(chain: seq<nat>): nat requires chain != [] { chain[|chain| - 1] }
  function Init(chain: seq<nat>): seq<nat> requires chain != [] { chain[..|chain| - 1] }

  /** The expression that the children of the last node of `chain` are and-ed with;
      the first node of a chain is the top node, which nothing limits. */
  function Base(parsed: nat -> Node, chain: seq<nat>): Expr
    requires chain != []
    decreases |chain|
  {
    var a := parsed(Last(chain));
    if a.place.ChoiceAt? then Leaf(Ch(a.place.choice))
    else if |chain| == 1 then a.dep
    else MakeAnd(a.dep, Base(parsed, Init(chain)))
  }

  function VisibleIf(parsed: nat -> Node, chain: seq<nat>): Expr
    decreases |chain|
  {
    if chain == [] then YES
    else
      var outer := VisibleIf(parsed, Init(chain));
      if parsed(Last(chain)).place.MenuAt? then MakeAnd(outer, parsed(Last(chain)).visibleIf) else outer
  }

  /** A node below `chain` once everything has been propagated. */
  function Final(parsed: nat -> Node, chain: seq<nat>, i: nat): Node
    requires chain != []
  {
    Limited(parsed(i), Base(parsed, chain), VisibleIf(parsed, chain))
  }

  // -------------------------------------------------- what propagation means

  /** All enclosing dependencies, with the mode of a choice standing in for
      everything from the choice outwards. */
  function Enclosing(e: Env, parsed: nat -> Node, chain: seq<nat>): Tri
    decreases |chain|
  {
    if chain == [] then 2
    else
      var a := parsed(Last(chain));
      if a.place.ChoiceAt? then Mode(e, a.place.choice).val
      else Min(ValueOf(e, a.dep), Enclosing(e, parsed, Init(chain)))
  }

  /** Every enclosing `visible if`. */
  function AllVisible(e: Env, parsed: nat -> Node, chain: seq<nat>): Tri
    decreases |chain|
  {
    if chain == [] then 2
    else
      var a := parsed(Last(chain));
      Min(AllVisible(e, parsed, Init(chain)), if a.place.MenuAt? then ValueOf(e, a.visibleIf) else 2)
  }

  /** Position of the innermost choice around, or -1. */
  predicate InnermostChoice(parsed: nat -> Node, chain: seq<nat>, j: int) {
    && -1 <= j < |chain| && (j >= 0 ==> parsed(chain[j]).place.ChoiceAt?)
    && forall k | j < k < |chain| :: !parsed(chain[k]).place.ChoiceAt?
  }

  /** By position: the smallest of the dependencies inside the innermost choice and of
      the mode of that choice. */
  lemma {:induction false} EnclosingByPosition(e: Env, parsed: nat -> Node, chain: seq<nat>, j: int)
    requires InnermostChoice(parsed, chain, j)
    ensures var v := Enclosing(e, parsed, chain);
            && (forall k | j < k < |chain| :: v <= ValueOf(e, parsed(chain[k]).dep))
            && (j >= 0 ==> v <= Mode(e, parsed(chain[j]).place.choice).val)
            && (|| v == 2 || (exists k :: j < k < |chain| && v == ValueOf(e, parsed(chain[k]).dep))
                || (j >= 0 && v == Mode(e, parsed(chain[j]).place.choice).val))
    decreases |chain|
  {
    hide ValueOf, Mode;
    if chain != [] && j < |chain| - 1 {
      assert forall k | 0 <= k < |chain| - 1 :: Init(chain)[k] == chain[k];
      EnclosingByPosition(e, parsed, Init(chain), j);
      var v := Enclosing(e, parsed, Init(chain));
      if k :| j < k < |Init(chain)| && v == ValueOf(e, parsed(Init(chain)[k]).dep) {
        assert v == ValueOf(e, parsed(chain[k]).dep);
      }
      assert chain[|chain| - 1] == Last(chain);
    }
  }

  /** By position: the smallest `visible if` of the menus around. */
  lemma {:induction false} VisibleByPosition(e: Env, parsed: nat -> Node, chain: seq<nat>)
    ensures var v := AllVisible(e, parsed, chain);
            && (forall k | 0 <= k < |chain| && parsed(chain[k]).place.MenuAt? ::
                  v <= ValueOf(e, parsed(chain[k]).visibleIf))
            && (v == 2 || exists k :: 0 <= k < |chain| && parsed(chain[k]).place.MenuAt?
                                      && v == ValueOf(e, parsed(chain[k]).visibleIf))
    decreases |chain|
  {
    hide ValueOf;
    if chain != [] {
      assert forall k | 0 <= k < |chain| - 1 :: Init(chain)[k] == chain[k];
      VisibleByPosition(e, parsed, Init(chain));
      var v := AllVisible(e, parsed, Init(chain));
      if k :| 0 <= k < |Init(chain)| && parsed(Init(chain)[k]).place.MenuAt?
              && v == ValueOf(e, parsed(Init(chain)[k]).visibleIf) {
        assert v == ValueOf(e, parsed(chain[k]).visibleIf);
      }
      assert chain[|chain| - 1] == Last(chain);
    }
  }

  lemma {:induction false} BaseValue(e: Env, parsed: nat -> Node, chain: seq<nat>)
    requires chain != []
    ensures ValueOf(e, Base(parsed, chain)) == Enclosing(e, parsed, chain)
    decreases |chain|
  {
    var a := parsed(Last(chain));
    hide ValueOf;
    if a.place.ChoiceAt? {
      assert ValueOf(e, Leaf(Ch(a.place.choice))) == Mode(e, a.place.choice).val by { ChoiceValue(e, a.place.choice); }
    } else if |chain| > 1 {
      BaseValue(e, parsed, Init(chain));
      MakeValues(e, a.dep, Base(parsed, Init(chain)));
    }
  }

  lemma ChoiceValue(e: Env, c: nat)
    ensures ValueOf(e, Leaf(Ch(c))) == Mode(e, c).val
  {
    hide Mode;
  }

  lemma {:induction false} VisibleIfValue(e: Env, parsed: nat -> Node, chain: seq<nat>)
    ensures ValueOf(e, VisibleIf(parsed, chain)) == AllVisible(e, parsed, chain)
    decreases |chain|
  {
    if chain != [] {
      hide ValueOf;
      VisibleIfValue(e, parsed, Init(chain));
      MakeValues(e, VisibleIf(parsed, Init(chain)), parsed(Last(chain)).visibleIf);
    }
  }

  /** Same property, condition limited by `d`. */
  predicate DefaultsLimited(e: Env, now: seq<Default>, was: seq<Default>, d: Tri) {
    && |now| == |was|
    && forall i | 0 <= i < |was| ::
         now[i].value == was[i].value && ValueOf(e, now[i].cond) == Min(ValueOf(e, was[i].cond), d)
  }

  predicate RangesLimited(e: Env, now: seq<Range>, was: seq<Range>, d: Tri) {
    && |now| == |was|
    && forall i | 0 <= i < |was| ::
         && now[i].low == was[i].low && now[i].high == was[i].high
         && ValueOf(e, now[i].cond) == Min(ValueOf(e, was[i].cond), d)
  }

  predicate TargetsLimited(e: Env, now: seq<Target>, was: seq<Target>, d: Tri) {
    && |now| == |was|
    && forall i | 0 <= i < |was| ::
         now[i].sym == was[i].sym && ValueOf(e, now[i].cond) == Min(ValueOf(e, was[i].cond), d)
  }

  lemma CondsLimited(e: Env, n: Node, dep: Expr)
    ensures DefaultsLimited(e, WithDep(n.defaults, dep), n.defaults, ValueOf(e, dep))
    ensures RangesLimited(e, RangesWithDep(n.ranges, dep), n.ranges, ValueOf(e, dep))
    ensures TargetsLimited(e, TargetsWithDep(n.selects, dep), n.selects, ValueOf(e, dep))
    ensures TargetsLimited(e, TargetsWithDep(n.implies, dep), n.implies, ValueOf(e, dep))
  {
    hide ValueOf, MakeAnd;
    forall c: Expr ensures ValueOf(e, MakeAnd(c, dep)) == Min(ValueOf(e, c), ValueOf(e, dep)) {
      MakeValues(e, c, dep);
    }
  }

  /** Under every valuation, what becomes of a symbol or choice node: its own
      dependency and each default, range, select and imply condition are limited
      by all enclosing dependencies, and prompts by every `visible if` as well. */
  lemma PropagationMeans(e: Env, parsed: nat -> Node, chain: seq<nat>, i: nat)
    requires chain != []
    ensures var was, now := parsed(i), Final(parsed, chain, i);
            var d := Min(ValueOf(e, parsed(i).dep), Enclosing(e, parsed, chain));
            && ValueOf(e, now.dep) == d && now.place == was.place && (now.prompt.Some? <==> was.prompt.Some?)
            && (was.place.SymbolAt? || was.place.ChoiceAt? ==>
                  && DefaultsLimited(e, now.defaults, was.defaults, d) && RangesLimited(e, now.ranges, was.ranges, d)
                  && TargetsLimited(e, now.selects, was.selects, d) && TargetsLimited(e, now.implies, was.implies, d)
                  && (was.prompt.Some? ==>
                        ValueOf(e, now.prompt.value) == Min(ValueOf(e, was.prompt.value),
                          Min(AllVisible(e, parsed, chain), d))))
            && (!was.place.SymbolAt? && !was.place.ChoiceAt? && was.prompt.Some? ==>
                  ValueOf(e, now.prompt.value) == Min(ValueOf(e, was.prompt.value), d))
  {
    hide ValueOf, MakeAnd, Base, VisibleIf, Enclosing, AllVisible, WithDep, RangesWithDep, TargetsWithDep;
    var was := parsed(i);
    var base, vis := Base(parsed, chain), VisibleIf(parsed, chain);
    BaseValue(e, parsed, chain);
    VisibleIfValue(e, parsed, chain);
    MakeValues(e, was.dep, base);
    var dep := MakeAnd(was.dep, base);
    CondsLimited(e, was, dep);
    MakeValues(e, vis, dep);
    if was.prompt.Some? {
      MakeValues(e, was.prompt.value, MakeAnd(vis, dep));
      MakeValues(e, was.prompt.value, dep);
    }
  }

  // -------------------------------------------- what is collected on symbols

  function Targets(n: Node, weak: bool): seq<Target> { if weak then n.implies else n.selects }

  function Selector(n: Node): Expr { if n.place.SymbolAt? then Leaf(Sym(n.place.sym)) else NO }

  /** (Weak) reverse dependency of `s` after the first `j` targets of a node. */
  function Pulled(start: Expr, puller: Expr, ts: seq<Target>, j: nat, s: nat): Expr
    requires j <= |ts|
  {
    if j == 0 then start
    else
      var before := Pulled(start, puller, ts, j - 1, s);
      if ts[j - 1].sym == s then MakeOr(before, MakeAnd(puller, ts[j - 1].cond)) else before
  }

  /** (Weak) reverse dependency of `s` once the nodes have been added in order. */
  function ReverseDep(nodes: seq<Node>, weak: bool, s: nat): Expr {
    if nodes == [] then NO
    else
      var n := nodes[|nodes| - 1];
      Pulled(ReverseDep(nodes[..|nodes| - 1], weak, s), Selector(n), Targets(n, weak), |Targets(n, weak)|, s)
  }

  function DirectDep(nodes: seq<Node>, s: nat): Expr {
    if nodes == [] then NO
    else
      var n, before := nodes[|nodes| - 1], DirectDep(nodes[..|nodes| - 1], s);
      if n.place == SymbolAt(s) then MakeOr(before, n.dep) else before
  }

  function AllDefaults(nodes: seq<Node>, s: nat): seq<Default> {
    if nodes == [] then []
    else
      var n, before := nodes[|nodes| - 1], AllDefaults(nodes[..|nodes| - 1], s);
      if n.place == SymbolAt(s) then before + n.defaults else before
  }

  function AllRanges(nodes: seq<Node>, s: nat): seq<Range> {
    if nodes == [] then []
    else
      var n, before := nodes[|nodes| - 1], AllRanges(nodes[..|nodes| - 1], s);
      if n.place == SymbolAt(s) then before + n.ranges else before
  }

  function AllPrompts(nodes: seq<Node>, s: nat): seq<Expr> {
    if nodes == [] then []
    else
      var n, before := nodes[|nodes| - 1], AllPrompts(nodes[..|nodes| - 1], s);
      if n.place == SymbolAt(s) && n.prompt.Some? then before + [n.prompt.value] else before
  }

  /** Select `j` of node `i`, or imply `j`, names symbol `s`. */
  predicate Names(nodes: seq<Node>, weak: bool, i: nat, j: nat, s: nat) {
    && i < |nodes| && nodes[i].place.SymbolAt?
    && if weak then j < |nodes[i].implies| && nodes[i].implies[j].sym == s
       else j < |nodes[i].selects| && nodes[i].selects[j].sym == s
  }

  /** What it contributes: the value of the symbol of the node, limited by the condition. */
  function Contribution(e: Env, nodes: seq<Node>, weak: bool, i: nat, j: nat, s: nat): Tri
    requires Names(nodes, weak, i, j, s)
  {
    Min(e.v(TriVal(nodes[i].place.sym)).T(),
        ValueOf(e, if weak then nodes[i].implies[j].cond else nodes[i].selects[j].cond))
  }

  lemma {:induction false} PulledIsMax(e: Env, start: Expr, puller: Expr, ts: seq<Target>, j: nat, s: nat)
    requires j <= |ts|
    ensures var v := ValueOf(e, Pulled(start, puller, ts, j, s));
            && ValueOf(e, start) <= v
            && (forall i | 0 <= i < j && ts[i].sym == s :: Min(ValueOf(e, puller), ValueOf(e, ts[i].cond)) <= v)
            && (v == ValueOf(e, start)
                || exists i :: 0 <= i < j && ts[i].sym == s && Min(ValueOf(e, puller), ValueOf(e, ts[i].cond)) == v)
  {
    hide ValueOf, MakeOr, MakeAnd;
    if j > 0 {
      PulledIsMax(e, start, puller, ts, j - 1, s);
      var before := Pulled(start, puller, ts, j - 1, s);
      MakeValues(e, before, MakeAnd(puller, ts[j - 1].cond));
      MakeValues(e, puller, ts[j - 1].cond);
    }
  }

  /** A reverse dependency is, under every valuation, the largest of what the selecting
      nodes contribute, a weak one that of the implying nodes: the selector's value
      limited by the condition. */
  lemma {:induction false} ReverseDepIsMax(e: Env, nodes: seq<Node>, weak: bool, s: nat)
    ensures var v := ValueOf(e, ReverseDep(nodes, weak, s));
            && (forall i: nat, j: nat | Names(nodes, weak, i, j, s) :: Contribution(e, nodes, weak, i, j, s) <= v)
            && (v != 0 ==>
                  exists i: nat, j: nat :: Names(nodes, weak, i, j, s) && Contribution(e, nodes, weak, i, j, s) == v)
  {
    hide Pulled;
    if nodes == [] {
      NoValue(e);
    } else {
      var m, init := |nodes| - 1, nodes[..|nodes| - 1];
      var n := nodes[m];
      ReverseDepIsMax(e, init, weak, s);
      PulledIsMax(e, ReverseDep(init, weak, s), Selector(n), Targets(n, weak), |Targets(n, weak)|, s);
      SelectorValue(e, n);
      var v, w := ValueOf(e, ReverseDep(nodes, weak, s)), ValueOf(e, ReverseDep(init, weak, s));
      hide ValueOf, Selector;
      forall i: nat, j: nat | Names(nodes, weak, i, j, s) ensures Contribution(e, nodes, weak, i, j, s) <= v {
        if i < m { assert Names(init, weak, i, j, s); }
      }
      if v != 0 {
        if v == w {
          var i: nat, j: nat :| Names(init, weak, i, j, s) && Contribution(e, init, weak, i, j, s) == w;
          assert Names(nodes, weak, i, j, s);
        } else {
          var j: nat :| j < |Targets(n, weak)| && Targets(n, weak)[j].sym == s
                        && Min(ValueOf(e, Selector(n)), ValueOf(e, Targets(n, weak)[j].cond)) == v;
          assert Names(nodes, weak, m, j, s);
        }
      }
    }
  }

  lemma SelectorValue(e: Env, n: Node)
    ensures ValueOf(e, Selector(n)) == if n.place.SymbolAt? then e.v(TriVal(n.place.sym)).T() else 0
  {
  }

  lemma NoValue(e: Env)
    ensures ValueOf(e, NO) == 0
  {
  }

  lemma {:induction false} DirectDepBounds(e: Env, nodes: seq<Node>, s: nat, i: nat)
    requires i < |nodes| && nodes[i].place == SymbolAt(s)
    ensures ValueOf(e, nodes[i].dep) <= ValueOf(e, DirectDep(nodes, s))
  {
    hide ValueOf, MakeOr;
    var init := nodes[..|nodes| - 1];
    MakeValues(e, DirectDep(init, s), nodes[|nodes| - 1].dep);
    if i < |nodes| - 1 { DirectDepBounds(e, init, s, i); }
  }

  /** The direct dependencies of a symbol are the largest of those of its nodes. */
  lemma {:induction false} DirectDepIsMax(e: Env, nodes: seq<Node>, s: nat)
    ensures var v := ValueOf(e, DirectDep(nodes, s));
            && (forall i | 0 <= i < |nodes| && nodes[i].place == SymbolAt(s) :: ValueOf(e, nodes[i].dep) <= v)
            && (v != 0 ==>
                  exists i :: 0 <= i < |nodes| && nodes[i].place == SymbolAt(s) && ValueOf(e, nodes[i].dep) == v)
  {
    hide ValueOf, MakeOr;
    forall i | 0 <= i < |nodes| && nodes[i].place == SymbolAt(s)
      ensures ValueOf(e, nodes[i].dep) <= ValueOf(e, DirectDep(nodes, s))
    {
      DirectDepBounds(e, nodes, s, i);
    }
    if nodes == [] {
      NoValue(e);
    } else {
      var init := nodes[..|nodes| - 1];
      DirectDepIsMax(e, init, s);
      MakeValues(e, DirectDep(init, s), nodes[|nodes| - 1].dep);
      if i :| 0 <= i < |init| && init[i].place == SymbolAt(s)
              && ValueOf(e, init[i].dep) == ValueOf(e, DirectDep(init, s)) {
        assert nodes[i] == init[i];
      }
    }
  }

  /** Each prompt of a symbol is limited by the dependencies of its own node. */
  predicate PromptsLimited(e: Env, nodes: seq<Node>) {
    forall i | 0 <= i < |nodes| && nodes[i].prompt.Some? ::
      ValueOf(e, nodes[i].prompt.value) <= ValueOf(e, nodes[i].dep)
  }

  lemma {:induction false} PromptsBelowDirect(e: Env, nodes: seq<Node>, whole: seq<Node>, s: nat)
    requires PromptsLimited(e, whole) && nodes <= whole
    ensures PromptVis(e, AllPrompts(nodes, s)).val <= ValueOf(e, DirectDep(whole, s))
  {
    if nodes != [] {
      var m, init := |nodes| - 1, nodes[..|nodes| - 1];
      var ps := AllPrompts(init, s);
      PromptsBelowDirect(e, init, whole, s);
      if nodes[m].place == SymbolAt(s) && nodes[m].prompt.Some? {
        assert whole[m] == nodes[m];
        DirectDepBounds(e, whole, s, m);
        assert (ps + [nodes[m].prompt.value])[..|ps|] == ps;
      }
    }
  }

  // ---------------------------------------------------------- the two passes

  /** The properties of a symbol that are collected from its nodes. */
  datatype Props = Props(direct: Expr, rev: Expr, weakRev: Expr, defaults: seq<Default>, ranges: seq<Range>)

  const NO_PROPS := Props(NO, NO, NO, [], [])

  ghost function PropsOf(nodes: seq<Node>, s: nat): Props {
    Props(DirectDep(nodes, s), ReverseDep(nodes, false, s), ReverseDep(nodes, true, s), AllDefaults(nodes, s),
          AllRanges(nodes, s))
  }

  type Nodes = map<nat, Node>

  /** Nodes that nothing has been propagated to yet. */
  ghost predicate Fresh(parsed: nat -> Node, nodes: Nodes, f: Forest) {
    match f
    case Nil => true
    case Cons(i, k, r) => i in nodes && nodes[i] == parsed(i) && Fresh(parsed, nodes, k) && Fresh(parsed, nodes, r)
  }

  /** A level that has been propagated to, over levels that have not. */
  ghost predicate Reached(parsed: nat -> Node, nodes: Nodes, f: Forest, chain: seq<nat>)
    requires chain != []
  {
    match f
    case Nil => true
    case Cons(i, k, r) =>
      && i in nodes && nodes[i] == Final(parsed, chain, i)
      && Fresh(parsed, nodes, k) && Reached(parsed, nodes, r, chain)
  }

  /** A level that is finished, with all below it. */
  ghost predicate Settled(parsed: nat -> Node, nodes: Nodes, f: Forest, chain: seq<nat>)
    requires chain != []
    decreases f
  {
    match f
    case Nil => true
    case Cons(i, k, r) =>
      && i in nodes && nodes[i] == Final(parsed, chain, i)
      && Settled(parsed, nodes, k, chain + [i]) && Settled(parsed, nodes, r, chain)
  }

  /** The symbol nodes of a tree in order, as they are after propagation. */
  ghost function SymbolNodes(parsed: nat -> Node, f: Forest, chain: seq<nat>): seq<Node>
    requires chain != []
    decreases f
  {
    match f
    case Nil => []
    case Cons(i, k, r) =>
      (if parsed(i).place.SymbolAt? then [Final(parsed, chain, i)] else SymbolNodes(parsed, k, chain + [i]))
      + SymbolNodes(parsed, r, chain)
  }

  ghost predicate Agree(m: Nodes, n: Nodes, ids: set<nat>) {
    forall i | i in ids :: (i in m <==> i in n) && (i in m ==> m[i] == n[i])
  }

  lemma {:induction false} StateFrame(parsed: nat -> Node, m: Nodes, n: Nodes, f: Forest, chain: seq<nat>)
    requires Agree(m, n, Ids(f)) && chain != []
    ensures Fresh(parsed, m, f) ==> Fresh(parsed, n, f)
    ensures Reached(parsed, m, f, chain) ==> Reached(parsed, n, f, chain)
    ensures Settled(parsed, m, f, chain) ==> Settled(parsed, n, f, chain)
    decreases f
  {
    hide Final;
    if f.Cons? {
      StateFrame(parsed, m, n, f.kids, chain + [f.id]);
      StateFrame(parsed, m, n, f.rest, chain);
    }
  }

  /** Symbols have nothing below them when they come from the parser. */
  ghost predicate BareSymbols(parsed: nat -> Node, f: Forest) {
    match f
    case Nil => true
    case Cons(i, k, r) => (parsed(i).place.SymbolAt? ==> k.Nil?) && BareSymbols(parsed, k) && BareSymbols(parsed, r)
  }

  lemma {:induction false} ReachedFrom(parsed: nat -> Node, m: Nodes, n: Nodes, f: Forest, chain: seq<nat>)
    requires Fresh(parsed, m, f) && Distinct(f) && chain != []
    requires forall j | j in Ids(f) ::
               j in m && j in n && n[j] == if j in Tops(f) then Final(parsed, chain, j) else m[j]
    ensures Reached(parsed, n, f, chain)
    decreases f
  {
    hide Final;
    if f.Cons? {
      TopsFacts(f.rest, Nil);
      StateFrame(parsed, m, n, f.kids, chain);
      ReachedFrom(parsed, m, n, f.rest, chain);
    }
  }

  lemma {:induction false} FreshHas(parsed: nat -> Node, nodes: Nodes, f: Forest, j: nat)
    requires Fresh(parsed, nodes, f) && j in Ids(f)
    ensures j in nodes && nodes[j] == parsed(j)
  {
    if j in Ids(f.kids) { FreshHas(parsed, nodes, f.kids, j); }
    if j in Ids(f.rest) { FreshHas(parsed, nodes, f.rest, j); }
  }

  function Extended(p: Props, n: Node): Props {
    p.(direct := MakeOr(p.direct, n.dep), defaults := p.defaults + n.defaults, ranges := p.ranges + n.ranges)
  }

  /** Halfway through adding `n`. */
  ghost function Partly(before: seq<Node>, n: Node, selects: nat, implies: nat, s: nat): Props
    requires selects <= |n.selects| && implies <= |n.implies|
  {
    var whole := before + [n];
    Props(DirectDep(whole, s),
          Pulled(ReverseDep(before, false, s), Selector(n), n.selects, selects, s),
          Pulled(ReverseDep(before, true, s), Selector(n), n.implies, implies, s),
          AllDefaults(whole, s), AllRanges(whole, s))
  }

  lemma PartlyEnds(before: seq<Node>, n: Node, s: nat)
    ensures Partly(before, n, 0, 0, s) ==
            if n.place == SymbolAt(s) then Extended(PropsOf(before, s), n) else PropsOf(before, s)
    ensures Partly(before, n, |n.selects|, |n.implies|, s) == PropsOf(before + [n], s)
  {
    var whole := before + [n];
    assert whole[..|whole| - 1] == before;
  }

  function At(syms: map<nat, Props>, s: nat): Props { if s in syms then syms[s] else NO_PROPS }

  /** Every symbol has exactly what the nodes added so far give it. */
  ghost predicate Collected(syms: map<nat, Props>, added: seq<Node>) {
    forall s: nat :: At(syms, s) == PropsOf(added, s)
  }

  /** What is collected on a symbol, under every valuation: its direct dependency is the
      largest of those of its nodes, its reverse dependency the largest that a select
      contributes, and its weak one the largest that an imply contributes. */
  lemma CollectedMeans(e: Env, syms: map<nat, Props>, nodes: seq<Node>, s: nat)
    requires Collected(syms, nodes)
    ensures var v := ValueOf(e, At(syms, s).direct);
            && (forall i | 0 <= i < |nodes| && nodes[i].place == SymbolAt(s) :: ValueOf(e, nodes[i].dep) <= v)
            && (v != 0 ==>
                  exists i :: 0 <= i < |nodes| && nodes[i].place == SymbolAt(s) && ValueOf(e, nodes[i].dep) == v)
    ensures var v := ValueOf(e, At(syms, s).rev);
            && (forall i: nat, j: nat | Names(nodes, false, i, j, s) :: Contribution(e, nodes, false, i, j, s) <= v)
            && (v != 0 ==>
                  exists i: nat, j: nat :: Names(nodes, false, i, j, s) && Contribution(e, nodes, false, i, j, s) == v)
    ensures var v := ValueOf(e, At(syms, s).weakRev);
            && (forall i: nat, j: nat | Names(nodes, true, i, j, s) :: Contribution(e, nodes, true, i, j, s) <= v)
            && (v != 0 ==>
                  exists i: nat, j: nat :: Names(nodes, true, i, j, s) && Contribution(e, nodes, true, i, j, s) == v)
  {
    hide ValueOf, DirectDep, ReverseDep, Names;
    DirectDepIsMax(e, nodes, s);
    ReverseDepIsMax(e, nodes, false, s);
    ReverseDepIsMax(e, nodes, true, s);
  }

  /** Defaults and ranges come in the order of the nodes, and within a node as written. */
  lemma {:induction false} PropertiesByPosition(nodes: seq<Node>, s: nat, i: nat)
    requires i < |nodes| && nodes[i].place == SymbolAt(s)
    ensures AllDefaults(nodes[..i], s) + nodes[i].defaults <= AllDefaults(nodes, s)
    ensures AllRanges(nodes[..i], s) + nodes[i].ranges <= AllRanges(nodes, s)
  {
    var init := nodes[..|nodes| - 1];
    if i < |nodes| - 1 {
      PropertiesByPosition(init, s, i);
      assert init[..i] == nodes[..i];
    }
  }

  ghost predicate Adding(syms: map<nat, Props>, before: seq<Node>, n: Node, selects: nat, implies: nat)
    requires selects <= |n.selects| && implies <= |n.implies|
  {
    forall s: nat :: At(syms, s) == Partly(before, n, selects, implies, s)
  }

  function Selecting(syms: map<nat, Props>, sym: nat, t: Target): map<nat, Props> {
    var q := At(syms, t.sym);
    syms[t.sym := q.(rev := MakeOr(q.rev, MakeAnd(Leaf(Sym(sym)), t.cond)))]
  }

  function Implying(syms: map<nat, Props>, sym: nat, t: Target): map<nat, Props> {
    var q := At(syms, t.sym);
    syms[t.sym := q.(weakRev := MakeOr(q.weakRev, MakeAnd(Leaf(Sym(sym)), t.cond)))]
  }

  lemma StartAdding(syms: map<nat, Props>, before: seq<Node>, n: Node)
    requires n.place.SymbolAt? && Collected(syms, before)
    ensures Adding(syms[n.place.sym := Extended(At(syms, n.place.sym), n)], before, n, 0, 0)
  {
    hide PropsOf;
    forall s: nat
      ensures At(syms[n.place.sym := Extended(At(syms, n.place.sym), n)], s) == Partly(before, n, 0, 0, s)
    {
      PartlyEnds(before, n, s);
    }
  }

  lemma SelectAdded(syms: map<nat, Props>, before: seq<Node>, n: Node, j: nat)
    requires n.place.SymbolAt? && j < |n.selects| && Adding(syms, before, n, j, 0)
    ensures Adding(Selecting(syms, n.place.sym, n.selects[j]), before, n, j + 1, 0)
  {
    forall s: nat ensures At(Selecting(syms, n.place.sym, n.selects[j]), s) == Partly(before, n, j + 1, 0, s) {
      assert At(syms, s) == Partly(before, n, j, 0, s);
    }
  }

  lemma ImplyAdded(syms: map<nat, Props>, before: seq<Node>, n: Node, j: nat)
    requires n.place.SymbolAt? && j < |n.implies| && Adding(syms, before, n, |n.selects|, j)
    ensures Adding(Implying(syms, n.place.sym, n.implies[j]), before, n, |n.selects|, j + 1)
  {
    forall s: nat ensures At(Implying(syms, n.place.sym, n.implies[j]), s) == Partly(before, n, |n.selects|, j + 1, s) {
      assert At(syms, s) == Partly(before, n, |n.selects|, j, s);
    }
  }

  lemma DoneAdding(syms: map<nat, Props>, before: seq<Node>, n: Node)
    requires Adding(syms, before, n, |n.selects|, |n.implies|)
    ensures Collected(syms, before + [n])
  {
    hide PropsOf;
    forall s: nat ensures At(syms, s) == PropsOf(before + [n], s) { PartlyEnds(before, n, s); }
  }

  /** What _finalize_node() hands to the children of `i`. */
  lemma HandedDown(parsed: nat -> Node, chain: seq<nat>, i: nat, n: Node)
    requires n == if chain == [] then parsed(i) else Final(parsed, chain, i)
    ensures Last(chain + [i]) == i && n.place == parsed(i).place && n.visibleIf == parsed(i).visibleIf
    ensures !parsed(i).place.ChoiceAt? ==> n.dep == Base(parsed, chain + [i])
    ensures VisibleIf(parsed, chain + [i]) ==
            if n.place.MenuAt? then MakeAnd(VisibleIf(parsed, chain), n.visibleIf) else VisibleIf(parsed, chain)
  {
    hide MakeAnd, WithDep, RangesWithDep, TargetsWithDep;
    assert Init(chain + [i]) == chain;
  }

  lemma LevelStarts(parsed: nat -> Node, nodes: Nodes, f: Forest, chain: seq<nat>)
    requires chain != [] && f.Cons? && Reached(parsed, nodes, f, chain) && Distinct(f) && BareSymbols(parsed, f)
    ensures f.id in nodes && nodes[f.id] == Final(parsed, chain, f.id) && nodes[f.id].place == parsed(f.id).place
    ensures f.id !in Ids(f.kids) && Distinct(f.kids) && Fresh(parsed, nodes, f.kids) && BareSymbols(parsed, f.kids)
    ensures parsed(f.id).place.SymbolAt? ==> f.kids.Nil?
    ensures Distinct(f.rest) && BareSymbols(parsed, f.rest)
    ensures forall before: seq<Node>, own: seq<Node> |
              own == (if parsed(f.id).place.SymbolAt? then [nodes[f.id]]
                      else SymbolNodes(parsed, f.kids, chain + [f.id])) ::
              before + own + SymbolNodes(parsed, f.rest, chain) == before + SymbolNodes(parsed, f, chain)
  {
    assert nodes[f.id].place == parsed(f.id).place;
    var first := if parsed(f.id).place.SymbolAt? then [nodes[f.id]] else SymbolNodes(parsed, f.kids, chain + [f.id]);
    var rest := SymbolNodes(parsed, f.rest, chain);
    assert SymbolNodes(parsed, f, chain) == first + rest;
    hide SymbolNodes, Final, Reached, Fresh;
    forall before: seq<Node> ensures before + first + rest == before + (first + rest) {}
  }

  /** The first node of a level has been finished, so that the rest can follow. */
  lemma LevelGoesOn(parsed: nat -> Node, m: Nodes, n: Nodes, f: Forest, chain: seq<nat>)
    requires chain != [] && f.Cons? && Reached(parsed, m, f, chain) && Distinct(f) && n.Keys == m.Keys
    requires Agree(m, n, m.Keys - Ids(f.kids))
    ensures Reached(parsed, n, f.rest, chain) && f.id in n && n[f.id] == m[f.id]
  {
    hide Final;
    assert Agree(m, n, Ids(f.rest)) by {
      forall i | i in Ids(f.rest) ensures (i in m <==> i in n) && (i in m ==> m[i] == n[i]) {}
    }
    StateFrame(parsed, m, n, f.rest, chain);
  }

  lemma LevelEnds(parsed: nat -> Node, was: Nodes, m: Nodes, n: Nodes, f: Forest, chain: seq<nat>)
    requires chain != [] && f.Cons? && Distinct(f) && was.Keys == m.Keys == n.Keys && f.id in m
    requires m[f.id] == Final(parsed, chain, f.id) && Settled(parsed, m, f.kids, chain + [f.id])
    requires Settled(parsed, n, f.rest, chain)
    requires Agree(was, m, was.Keys - Ids(f.kids)) && Agree(m, n, m.Keys - Ids(f.rest))
    ensures Settled(parsed, n, f, chain) && Agree(was, n, was.Keys - Ids(f))
  {
    hide Final;
    assert Agree(m, n, Ids(f.kids)) by {
      forall i | i in Ids(f.kids) ensures (i in m <==> i in n) && (i in m ==> m[i] == n[i]) {}
    }
    StateFrame(parsed, m, n, f.kids, chain + [f.id]);
  }

  class Finalizer {
    const parsed: nat -> Node
    var nodes: Nodes
    var syms: map<nat, Props>
    /** The symbol nodes added so far. */
    ghost var added: seq<Node>

    /** _propagate_deps() */
    method PropagateDeps(i: nat, kids: Forest, visibleIf: Expr, ghost chain: seq<nat>)
      requires i in nodes && chain != [] && Last(chain) == i && nodes[i].place == parsed(i).place
      requires !parsed(i).place.ChoiceAt? ==> nodes[i].dep == Base(parsed, chain)
      requires visibleIf == VisibleIf(parsed, chain) && Distinct(kids) && Fresh(parsed, nodes, kids)
      modifies this`nodes
      ensures Reached(parsed, nodes, kids, chain)
      ensures Agree(old(nodes), nodes, old(nodes).Keys - Ids(kids)) && nodes.Keys == old(nodes).Keys
    {
      hide Limited, VisibleIf;
      forall j | j in Ids(kids) ensures j in nodes && nodes[j] == parsed(j) { FreshHas(parsed, nodes, kids, j); }
      TopsFacts(kids, Nil);
      var base := if nodes[i].place.ChoiceAt? then Leaf(Ch(nodes[i].place.choice)) else nodes[i].dep;
      assert base == Base(parsed, chain);
      hide Base, Fresh, Reached;
      var cur := kids;
      ghost var done := {};
      while cur.Cons?
        invariant done + Tops(cur) == Tops(kids) && done !! Tops(cur) && Distinct(cur)
        invariant nodes.Keys == old(nodes).Keys
        invariant forall j | j in nodes ::
                    nodes[j] == if j in done then Limited(old(nodes)[j], base, visibleIf) else old(nodes)[j]
        decreases cur
      {
        TopsFacts(cur.rest, Nil);
        nodes := nodes[cur.id := Limited(nodes[cur.id], base, visibleIf)];
        done := done + {cur.id};
        cur := cur.rest;
      }
      ReachedFrom(parsed, old(nodes), nodes, kids, chain);
    }

    /** _add_props_to_sym() */
    method AddPropsToSym(i: nat)
      requires i in nodes && nodes[i].place.SymbolAt? && Collected(syms, added)
      modifies this`syms, this`added
      ensures Collected(syms, added) && added == old(added) + [nodes[i]]
    {
      hide Adding, Collected;
      var n := nodes[i];
      var sym := n.place.sym;
      StartAdding(syms, added, n);
      syms := syms[sym := Extended(At(syms, sym), n)];
      for j := 0 to |n.selects|
        invariant Adding(syms, added, n, j, 0) && added == old(added)
      {
        SelectAdded(syms, added, n, j);
        syms := Selecting(syms, sym, n.selects[j]);
      }
      for j := 0 to |n.implies|
        invariant Adding(syms, added, n, |n.selects|, j) && added == old(added)
      {
        ImplyAdded(syms, added, n, j);
        syms := Implying(syms, sym, n.implies[j]);
      }
      DoneAdding(syms, added, n);
      added := added + [n];
    }

    /** _finalize_node(), as far as properties go. The nodes that a symbol takes
        into an implicit menu are finalised in their order in the level, so that
        nodes are added in the order of the files either way. */
    method FinalizeNode(i: nat, kids: Forest, visibleIf: Expr, ghost chain: seq<nat>)
      requires i in nodes && nodes[i] == if chain == [] then parsed(i) else Final(parsed, chain, i)
      requires i !in Ids(kids) && Distinct(kids) && Fresh(parsed, nodes, kids) && BareSymbols(parsed, kids)
      requires (parsed(i).place.SymbolAt? ==> kids.Nil?) && visibleIf == VisibleIf(parsed, chain)
               && Collected(syms, added)
      modifies this
      ensures Settled(parsed, nodes, kids, chain + [i]) && Collected(syms, added)
      ensures added == old(added) + if parsed(i).place.SymbolAt? then [old(nodes[i])]
                                    else SymbolNodes(parsed, kids, chain + [i])
      ensures Agree(old(nodes), nodes, old(nodes).Keys - Ids(kids)) && nodes.Keys == old(nodes).Keys
      decreases kids, 1
    {
      HandedDown(parsed, chain, i, nodes[i]);
      hide Collected, Final, Base, VisibleIf, Fresh, BareSymbols, Reached;
      if nodes[i].place.SymbolAt? {
        AddPropsToSym(i);
      } else {
        var visible := if nodes[i].place.MenuAt? then MakeAnd(visibleIf, nodes[i].visibleIf) else visibleIf;
        PropagateDeps(i, kids, visible, chain + [i]);
        FinalizeLevel(kids, visible, chain + [i]);
      }
    }

    method FinalizeLevel(level: Forest, visibleIf: Expr, ghost chain: seq<nat>)
      requires chain != [] && Reached(parsed, nodes, level, chain) && Distinct(level) && BareSymbols(parsed, level)
      requires visibleIf == VisibleIf(parsed, chain) && Collected(syms, added)
      modifies this
      ensures Settled(parsed, nodes, level, chain) && Collected(syms, added)
      ensures added == old(added) + SymbolNodes(parsed, level, chain)
      ensures Agree(old(nodes), nodes, old(nodes).Keys - Ids(level)) && nodes.Keys == old(nodes).Keys
      decreases level, 0
    {
      if level.Cons? {
        LevelStarts(parsed, nodes, level, chain);
        hide Final, Collected, Reached, Settled, Fresh, BareSymbols, Distinct, Ids, Agree, SymbolNodes, VisibleIf;
        FinalizeNode(level.id, level.kids, visibleIf, chain);
        ghost var mid := nodes;
        LevelGoesOn(parsed, old(nodes), nodes, level, chain);
        FinalizeLevel(level.rest, visibleIf, chain);
        LevelEnds(parsed, old(nodes), mid, nodes, level, chain);
      }
    }
  }
}
