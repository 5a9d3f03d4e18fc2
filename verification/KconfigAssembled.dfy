/** What propagation establishes for evaluation: facts that the choice and .config
    results need, and that unmet dependencies keep a symbol at n, hold of every
    configuration that it produces. */
module KconfigAssembled {
  import opened KconfigModel
  import opened KconfigReference
  import opened KconfigChoice
  import opened KconfigLaws
  import opened KconfigRoundTrip
  import opened KconfigPropagation
  import opened MenuTree

  /** The symbols of `k` have the properties collected from `nodes`. */
  ghost predicate Assembled(k: Config, nodes: seq<Node>) {
    forall s | 0 <= s < |k.syms| ::
      k.syms[s].prompts == AllPrompts(nodes, s) && k.syms[s].directDep == DirectDep(nodes, s)
  }

  lemma {:induction false} NodesLimited(e: Env, parsed: nat -> Node, f: Forest, chain: seq<nat>)
    requires chain != []
    ensures PromptsLimited(e, SymbolNodes(parsed, f, chain))
    decreases f
  {
    hide ValueOf, MakeAnd, Base, VisibleIf;
    if f.Cons? {
      NodesLimited(e, parsed, f.kids, chain + [f.id]);
      NodesLimited(e, parsed, f.rest, chain);
      var n := parsed(f.id);
      if n.place.SymbolAt? && n.prompt.Some? {
        var dep, vis := MakeAnd(n.dep, Base(parsed, chain)), VisibleIf(parsed, chain);
        MakeValues(e, n.prompt.value, MakeAnd(vis, dep));
        MakeValues(e, vis, dep);
      }
    }
  }

  /** No prompt is visible while the direct dependencies are n. */
  lemma PromptsImplyDirectDep(k: Config, parsed: nat -> Node, top: nat, kids: Forest)
    requires Assembled(k, SymbolNodes(parsed, kids, [top]))
    ensures PromptsImplyDirect(k)
  {
    hide SymbolNodes, PromptVis, AllPrompts, DirectDep;
    var nodes := SymbolNodes(parsed, kids, [top]);
    forall e: Env, s: nat | e.k == k && PromptVis(e, k.S(s).prompts).val != 0
      ensures Eval(e, k.S(s).directDep).val != 0
    {
      if s < |k.syms| {
        NodesLimited(e, parsed, kids, [top]);
        PromptsBelowDirect(e, nodes, nodes, s);
      } else {
        NoPrompts(e);
      }
    }
  }

  lemma NoPrompts(e: Env)
    ensures PromptVis(e, []).val == 0
  {
  }

  // ------------------------------------------------------- unmet dependencies

  predicate DefaultsLimited(e: Env, ds: seq<Default>, dep: Expr) {
    forall j | 0 <= j < |ds| :: ValueOf(e, ds[j].cond) <= ValueOf(e, dep)
  }

  ghost predicate AllDefaultsLimited(e: Env, nodes: seq<Node>) {
    forall i | 0 <= i < |nodes| :: DefaultsLimited(e, nodes[i].defaults, nodes[i].dep)
  }

  lemma WithDepLimited(e: Env, ds: seq<Default>, dep: Expr)
    ensures DefaultsLimited(e, WithDep(ds, dep), dep)
  {
    hide ValueOf, MakeAnd;
    forall j | 0 <= j < |ds| ensures ValueOf(e, WithDep(ds, dep)[j].cond) <= ValueOf(e, dep) {
      MakeValues(e, ds[j].cond, dep);
    }
  }

  lemma {:induction false} NodesDefaultsLimited(e: Env, parsed: nat -> Node, f: Forest, chain: seq<nat>)
    requires chain != []
    ensures AllDefaultsLimited(e, SymbolNodes(parsed, f, chain))
    decreases f
  {
    hide ValueOf, MakeAnd, Base, VisibleIf, WithDep, DefaultsLimited;
    if f.Cons? {
      NodesDefaultsLimited(e, parsed, f.kids, chain + [f.id]);
      NodesDefaultsLimited(e, parsed, f.rest, chain);
      WithDepLimited(e, parsed(f.id).defaults, MakeAnd(parsed(f.id).dep, Base(parsed, chain)));
    }
  }

  lemma {:induction false} DefaultsBelowDirect(e: Env, nodes: seq<Node>, whole: seq<Node>, s: nat)
    requires AllDefaultsLimited(e, whole) && nodes <= whole
    ensures DefaultsLimited(e, AllDefaults(nodes, s), DirectDep(whole, s))
  {
    hide ValueOf;
    if nodes != [] {
      var m, init := |nodes| - 1, nodes[..|nodes| - 1];
      DefaultsBelowDirect(e, init, whole, s);
      if nodes[m].place == SymbolAt(s) {
        assert whole[m] == nodes[m];
        DirectDepBounds(e, whole, s, m);
        assert DefaultsLimited(e, nodes[m].defaults, nodes[m].dep);
      }
    }
  }

  lemma {:induction false} NoneApplies(e: Env, ds: seq<Default>, dep: Expr)
    requires DefaultsLimited(e, ds, dep) && ValueOf(e, dep) == 0
    ensures FirstDefault(e, ds).val.None?
  {
    if ds != [] { NoneApplies(e, ds[1..], dep); }
  }

  /** A symbol outside choices whose dependencies are n is n, whatever the user has
      assigned and whatever its defaults and implies are, unless it is selected. */
  lemma UnmetIsN(e: Env, parsed: nat -> Node, top: nat, kids: Forest, s: nat)
    requires Assembled(e.k, SymbolNodes(parsed, kids, [top])) && Solves(e)
    requires s < |e.k.syms| && e.k.S(s).origType.Logical() && e.k.S(s).choice.None?
    requires e.k.S(s).defaults == AllDefaults(SymbolNodes(parsed, kids, [top]), s)
    requires Eval(e, e.k.S(s).directDep).val == 0 && Eval(e, e.k.S(s).revDep).val == 0
    ensures TriOf(e, s) == 0
  {
    hide SymbolNodes, AllPrompts, AllDefaults, DirectDep, Solves, PromptVis, FirstDefault, DefaultsLimited;
    var nodes := SymbolNodes(parsed, kids, [top]);
    NodesLimited(e, parsed, kids, [top]);
    PromptsBelowDirect(e, nodes, nodes, s);
    VisibilityLaw(e, s);
    NodesDefaultsLimited(e, parsed, kids, [top]);
    DefaultsBelowDirect(e, nodes, nodes, s);
    NoneApplies(e, e.k.S(s).defaults, e.k.S(s).directDep);
    DefaultsCount(e, s);
  }

  // ------------------------------------------------------------ inside a choice

  /** Inside choice `c`, with nothing but `if`s in between. */
  predicate Inside(parsed: nat -> Node, chain: seq<nat>, c: nat)
    decreases |chain|
  {
    && chain != []
    && (|| parsed(Last(chain)).place == ChoiceAt(c)
        || (parsed(Last(chain)).place.OtherAt? && |chain| > 1 && Inside(parsed, Init(chain), c)))
  }

  lemma ConjunctAnd(a: Expr, b: Expr, i: Item)
    requires Conjunct(b, i) && i.Ch?
    ensures Conjunct(MakeAnd(a, b), i)
  {
  }

  lemma {:induction false} BaseNamesChoice(parsed: nat -> Node, chain: seq<nat>, c: nat)
    requires Inside(parsed, chain, c)
    ensures Conjunct(Base(parsed, chain), Ch(c))
    decreases |chain|
  {
    if !parsed(Last(chain)).place.ChoiceAt? {
      BaseNamesChoice(parsed, Init(chain), c);
      ConjunctAnd(parsed(Last(chain)).dep, Base(parsed, Init(chain)), Ch(c));
    }
  }

  /** Every prompt of a choice symbol inside its choice has the choice as a conjunct. */
  lemma PromptNamesChoice(parsed: nat -> Node, chain: seq<nat>, i: nat, c: nat)
    requires Inside(parsed, chain, c) && parsed(i).place.SymbolAt? && parsed(i).prompt.Some?
    ensures Conjunct(Final(parsed, chain, i).prompt.value, Ch(c))
  {
    hide MakeAnd, Conjunct;
    var base, vis := Base(parsed, chain), VisibleIf(parsed, chain);
    BaseNamesChoice(parsed, chain, c);
    ConjunctAnd(parsed(i).dep, base, Ch(c));
    ConjunctAnd(vis, MakeAnd(parsed(i).dep, base), Ch(c));
    ConjunctAnd(parsed(i).prompt.value, MakeAnd(vis, MakeAnd(parsed(i).dep, base)), Ch(c));
  }
}
