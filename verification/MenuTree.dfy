/** The menu tree as a value: what finalisation does to it (implicit submenus,
    flattening, removal of `if` nodes), and what it leaves alone. */
module MenuTree {

  /** Menus and comments always have a prompt, `if` nodes never do. */
  datatype Kind = Symbol(prompt: bool) | Choice(prompt: bool) | Menu | Comment | If

  /** What the nodes are, and for which pairs of them the second has an automatic
      menu dependency on the first. Each pair is asked about at most once. */
  datatype Info = Info(kind: nat -> Kind, auto: (nat, nat) -> bool) {
    /** Nodes whose children are moved up behind them. */
    predicate Lifts(i: nat) { kind(i).If? || kind(i) == Symbol(false) }
  }

  /** A node with the level below it and the nodes that follow it. */
  datatype Forest = Nil | Cons(id: nat, kids: Forest, rest: Forest)

  function Size(f: Forest): nat {
    match f case Nil => 0 case Cons(_, k, r) => 1 + Size(k) + Size(r)
  }

  function Append(f: Forest, g: Forest): Forest {
    match f case Nil => g case Cons(i, k, r) => Cons(i, k, Append(r, g))
  }

  function Preorder(f: Forest): seq<nat> {
    match f case Nil => [] case Cons(i, k, r) => [i] + Preorder(k) + Preorder(r)
  }

  lemma {:induction false} AppendFacts(f: Forest, g: Forest)
    ensures Size(Append(f, g)) == Size(f) + Size(g)
    ensures Append(f, Nil) == f
  {
    if f.Cons? { AppendFacts(f.rest, g); }
  }

  lemma {:induction false} AppendAssociates(f: Forest, g: Forest, h: Forest)
    ensures Append(Append(f, g), h) == Append(f, Append(g, h))
  {
    if f.Cons? { AppendAssociates(f.rest, g, h); }
  }

  // ------------------------------------------------------------ finalisation

  function Flattened(n: Info, f: Forest): Forest
    decreases Size(f)
  {
    match f
    case Nil => Nil
    case Cons(i, k, r) =>
      AppendFacts(k, r);
      if k.Cons? && n.Lifts(i) then Cons(i, Nil, Flattened(n, Append(k, r)))
      else Cons(i, k, Flattened(n, r))
  }

  function WithoutIfs(n: Info, f: Forest): Forest {
    match f
    case Nil => Nil
    case Cons(i, k, r) => if n.kind(i).If? then WithoutIfs(n, r) else Cons(i, k, WithoutIfs(n, r))
  }

  function Level(n: Info, f: Forest): Forest { WithoutIfs(n, Flattened(n, f)) }

  /** Finalises the first node. A symbol takes the nodes behind it that depend on
      it into an implicit menu; what then still follows is not yet finalised. */
  function Finalized(n: Info, f: Forest): (r: Forest)
    requires f.Cons?
    ensures r.Cons? && r.id == f.id && Size(r.rest) <= Size(f.rest)
    decreases Size(f), 0
  {
    if n.kind(f.id).Symbol? then
      var a := Absorbed(n, f.id, f.rest);
      Cons(f.id, Level(n, if a.0.Nil? then f.kids else a.0), a.1)
    else Cons(f.id, Level(n, AllFinalized(n, f.kids)), f.rest)
  }

  /** The nodes of the implicit menu of `i`, and those behind it. */
  function Absorbed(n: Info, i: nat, f: Forest): (r: (Forest, Forest))
    ensures Size(r.1) <= Size(f)
    decreases Size(f), 1
  {
    if f.Nil? || !n.auto(i, f.id) then (Nil, f)
    else
      var t := Finalized(n, f);
      var a := Absorbed(n, i, t.rest);
      (Cons(t.id, t.kids, a.0), a.1)
  }

  function AllFinalized(n: Info, f: Forest): Forest
    decreases Size(f), 1
  {
    if f.Nil? then Nil
    else
      var t := Finalized(n, f);
      Cons(t.id, t.kids, AllFinalized(n, t.rest))
  }

  /** As parsed: only choices, menus and ifs have anything below them. */
  predicate Parsed(n: Info, f: Forest) {
    match f
    case Nil => true
    case Cons(i, k, r) => (n.kind(i).Symbol? ==> k.Nil?) && Parsed(n, k) && Parsed(n, r)
  }

  // -------------------------------------------------------- what is preserved

  /** The preorder without the `if` nodes. */
  function Kept(n: Info, f: Forest): seq<nat> {
    match f
    case Nil => []
    case Cons(i, k, r) => (if n.kind(i).If? then [] else [i]) + Kept(n, k) + Kept(n, r)
  }

  predicate Clean(n: Info, f: Forest) {
    match f case Nil => true case Cons(i, k, r) => !n.kind(i).If? && Clean(n, k) && Clean(n, r)
  }

  predicate CleanBelow(n: Info, f: Forest) {
    match f case Nil => true case Cons(_, k, r) => Clean(n, k) && CleanBelow(n, r)
  }

  predicate EmptyIfs(n: Info, f: Forest) {
    match f case Nil => true case Cons(i, k, r) => (n.kind(i).If? ==> k.Nil?) && EmptyIfs(n, r)
  }

  lemma {:induction false} CleanKept(n: Info, f: Forest)
    requires Clean(n, f)
    ensures Kept(n, f) == Preorder(f) && CleanBelow(n, f)
  {
    if f.Cons? { CleanKept(n, f.kids); CleanKept(n, f.rest); }
  }

  lemma {:induction false} KeptAppend(n: Info, f: Forest, g: Forest)
    ensures Kept(n, Append(f, g)) == Kept(n, f) + Kept(n, g)
    ensures CleanBelow(n, f) && CleanBelow(n, g) ==> CleanBelow(n, Append(f, g))
  {
    if f.Cons? { KeptAppend(n, f.rest, g); }
  }

  lemma {:induction false} FlattenedKeeps(n: Info, f: Forest)
    ensures Kept(n, Flattened(n, f)) == Kept(n, f)
    ensures EmptyIfs(n, Flattened(n, f))
    ensures CleanBelow(n, f) ==> CleanBelow(n, Flattened(n, f))
    decreases Size(f)
  {
    if f.Cons? {
      AppendFacts(f.kids, f.rest);
      KeptAppend(n, f.kids, f.rest);
      if f.kids.Cons? && n.Lifts(f.id) {
        if CleanBelow(n, f) { CleanKept(n, f.kids); }
        FlattenedKeeps(n, Append(f.kids, f.rest));
      } else {
        FlattenedKeeps(n, f.rest);
      }
    }
  }

  lemma {:induction false} WithoutIfsKeeps(n: Info, f: Forest)
    requires EmptyIfs(n, f)
    ensures Kept(n, WithoutIfs(n, f)) == Kept(n, f)
    ensures CleanBelow(n, f) ==> Clean(n, WithoutIfs(n, f))
  {
    if f.Cons? { WithoutIfsKeeps(n, f.rest); }
  }

  lemma LevelKeeps(n: Info, f: Forest)
    ensures Kept(n, Level(n, f)) == Kept(n, f)
    ensures CleanBelow(n, f) ==> Clean(n, Level(n, f))
  {
    FlattenedKeeps(n, f);
    WithoutIfsKeeps(n, Flattened(n, f));
  }

  lemma KeptLeaf(n: Info, i: nat, rest: Forest, kids: Forest, more: Forest)
    requires Kept(n, rest) == Kept(n, kids) + Kept(n, more)
    ensures Kept(n, Cons(i, kids, more)) == Kept(n, Cons(i, Nil, rest))
  {
  }

  lemma {:induction false} FinalizedKeeps(n: Info, f: Forest)
    requires f.Cons? && Parsed(n, f)
    ensures Kept(n, Finalized(n, f)) == Kept(n, f)
    ensures Clean(n, Finalized(n, f).kids) && Parsed(n, Finalized(n, f).rest)
    decreases Size(f), 0
  {
    if n.kind(f.id).Symbol? {
      var a := Absorbed(n, f.id, f.rest);
      AbsorbedKeeps(n, f.id, f.rest);
      LevelKeeps(n, a.0);
      KeptAppend(n, a.0, a.1);
      KeptLeaf(n, f.id, f.rest, Level(n, a.0), a.1);
      hide Kept, Level, Absorbed, Clean;
    } else {
      AllFinalizedKeeps(n, f.kids);
      LevelKeeps(n, AllFinalized(n, f.kids));
    }
  }

  lemma {:induction false} AbsorbedKeeps(n: Info, i: nat, f: Forest)
    requires Parsed(n, f)
    ensures var a := Absorbed(n, i, f);
            Kept(n, Append(a.0, a.1)) == Kept(n, f) && CleanBelow(n, a.0) && Parsed(n, a.1)
    decreases Size(f), 1
  {
    if f.Cons? && n.auto(i, f.id) {
      FinalizedKeeps(n, f);
      AbsorbedKeeps(n, i, Finalized(n, f).rest);
    }
  }

  lemma {:induction false} AllFinalizedKeeps(n: Info, f: Forest)
    requires Parsed(n, f)
    ensures Kept(n, AllFinalized(n, f)) == Kept(n, f) && CleanBelow(n, AllFinalized(n, f))
    decreases Size(f), 1
  {
    if f.Cons? {
      FinalizedKeeps(n, f);
      AllFinalizedKeeps(n, Finalized(n, f).rest);
    }
  }

  function Select(s: seq<nat>, p: nat -> bool): seq<nat> {
    if s == [] then [] else (if p(s[0]) then [s[0]] else []) + Select(s[1..], p)
  }

  lemma {:induction false} SelectConcat(s: seq<nat>, t: seq<nat>, p: nat -> bool)
    ensures Select(s + t, p) == Select(s, p) + Select(t, p)
  {
    if s == [] {
      assert s + t == t;
    } else {
      SelectConcat(s[1..], t, p);
      assert (s + t)[1..] == s[1..] + t;
    }
  }

  lemma {:induction false} SelectKept(n: Info, f: Forest, p: nat -> bool)
    requires forall i: nat :: n.kind(i).If? ==> !p(i)
    ensures Select(Kept(n, f), p) == Select(Preorder(f), p)
  {
    if f.Cons? {
      SelectKept(n, f.kids, p);
      SelectKept(n, f.rest, p);
      var own := if n.kind(f.id).If? then [] else [f.id];
      SelectConcat(own + Kept(n, f.kids), Kept(n, f.rest), p);
      SelectConcat(own, Kept(n, f.kids), p);
      SelectConcat([f.id] + Preorder(f.kids), Preorder(f.rest), p);
      SelectConcat([f.id], Preorder(f.kids), p);
      assert Select([f.id], p) == Select(own, p);
    }
  }

  /** Finalisation, from the top node down, removes exactly the `if` nodes and
      keeps all others in order; in particular the symbol nodes. */
  lemma FinalisationKeepsOrder(n: Info, top: Forest)
    requires top.Cons? && Parsed(n, top) && n.kind(top.id).Menu?
    ensures var r := Finalized(n, top);
            && Clean(n, r.kids)
            && Preorder(r.kids) == Kept(n, top.kids)
            && (forall p: nat -> bool | forall i: nat :: n.kind(i).If? ==> !p(i) ::
                  Select(Preorder(r.kids), p) == Select(Preorder(top.kids), p))
  {
    var r := Finalized(n, top);
    FinalizedKeeps(n, top);
    AllFinalizedKeeps(n, top.kids);
    LevelKeeps(n, AllFinalized(n, top.kids));
    CleanKept(n, r.kids);
    forall p: nat -> bool | forall i: nat :: n.kind(i).If? ==> !p(i)
      ensures Select(Preorder(r.kids), p) == Select(Preorder(top.kids), p)
    {
      SelectKept(n, top.kids, p);
    }
  }
}
