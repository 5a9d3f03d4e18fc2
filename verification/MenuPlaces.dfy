/** Where finalisation puts every node: a walk over the parsed tree in file order, with
    a stack of the symbols whose implicit menus are still open, predicts the parent of
    each node in the finished tree. */
module MenuPlaces {
  import opened Wrappers
  import opened MenuTree

  type Placing = seq<(nat, Option<nat>)>

  /** The nodes in order, each with its parent. */
  function Tagged(f: Forest, parent: Option<nat>): Placing {
    match f
    case Nil => []
    case Cons(i, k, r) => [(i, parent)] + Tagged(k, Some(i)) + Tagged(r, parent)
  }

  // -------------------------------------------------------------- the prediction

  /** An implicit menu is closed by the first node that does not depend on its symbol. */
  function StillOpen(n: Info, open: seq<nat>, i: nat): seq<nat> {
    if open == [] || n.auto(open[|open| - 1], i) then open else StillOpen(n, open[..|open| - 1], i)
  }

  /** The innermost open symbol that has a prompt; symbols without one hold no menu. */
  function Holder(n: Info, open: seq<nat>, outside: Option<nat>): Option<nat> {
    if open == [] then outside
    else if n.kind(open[|open| - 1]) == Symbol(true) then Some(open[|open| - 1])
    else Holder(n, open[..|open| - 1], outside)
  }

  /** `if` nodes disappear, and what is below them goes where they would have gone. */
  function Placed(n: Info, f: Forest, outside: Option<nat>, open: seq<nat>): Placing {
    match f
    case Nil => []
    case Cons(i, k, r) =>
      var now := StillOpen(n, open, i);
      var parent := Holder(n, now, outside);
      (if n.kind(i).If? then [] else [(i, parent)]) +
      Placed(n, k, if n.kind(i).If? then parent else Some(i), []) +
      Placed(n, r, outside, if n.kind(i).Symbol? then now + [i] else now)
  }

  // ------------------------------------------------------------ lifting on the way

  /** The nodes with their nearest ancestors that stay above what they hold. */
  function Lifted(n: Info, f: Forest, parent: Option<nat>): Placing {
    match f
    case Nil => []
    case Cons(i, k, r) =>
      (if n.kind(i).If? then [] else [(i, parent)]) +
      Lifted(n, k, if n.Lifts(i) then parent else Some(i)) + Lifted(n, r, parent)
  }

  lemma Regroup<T>(a: seq<T>, b: seq<T>, c: seq<T>)
    ensures a + b + c == a + (b + c)
  {
  }

  lemma {:induction false} LiftedAppend(n: Info, f: Forest, g: Forest, p: Option<nat>)
    ensures Lifted(n, Append(f, g), p) == Lifted(n, f, p) + Lifted(n, g, p)
  {
    if f.Cons? { LiftedAppend(n, f.rest, g, p); }
  }

  lemma {:induction false} FlattenedLifts(n: Info, f: Forest, p: Option<nat>)
    ensures Lifted(n, Flattened(n, f), p) == Lifted(n, f, p)
    decreases Size(f)
  {
    if f.Cons? {
      if f.kids.Cons? && n.Lifts(f.id) {
        AppendFacts(f.kids, f.rest);
        var all := Append(f.kids, f.rest);
        assert Flattened(n, f) == Cons(f.id, Nil, Flattened(n, all));
        LiftedAppend(n, f.kids, f.rest, p);
        FlattenedLifts(n, all, p);
        hide Flattened, Append;
        var own := if n.kind(f.id).If? then [] else [(f.id, p)];
        Regroup(own, Lifted(n, f.kids, p), Lifted(n, f.rest, p));
        assert Lifted(n, Nil, p) == [] && own + [] == own;
      } else {
        FlattenedLifts(n, f.rest, p);
      }
    }
  }

  lemma {:induction false} WithoutIfsLifts(n: Info, f: Forest, p: Option<nat>)
    requires EmptyIfs(n, f)
    ensures Lifted(n, WithoutIfs(n, f), p) == Lifted(n, f, p)
  {
    if f.Cons? { WithoutIfsLifts(n, f.rest, p); }
  }

  lemma LevelLifts(n: Info, f: Forest, p: Option<nat>)
    ensures Lifted(n, Level(n, f), p) == Lifted(n, f, p)
  {
    FlattenedKeeps(n, f);
    FlattenedLifts(n, f, p);
    WithoutIfsLifts(n, Flattened(n, f), p);
  }

  // ---------------------------------------------------- the finished tree is flat

  /** Nodes that do not hold a menu hold nothing. */
  predicate Flat(n: Info, f: Forest) {
    match f case Nil => true case Cons(i, k, r) => (n.Lifts(i) ==> k.Nil?) && Flat(n, k) && Flat(n, r)
  }

  predicate FlatBelow(n: Info, f: Forest) {
    match f case Nil => true case Cons(_, k, r) => Flat(n, k) && FlatBelow(n, r)
  }

  lemma {:induction false} FlatParts(n: Info, f: Forest, g: Forest)
    ensures Flat(n, f) ==> FlatBelow(n, f)
    ensures FlatBelow(n, f) && FlatBelow(n, g) ==> FlatBelow(n, Append(f, g))
  {
    if f.Cons? { FlatParts(n, f.rest, g); }
  }

  lemma {:induction false} FlattenedFlat(n: Info, f: Forest)
    requires FlatBelow(n, f)
    ensures Flat(n, Flattened(n, f))
    decreases Size(f)
  {
    if f.Cons? {
      if f.kids.Cons? && n.Lifts(f.id) {
        AppendFacts(f.kids, f.rest);
        FlatParts(n, f.kids, f.rest);
        FlattenedFlat(n, Append(f.kids, f.rest));
      } else {
        FlattenedFlat(n, f.rest);
      }
    }
  }

  lemma {:induction false} WithoutIfsFlat(n: Info, f: Forest)
    requires Flat(n, f)
    ensures Flat(n, WithoutIfs(n, f))
  {
    if f.Cons? { WithoutIfsFlat(n, f.rest); }
  }

  lemma LevelFlat(n: Info, f: Forest)
    requires FlatBelow(n, f)
    ensures Flat(n, Level(n, f))
  {
    FlattenedFlat(n, f);
    WithoutIfsFlat(n, Flattened(n, f));
  }

  lemma {:induction false} FinalizedFlat(n: Info, f: Forest)
    requires f.Cons? && Parsed(n, f)
    ensures Flat(n, Finalized(n, f).kids) && Parsed(n, Finalized(n, f).rest)
    decreases Size(f), 0
  {
    FinalizedKeeps(n, f);
    if n.kind(f.id).Symbol? {
      AbsorbedFlat(n, f.id, f.rest);
      LevelFlat(n, Absorbed(n, f.id, f.rest).0);
    } else {
      AllFinalizedFlat(n, f.kids);
      LevelFlat(n, AllFinalized(n, f.kids));
    }
  }

  lemma {:induction false} AbsorbedFlat(n: Info, i: nat, f: Forest)
    requires Parsed(n, f)
    ensures FlatBelow(n, Absorbed(n, i, f).0)
    decreases Size(f), 1
  {
    if f.Cons? && n.auto(i, f.id) {
      FinalizedFlat(n, f);
      AbsorbedFlat(n, i, Finalized(n, f).rest);
    }
  }

  lemma {:induction false} AllFinalizedFlat(n: Info, f: Forest)
    requires Parsed(n, f)
    ensures FlatBelow(n, AllFinalized(n, f))
    decreases Size(f), 1
  {
    if f.Cons? {
      FinalizedFlat(n, f);
      AllFinalizedFlat(n, Finalized(n, f).rest);
    }
  }

  /** In a tree that is flat and free of ifs, nearest holders are parents. */
  lemma {:induction false} FlatTagged(n: Info, f: Forest, p: Option<nat>)
    requires Flat(n, f) && Clean(n, f)
    ensures Lifted(n, f, p) == Tagged(f, p)
  {
    if f.Cons? {
      FlatTagged(n, f.kids, Some(f.id));
      FlatTagged(n, f.rest, p);
    }
  }

  // ------------------------------------------------------------ the prediction holds

  /** A node that is not taken in closes the menu. */
  lemma Closed(n: Info, f: Forest, outside: Option<nat>, open: seq<nat>, i: nat)
    requires f.Nil? || !n.auto(i, f.id)
    ensures Placed(n, f, outside, open + [i]) == Placed(n, f, outside, open)
  {
    if f.Cons? { assert (open + [i])[..|open|] == open; }
  }

  lemma HolderOf(n: Info, open: seq<nat>, i: nat, outside: Option<nat>)
    requires n.kind(i).Symbol?
    ensures Holder(n, open + [i], outside) == if n.Lifts(i) then Holder(n, open, outside) else Some(i)
  {
    assert (open + [i])[..|open|] == open;
  }

  /** What symbol `i` takes in is what the walk puts below it while it is open. */
  lemma {:induction false} AbsorbedPlaced(n: Info, i: nat, f: Forest, outside: Option<nat>, open: seq<nat>)
    requires Parsed(n, f) && n.kind(i).Symbol?
    ensures var a := Absorbed(n, i, f);
            Placed(n, f, outside, open + [i]) ==
            Lifted(n, a.0, Holder(n, open + [i], outside)) + Placed(n, a.1, outside, open)
    decreases Size(f), 1
  {
    if f.Nil? || !n.auto(i, f.id) {
      Closed(n, f, outside, open, i);
    } else {
      var t := Finalized(n, f);
      FinalizedKeeps(n, f);
      FinalizedPlaced(n, f, outside, open + [i]);
      AbsorbedPlaced(n, i, t.rest, outside, open);
      var a := Absorbed(n, i, t.rest);
      hide Absorbed, Finalized, Placed, Kept, Clean;
      var p := Holder(n, open + [i], outside);
      Regroup(Lifted(n, Cons(t.id, t.kids, Nil), p), Lifted(n, a.0, p), Placed(n, a.1, outside, open));
    }
  }

  /** Finalising a node that no open menu closes before. */
  lemma {:induction false} FinalizedPlaced(n: Info, f: Forest, outside: Option<nat>, open: seq<nat>)
    requires f.Cons? && Parsed(n, f) && StillOpen(n, open, f.id) == open
    ensures var t := Finalized(n, f);
            Placed(n, f, outside, open) ==
            Lifted(n, Cons(t.id, t.kids, Nil), Holder(n, open, outside)) + Placed(n, t.rest, outside, open)
    decreases Size(f), 0
  {
    var t, p := Finalized(n, f), Holder(n, open, outside);
    var own := if n.kind(f.id).If? then [] else [(f.id, p)];
    var below := if n.Lifts(f.id) then p else Some(f.id);
    OneLifted(n, t.id, t.kids, p);
    if n.kind(f.id).Symbol? {
      assert Placed(n, f, outside, open) == own + Placed(n, f.rest, outside, open + [f.id]);
      var a := Absorbed(n, f.id, f.rest);
      assert t == Cons(f.id, Level(n, a.0), a.1) by { assert a.0.Nil? ==> Level(n, a.0) == Level(n, f.kids); }
      hide Placed, Lifted, Finalized, Absorbed, Level, Holder, StillOpen;
      AbsorbedPlaced(n, f.id, f.rest, outside, open);
      HolderOf(n, open, f.id, outside);
      LevelLifts(n, a.0, below);
      Regroup(own, Lifted(n, a.0, below), Placed(n, a.1, outside, open));
    } else {
      assert Placed(n, f, outside, open) == own + Placed(n, f.kids, below, []) + Placed(n, f.rest, outside, open);
      assert t == Cons(f.id, Level(n, AllFinalized(n, f.kids)), f.rest);
      hide Placed, Lifted, Finalized, AllFinalized, Level, Holder, StillOpen;
      AllFinalizedPlaced(n, f.kids, below);
      LevelLifts(n, AllFinalized(n, f.kids), below);
    }
  }

  lemma OneLifted(n: Info, i: nat, k: Forest, p: Option<nat>)
    ensures Lifted(n, Cons(i, k, Nil), p) ==
            (if n.kind(i).If? then [] else [(i, p)]) + Lifted(n, k, if n.Lifts(i) then p else Some(i))
  {
    assert Lifted(n, Nil, p) == [];
  }

  lemma {:induction false} AllFinalizedPlaced(n: Info, f: Forest, outside: Option<nat>)
    requires Parsed(n, f)
    ensures Placed(n, f, outside, []) == Lifted(n, AllFinalized(n, f), outside)
    decreases Size(f), 1
  {
    if f.Cons? {
      FinalizedPlaced(n, f, outside, []);
      FinalizedKeeps(n, f);
      AllFinalizedPlaced(n, Finalized(n, f).rest, outside);
    }
  }

  /** Finalisation puts every node exactly where the walk predicts, in file order: below
      the innermost open symbol with a prompt, or else below the menu or choice around. */
  lemma FinalisationPlaces(n: Info, top: Forest)
    requires top.Cons? && Parsed(n, top) && n.kind(top.id).Menu?
    ensures Tagged(Finalized(n, top).kids, Some(top.id)) == Placed(n, top.kids, Some(top.id), [])
  {
    var p := Some(top.id);
    FinalizedKeeps(n, top);
    FinalizedFlat(n, top);
    AllFinalizedPlaced(n, top.kids, p);
    LevelLifts(n, AllFinalized(n, top.kids), p);
    FlatTagged(n, Finalized(n, top).kids, p);
  }
}
