/** The menu tree as it is stored, in next/list/parent links that are rewired in
    place, and the iterative walk over the result. */
module MenuLinks {
  import opened Wrappers
  import opened MenuTree

  datatype Links = Links(next: map<nat, nat>, list: map<nat, nat>, parent: map<nat, nat>)

  function Get(m: map<nat, nat>, i: nat): Option<nat> { if i in m then Some(m[i]) else None }

  function Put(m: map<nat, nat>, i: nat, v: Option<nat>): map<nat, nat> {
    match v case None => m - {i} case Some(j) => m[i := j]
  }

  // ------------------------------------------------------------ distinct nodes

  ghost function Ids(f: Forest): set<nat> {
    match f case Nil => {} case Cons(i, k, r) => {i} + Ids(k) + Ids(r)
  }

  ghost predicate Distinct(f: Forest) {
    match f
    case Nil => true
    case Cons(i, k, r) =>
      i !in Ids(k) && i !in Ids(r) && Ids(k) !! Ids(r) && Distinct(k) && Distinct(r)
  }

  lemma {:induction false} DistinctAppend(f: Forest, g: Forest)
    ensures Ids(Append(f, g)) == Ids(f) + Ids(g)
    ensures Distinct(Append(f, g)) <==> Distinct(f) && Distinct(g) && Ids(f) !! Ids(g)
  {
    if f.Cons? { DistinctAppend(f.rest, g); }
  }

  lemma {:induction false} DistinctFlattened(n: Info, f: Forest)
    requires Distinct(f)
    ensures Ids(Flattened(n, f)) == Ids(f) && Distinct(Flattened(n, f))
    decreases Size(f)
  {
    if f.Cons? {
      AppendFacts(f.kids, f.rest);
      DistinctAppend(f.kids, f.rest);
      if f.kids.Cons? && n.Lifts(f.id) {
        DistinctFlattened(n, Append(f.kids, f.rest));
      } else {
        DistinctFlattened(n, f.rest);
      }
    }
  }

  lemma {:induction false} DistinctWithoutIfs(n: Info, f: Forest)
    requires Distinct(f)
    ensures Ids(WithoutIfs(n, f)) <= Ids(f) && Distinct(WithoutIfs(n, f))
  {
    if f.Cons? { DistinctWithoutIfs(n, f.rest); }
  }

  lemma DistinctLevel(n: Info, f: Forest)
    requires Distinct(f)
    ensures Ids(Level(n, f)) <= Ids(f) && Distinct(Level(n, f))
  {
    DistinctFlattened(n, f);
    DistinctWithoutIfs(n, Flattened(n, f));
  }

  lemma {:induction false} DistinctFinalized(n: Info, f: Forest)
    requires f.Cons? && Distinct(f)
    ensures Ids(Finalized(n, f)) <= Ids(f) && Distinct(Finalized(n, f))
    decreases Size(f), 0
  {
    if n.kind(f.id).Symbol? {
      DistinctAbsorbed(n, f.id, f.rest);
      var a := Absorbed(n, f.id, f.rest);
      DistinctLevel(n, if a.0.Nil? then f.kids else a.0);
    } else {
      DistinctAllFinalized(n, f.kids);
      DistinctLevel(n, AllFinalized(n, f.kids));
    }
  }

  lemma {:induction false} DistinctAbsorbed(n: Info, i: nat, f: Forest)
    requires Distinct(f)
    ensures var a := Absorbed(n, i, f);
            && Ids(a.0) <= Ids(f) && Ids(a.1) <= Ids(f) && Ids(a.0) !! Ids(a.1)
            && Distinct(a.0) && Distinct(a.1)
    decreases Size(f), 1
  {
    if f.Cons? && n.auto(i, f.id) {
      DistinctFinalized(n, f);
      DistinctAbsorbed(n, i, Finalized(n, f).rest);
    }
  }

  lemma {:induction false} DistinctAllFinalized(n: Info, f: Forest)
    requires Distinct(f)
    ensures Ids(AllFinalized(n, f)) <= Ids(f) && Distinct(AllFinalized(n, f))
    decreases Size(f), 1
  {
    if f.Cons? {
      DistinctFinalized(n, f);
      DistinctAllFinalized(n, Finalized(n, f).rest);
    }
  }

  // ------------------------------------------------------------------ segments

  /** The links from `first` up to `stop` spell out `f`, one level whose nodes all
      have the parent `p`. */
  ghost predicate Spells(l: Links, first: Option<nat>, f: Forest, p: Option<nat>, stop: Option<nat>)
    decreases f
  {
    match f
    case Nil => first == stop
    case Cons(i, k, r) =>
      && first == Some(i) && Get(l.parent, i) == p
      && Spells(l, Get(l.list, i), k, Some(i), None)
      && Spells(l, Get(l.next, i), r, p, stop)
  }

  ghost predicate SameAt(l: Links, m: Links, i: nat) {
    Get(l.next, i) == Get(m.next, i) && Get(l.list, i) == Get(m.list, i) && Get(l.parent, i) == Get(m.parent, i)
  }

  /** Only nodes of `s` have changed. */
  ghost predicate Within(l: Links, m: Links, s: set<nat>) {
    forall i: nat | i !in s :: SameAt(l, m, i)
  }

  lemma Front(l: Links, first: Option<nat>, f: Forest, p: Option<nat>)
    requires Spells(l, first, f, p, None)
    ensures first == if f.Nil? then None else Some(f.id)
    ensures f.Cons? ==>
              && (f.id in l.list <==> f.kids.Cons?) && (f.id in l.next <==> f.rest.Cons?)
              && Get(l.parent, f.id) == p
              && Spells(l, Get(l.list, f.id), f.kids, Some(f.id), None)
              && Spells(l, Get(l.next, f.id), f.rest, p, None)
  {
  }

  lemma WithinTrans(l: Links, m: Links, n: Links, s: set<nat>, t: set<nat>)
    requires Within(l, m, s) && Within(m, n, t) && t <= s
    ensures Within(l, n, s)
  {
    forall i: nat | i !in s ensures SameAt(l, n, i) {
      assert SameAt(l, m, i) && SameAt(m, n, i);
    }
  }

  lemma {:induction false} SpellsOn(l: Links, m: Links, first: Option<nat>, f: Forest, p: Option<nat>,
      stop: Option<nat>)
    requires Spells(l, first, f, p, stop) && forall j | j in Ids(f) :: SameAt(l, m, j)
    ensures Spells(m, first, f, p, stop)
    decreases f
  {
    if f.Cons? {
      assert SameAt(l, m, f.id);
      SpellsOn(l, m, Get(l.list, f.id), f.kids, Some(f.id), None);
      SpellsOn(l, m, Get(l.next, f.id), f.rest, p, stop);
    }
  }

  lemma SpellsFrame(l: Links, m: Links, first: Option<nat>, f: Forest, p: Option<nat>, stop: Option<nat>,
      changed: set<nat>)
    requires Spells(l, first, f, p, stop) && Within(l, m, changed) && Ids(f) !! changed
    ensures Spells(m, first, f, p, stop)
  {
    SpellsOn(l, m, first, f, p, stop);
  }

  lemma {:induction false} SpellsAppend(l: Links, first: Option<nat>, f: Forest, p: Option<nat>, mid: Option<nat>,
                                        g: Forest, stop: Option<nat>)
    requires Spells(l, first, f, p, mid) && Spells(l, mid, g, p, stop)
    ensures Spells(l, first, Append(f, g), p, stop)
    decreases f
  {
    if f.Cons? { SpellsAppend(l, Get(l.next, f.id), f.rest, p, mid, g, stop); }
  }

  lemma {:induction false} SpellsSplit(l: Links, first: Option<nat>, f: Forest, p: Option<nat>, g: Forest,
      stop: Option<nat>)
    requires Spells(l, first, Append(f, g), p, stop) && g.Cons?
    ensures Spells(l, first, f, p, Some(g.id)) && Spells(l, Some(g.id), g, p, stop)
    decreases f
  {
    if f.Cons? { SpellsSplit(l, Get(l.next, f.id), f.rest, p, g, stop); }
  }

  /** Redirecting the last node of a segment. */
  lemma Redirect(l: Links, first: Option<nat>, f: Forest, last: nat, k: Forest, p: Option<nat>, stop: Option<nat>,
                 other: Option<nat>)
    requires var g := Append(f, Cons(last, k, Nil)); Spells(l, first, g, p, stop) && Distinct(g)
    ensures var m := l.(next := Put(l.next, last, other));
            Within(l, m, {last}) && Spells(m, first, Append(f, Cons(last, k, Nil)), p, other)
  {
    var m := l.(next := Put(l.next, last, other));
    var end := Cons(last, k, Nil);
    assert Within(l, m, {last});
    DistinctAppend(f, end);
    SpellsSplit(l, first, f, p, end, stop);
    hide Within, Distinct;
    SpellsFrame(l, m, first, f, p, Some(last), {last});
    SpellsFrame(l, m, Get(l.list, last), k, Some(last), None, {last});
    SpellsAppend(m, first, f, p, Some(last), end, other);
  }

  // -------------------------------------------------------------- lifting nodes

  ghost function Tops(f: Forest): set<nat> {
    match f case Nil => {} case Cons(i, _, r) => {i} + Tops(r)
  }

  lemma {:induction false} TopsFacts(f: Forest, g: Forest)
    ensures Tops(Append(f, g)) == Tops(f) + Tops(g) && Tops(f) <= Ids(f)
  {
    if f.Cons? { TopsFacts(f.rest, g); }
  }

  lemma OneMore(f: Forest, g: Forest)
    requires g.Cons?
    ensures var more := Append(f, Cons(g.id, g.kids, Nil));
            Append(more, g.rest) == Append(f, g) && Tops(more) == Tops(f) + {g.id}
  {
    TopsFacts(f, Cons(g.id, g.kids, Nil));
    AppendAssociates(f, Cons(g.id, g.kids, Nil), g.rest);
  }

  ghost function WithParents(m: map<nat, nat>, s: set<nat>, p: nat): map<nat, nat> {
    map j | j in m.Keys + s :: if j in s then p else m[j]
  }

  lemma WithParentsMore(m: map<nat, nat>, s: set<nat>, i: nat, p: nat, last: nat)
    requires Get(m, i) == Some(p)
    ensures Get(WithParents(m, s, p), i) == Some(p)
    ensures WithParents(m, s, p)[last := p] == WithParents(m, s + {last}, p)
  {
  }

  /** Giving the nodes of a level another parent. */
  lemma {:induction false} Reparent(l: Links, m: Links, first: Option<nat>, f: Forest, q: Option<nat>,
      stop: Option<nat>, p: nat)
    requires Spells(l, first, f, q, stop) && Distinct(f)
    requires m.next == l.next && m.list == l.list
    requires forall j | j in Ids(f) :: Get(m.parent, j) == if j in Tops(f) then Some(p) else Get(l.parent, j)
    ensures Spells(m, first, f, Some(p), stop)
    decreases f
  {
    if f.Cons? {
      TopsFacts(f.rest, Nil);
      Reparent(l, m, Get(l.next, f.id), f.rest, q, stop, p);
      SpellsOn(l, m, Get(l.list, f.id), f.kids, Some(f.id), None);
    }
  }

  /** The links after the children of `t.id`, whose last is `last`, are moved up. */
  ghost function Lifted(l: Links, t: Forest, last: nat, p: nat): Links
    requires t.Cons? && t.kids.Cons?
  {
    Links(Put(l.next, last, Get(l.next, t.id))[t.id := t.kids.id], l.list - {t.id},
      WithParents(l.parent, Tops(t.kids), p))
  }

  /** First the parents, then the link behind the last child. */
  lemma ChildrenFreed(l: Links, t: Forest, f: Forest, last: nat, k: Forest, p: nat)
    requires t.Cons? && t.kids.Cons? && t.kids == Append(f, Cons(last, k, Nil))
    requires Distinct(t) && Spells(l, Some(t.id), t, Some(p), None)
    ensures var l2 := l.(parent := WithParents(l.parent, Tops(t.kids), p),
            next := Put(l.next, last, Get(l.next, t.id)));
            && Spells(l2, Some(t.kids.id), Append(t.kids, t.rest), Some(p), None)
            && Within(l, l2, Ids(t.kids))
  {
    var rest := Get(l.next, t.id);
    var l1 := l.(parent := WithParents(l.parent, Tops(t.kids), p));
    var l2 := l1.(next := Put(l1.next, last, rest));
    TopsFacts(t.kids, Nil);
    DistinctAppend(f, Cons(last, k, Nil));
    Reparent(l, l1, Some(t.kids.id), t.kids, Some(t.id), None, p);
    assert Within(l, l1, Ids(t.kids));
    hide Within, WithParents;
    Redirect(l1, Some(t.kids.id), f, last, k, Some(p), None, rest);
    WithinTrans(l, l1, l2, Ids(t.kids), {last});
    SpellsFrame(l, l2, rest, t.rest, Some(p), None, Ids(t.kids));
    SpellsAppend(l2, Some(t.kids.id), t.kids, Some(p), rest, t.rest, None);
  }

  lemma LiftedSpells(l: Links, t: Forest, f: Forest, last: nat, k: Forest, p: nat)
    requires t.Cons? && t.kids.Cons? && t.kids == Append(f, Cons(last, k, Nil))
    requires Distinct(t) && Spells(l, Some(t.id), t, Some(p), None)
    ensures Spells(Lifted(l, t, last, p), Some(t.id), Cons(t.id, Nil, Append(t.kids, t.rest)), Some(p), None)
    ensures Within(l, Lifted(l, t, last, p), Ids(t))
  {
    ChildrenFreed(l, t, f, last, k, p);
    var l2 := l.(parent := WithParents(l.parent, Tops(t.kids), p), next := Put(l.next, last, Get(l.next, t.id)));
    var l3 := Lifted(l, t, last, p);
    DistinctAppend(t.kids, t.rest);
    assert Within(l2, l3, {t.id});
    assert SameAt(l, l2, t.id);
    WithinTrans(l, l2, l3, Ids(t), {t.id});
    hide Within, WithParents;
    SpellsFrame(l2, l3, Some(t.kids.id), Append(t.kids, t.rest), Some(p), None, {t.id});
  }

  // ---------------------------------------------------------- loops over a level

  /** A level with the part up to `cur` done and the rest still to do. */
  ghost predicate Halfway(l: Links, first: Option<nat>, done: Forest, cur: Option<nat>, todo: Forest, p: Option<nat>) {
    && Spells(l, first, done, p, cur) && Spells(l, cur, todo, p, None)
    && Distinct(done) && Distinct(todo) && Ids(done) !! Ids(todo)
  }

  /** Stepping over the first node to do. */
  lemma StepOver(l: Links, first: Option<nat>, done: Forest, todo: Forest, p: Option<nat>)
    requires todo.Cons? && Halfway(l, first, done, Some(todo.id), todo, p)
    ensures var more := Append(done, Cons(todo.id, todo.kids, Nil));
            && Halfway(l, first, more, Get(l.next, todo.id), todo.rest, p)
            && Ids(more) + Ids(todo.rest) == Ids(done) + Ids(todo)
  {
    var one := Cons(todo.id, todo.kids, Nil);
    SpellsAppend(l, first, done, p, Some(todo.id), one, Get(l.next, todo.id));
    DistinctAppend(done, one);
  }

  /** What is to do has been replaced, without touching what is done. */
  lemma Replace(l: Links, m: Links, first: Option<nat>, done: Forest, cur: Option<nat>, todo: Forest, p: Option<nat>,
                other: Forest)
    requires Halfway(l, first, done, cur, todo, p) && Within(l, m, Ids(todo))
    requires Spells(m, cur, other, p, None) && Distinct(other) && Ids(other) <= Ids(todo)
    ensures Halfway(m, first, done, cur, other, p)
  {
    SpellsFrame(l, m, first, done, p, cur, Ids(todo));
  }

  lemma DistinctLift(t: Forest)
    requires t.Cons? && Distinct(t)
    ensures var u := Cons(t.id, Nil, Append(t.kids, t.rest));
            Distinct(u) && Ids(u) == Ids(t) && Size(u) == Size(t)
  {
    DistinctAppend(t.kids, t.rest);
    AppendFacts(t.kids, t.rest);
  }

  lemma StartLevel(l: Links, m: Links, node: nat, cur: Option<nat>, todo: Forest, ids: set<nat>)
    requires Spells(l, cur, todo, Some(node), None) && Distinct(todo) && Ids(todo) <= ids && node !in ids
    requires m == l.(list := Put(l.list, node, cur))
    ensures Halfway(m, cur, Nil, cur, todo, Some(node)) && Within(l, m, ids + {node}) && Ids(Nil) + Ids(todo) <= ids
  {
    SpellsFrame(l, m, cur, todo, Some(node), None, {node});
  }

  /** The last node done is made to point past skipped nodes. */
  lemma DoneWith(l: Links, first: Option<nat>, done: Forest, c: nat, kids: Forest, todo: Forest, p: Option<nat>,
                 skip: Option<nat>, rest: Forest, ids: set<nat>)
    requires var more := Append(done, Cons(c, kids, Nil));
             Halfway(l, first, more, Get(l.next, c), todo, p) && Ids(more) + Ids(todo) <= ids
    requires Spells(l, skip, rest, p, None) && Distinct(rest) && Ids(rest) <= Ids(todo)
    ensures var more, m := Append(done, Cons(c, kids, Nil)), l.(next := Put(l.next, c, skip));
            && Halfway(m, first, more, skip, rest, p) && Ids(more) + Ids(rest) <= ids
            && Within(l, m, {c}) && c in ids
  {
    var m := l.(next := Put(l.next, c, skip));
    DistinctAppend(done, Cons(c, kids, Nil));
    Redirect(l, first, done, c, kids, p, Get(l.next, c), skip);
    SpellsFrame(l, m, skip, rest, p, None, {c});
  }

  // ------------------------------------------------------- implicit submenus

  /** While the symbol `node` takes in the nodes behind it: those up to `cur` have
      become its children but are still linked behind it. */
  ghost predicate Taking(l: Links, node: nat, taken: Forest, cur: nat, todo: Forest, p: Option<nat>) {
    && Spells(l, Get(l.next, node), taken, Some(node), Get(l.next, cur))
    && Spells(l, Get(l.next, cur), todo, p, None)
    && Distinct(taken) && Distinct(todo) && Ids(taken) !! Ids(todo)
    && node !in Ids(taken) && node !in Ids(todo)
    && (taken.Nil? ==> cur == node)
  }

  /** The next node has been finalised, into `t`, and is given its new parent. */
  lemma Take(l: Links, m: Links, node: nat, taken: Forest, cur: nat, todo: Forest, p: Option<nat>, t: Forest)
    requires Taking(l, node, taken, cur, todo, p) && Within(l, m, Ids(todo)) && (cur == node || cur in Ids(taken))
    requires t.Cons? && Distinct(t) && Ids(t) <= Ids(todo) && Get(l.next, cur) == Some(t.id)
    requires Spells(m, Some(t.id), t, p, None)
    ensures var m1, more := m.(parent := m.parent[t.id := node]), Append(taken, Cons(t.id, t.kids, Nil));
            && Taking(m1, node, more, t.id, t.rest, p) && t.id in Ids(more)
            && Within(l, m1, Ids(todo)) && Ids(more) + Ids(t.rest) <= Ids(taken) + Ids(todo)
  {
    var m1, one := m.(parent := m.parent[t.id := node]), Cons(t.id, t.kids, Nil);
    assert Within(m, m1, {t.id});
    WithinTrans(l, m, m1, Ids(todo), {t.id});
    assert SameAt(l, m1, node) && SameAt(l, m1, cur);
    hide Within;
    SpellsFrame(l, m1, Get(l.next, node), taken, Some(node), Get(l.next, cur), Ids(todo));
    SpellsFrame(m, m1, Get(m.list, t.id), t.kids, Some(t.id), None, {t.id});
    SpellsFrame(m, m1, Get(m.next, t.id), t.rest, p, None, {t.id});
    SpellsAppend(m1, Get(l.next, node), taken, Some(node), Some(t.id), one, Get(m.next, t.id));
    DistinctAppend(taken, one);
  }

  /** The nodes taken in are moved below. */
  lemma Tilt(l: Links, node: nat, front: Forest, cur: nat, k: Forest, todo: Forest, p: Option<nat>)
    requires Taking(l, node, Append(front, Cons(cur, k, Nil)), cur, todo, p) && Get(l.parent, node) == p
    ensures var taken := Append(front, Cons(cur, k, Nil));
            var m := Links(Put(Put(l.next, node, Get(l.next, cur)), cur, None), Put(l.list, node, Get(l.next, node)),
              l.parent);
            && Spells(m, Some(node), Cons(node, taken, todo), p, None)
            && Within(l, m, {node, cur}) && cur in Ids(taken)
  {
    var taken := Append(front, Cons(cur, k, Nil));
    var m := Links(Put(Put(l.next, node, Get(l.next, cur)), cur, None), Put(l.list, node, Get(l.next, node)), l.parent);
    var m1 := l.(next := Put(l.next, cur, None));
    DistinctAppend(front, Cons(cur, k, Nil));
    Redirect(l, Get(l.next, node), front, cur, k, Some(node), Get(l.next, cur), None);
    assert Within(m1, m, {node}) && Within(l, m, {node, cur});
    hide Within;
    SpellsFrame(m1, m, Get(l.next, node), taken, Some(node), None, {node});
    SpellsFrame(l, m, Get(l.next, cur), todo, p, None, {node, cur});
  }

  // ------------------------------------------------------------------ the walk

  /** The nodes above the current one, each with what follows it. */
  datatype Path = Root | Below(up: Path, node: Forest)

  ghost function Above(path: Path): Option<nat> {
    if path.Below? && path.node.Cons? then Some(path.node.id) else None
  }

  /** The walk stands on the first node of `cur`. */
  ghost predicate Located(l: Links, path: Path, cur: Forest)
    decreases path
  {
    && cur.Cons? && Spells(l, Some(cur.id), cur, Above(path), None)
    && (path.Below? ==> Located(l, path.up, path.node))
  }

  ghost function Behind(path: Path): seq<nat> {
    match path case Root => [] case Below(up, n) => (if n.Cons? then Preorder(n.rest) else []) + Behind(up)
  }

  /** What the walk has still to yield. */
  ghost function Ahead(path: Path, cur: Forest): seq<nat> {
    if cur.Nil? then [] else Preorder(cur.kids) + Preorder(cur.rest) + Behind(path)
  }

  lemma LocatedFacts(l: Links, path: Path, cur: Forest)
    requires Located(l, path, cur)
    ensures cur.id in l.list <==> cur.kids.Cons?
    ensures cur.id in l.next <==> cur.rest.Cons?
    ensures cur.id in l.parent <==> path.Below?
    ensures path.Below? ==> Located(l, path.up, path.node) && l.parent[cur.id] == path.node.id
    ensures cur.kids.Cons? ==> l.list[cur.id] == cur.kids.id && Located(l, Below(path, cur), cur.kids)
    ensures cur.rest.Cons? ==> l.next[cur.id] == cur.rest.id && Located(l, path, cur.rest)
  {
    Front(l, Some(cur.id), cur, Above(path));
    Front(l, Get(l.list, cur.id), cur.kids, Some(cur.id));
    Front(l, Get(l.next, cur.id), cur.rest, Above(path));
    hide Spells;
  }

  lemma AheadFacts(path: Path, cur: Forest)
    requires cur.Cons?
    ensures cur.kids.Cons? ==> Ahead(path, cur) == [cur.kids.id] + Ahead(Below(path, cur), cur.kids)
    ensures cur.kids.Nil? && cur.rest.Cons? ==> Ahead(path, cur) == [cur.rest.id] + Ahead(path, cur.rest)
    ensures cur.kids.Nil? && cur.rest.Nil? ==> Ahead(path, cur) == Behind(path)
    ensures cur.rest.Cons? ==> Behind(Below(path, cur)) == [cur.rest.id] + Ahead(path, cur.rest)
    ensures cur.rest.Nil? ==> Behind(Below(path, cur)) == Behind(path)
  {
    if cur.kids.Cons? {
      var a, b, c, d := Preorder(cur.kids.kids), Preorder(cur.kids.rest), Preorder(cur.rest), Behind(path);
      assert ([cur.kids.id] + a + b) + c + d == [cur.kids.id] + (a + b + (c + d));
    }
    if cur.rest.Cons? {
      var a, b, d := Preorder(cur.rest.kids), Preorder(cur.rest.rest), Behind(path);
      assert ([cur.rest.id] + a + b) + d == [cur.rest.id] + (a + b + d);
    }
  }

  class MenuNodes {
    const info: Info
    var next: map<nat, nat>
    var list: map<nat, nat>
    var parent: map<nat, nat>

    ghost function L(): Links reads this { Links(next, list, parent) }

    /** Gives the children of `i` the parent of `i`, and finds the last of them. */
    method Adopt(i: nat, ghost t: Forest, ghost p: nat) returns (last: nat, ghost seen: Forest, ghost k: Forest)
      requires t.Cons? && t.id == i && t.kids.Cons? && Spells(L(), Some(i), t, Some(p), None)
      modifies this
      ensures t.kids == Append(seen, Cons(last, k, Nil))
      ensures next == old(next) && list == old(list)
      ensures parent == WithParents(old(parent), Tops(t.kids), p)
    {
      Front(L(), Some(i), t, Some(p));
      Front(L(), Get(list, i), t.kids, Some(i));
      assert WithParents(parent, {}, p) == parent;
      assert Append(Nil, t.kids) == t.kids && Tops(Nil) == {};
      hide Spells, WithParents, Append, Tops;
      last := list[i];
      ghost var todo := t.kids;
      seen := Nil;
      WithParentsMore(parent, {}, i, p, last);
      parent := parent[last := parent[i]];
      while last in next
        invariant t.kids == Append(seen, todo) && todo.Cons? && Spells(old(L()), Some(last), todo, Some(i), None)
        invariant next == old(next) && list == old(list)
        invariant parent == WithParents(old(parent), Tops(seen) + {last}, p)
        decreases Size(todo)
      {
        Front(old(L()), Some(last), todo, Some(i));
        OneMore(seen, todo);
        seen, todo := Append(seen, Cons(last, todo.kids, Nil)), todo.rest;
        last := next[last];
        WithParentsMore(old(parent), Tops(seen), i, p, last);
        parent := parent[last := parent[i]];
      }
      Front(old(L()), Some(last), todo, Some(i));
      OneMore(seen, todo);
      AppendFacts(Append(seen, todo), Nil);
      k := todo.kids;
    }

    /** Moves the children of `i` up behind it. */
    method Lift(i: nat, ghost t: Forest, ghost p: nat)
      requires t.Cons? && t.id == i && t.kids.Cons? && Distinct(t) && Spells(L(), Some(i), t, Some(p), None)
      modifies this
      ensures Spells(L(), Some(i), Cons(i, Nil, Append(t.kids, t.rest)), Some(p), None)
      ensures Within(old(L()), L(), Ids(t))
    {
      Front(L(), Some(i), t, Some(p));
      Front(L(), Get(list, i), t.kids, Some(i));
      hide Distinct, Ids, Spells, Within, WithParents, Tops;
      var last: nat;
      ghost var seen, k;
      last, seen, k := Adopt(i, t, p);
      next := Put(next, last, Get(next, i));
      next := next[i := list[i]];
      list := list - {i};
      LiftedSpells(old(L()), t, seen, last, k, p);
    }

    /** _flatten() */
    method Flatten(first: nat, ghost f: Forest, ghost p: nat)
      requires f.Cons? && Distinct(f) && Spells(L(), Some(first), f, Some(p), None)
      modifies this
      ensures Spells(L(), Some(first), Flattened(info, f), Some(p), None)
      ensures Within(old(L()), L(), Ids(f))
    {
      var node := Some(first);
      ghost var done, todo := Nil, f;
      while node.Some?
        invariant Halfway(L(), Some(first), done, node, todo, Some(p))
        invariant Ids(done) + Ids(todo) == Ids(f) && Within(old(L()), L(), Ids(f))
        invariant Flattened(info, f) == Append(done, Flattened(info, todo))
        decreases Size(todo)
      {
        Front(L(), node, todo, Some(p));
        hide Spells, Within, Distinct, Ids;
        var i := node.value;
        ghost var before, lifts := L(), todo.kids.Cons? && info.Lifts(i);
        ghost var after := if lifts then Cons(i, Nil, Append(todo.kids, todo.rest)) else todo;
        if i in list && info.Lifts(i) {
          Lift(i, todo, p);
          DistinctLift(todo);
          WithinTrans(old(L()), before, L(), Ids(f), Ids(todo));
          Replace(before, L(), Some(first), done, node, todo, Some(p), after);
        }
        AppendAssociates(done, Cons(i, after.kids, Nil), Flattened(info, after.rest));
        StepOver(L(), Some(first), done, after, Some(p));
        done, todo := Append(done, Cons(i, after.kids, Nil)), after.rest;
        node := Get(next, i);
      }
      Front(L(), node, todo, Some(p));
      AppendFacts(done, Nil);
    }

    /** _remove_ifs() */
    method RemoveIfs(node: nat, ghost f: Forest)
      requires Distinct(f) && node !in Ids(f) && Spells(L(), Get(list, node), f, Some(node), None)
      modifies this
      ensures Spells(L(), Get(list, node), WithoutIfs(info, f), Some(node), None)
      ensures Within(old(L()), L(), Ids(f) + {node})
      ensures Get(next, node) == old(Get(next, node)) && Get(parent, node) == old(Get(parent, node))
    {
      hide Spells, Within, Distinct, Ids;
      ghost var todo, done := f, Nil;
      var cur: Option<nat>;
      cur, todo := SkipIfs(Get(list, node), f, Some(node));
      list := Put(list, node, cur);
      StartLevel(old(L()), L(), node, cur, todo, Ids(f));
      while cur.Some?
        invariant Halfway(L(), Get(list, node), done, cur, todo, Some(node)) && Ids(done) + Ids(todo) <= Ids(f)
        invariant WithoutIfs(info, f) == Append(done, WithoutIfs(info, todo))
        invariant todo.Cons? ==> !info.kind(todo.id).If?
        invariant Within(old(L()), L(), Ids(f) + {node})
        invariant Get(next, node) == old(Get(next, node)) && Get(parent, node) == old(Get(parent, node))
        decreases Size(todo)
      {
        Front(L(), cur, todo, Some(node));
        var c := cur.value;
        ghost var more := Append(done, Cons(c, todo.kids, Nil));
        StepOver(L(), Get(list, node), done, todo, Some(node));
        AppendAssociates(done, Cons(c, todo.kids, Nil), WithoutIfs(info, todo.rest));
        var skip: Option<nat>;
        ghost var rest;
        skip, rest := SkipIfs(Get(next, c), todo.rest, Some(node));
        ghost var before := L();
        DoneWith(L(), Get(list, node), done, c, todo.kids, todo.rest, Some(node), skip, rest, Ids(f));
        next := Put(next, c, skip);
        WithinTrans(old(L()), before, L(), Ids(f) + {node}, {c});
        cur, done, todo := skip, more, rest;
      }
      Front(L(), cur, todo, Some(node));
      AppendFacts(done, Nil);
    }

    /** The first node from `cur` on that is not an `if`. */
    method SkipIfs(cur: Option<nat>, ghost f: Forest, ghost p: Option<nat>) returns (r: Option<nat>, ghost g: Forest)
      requires Spells(L(), cur, f, p, None) && Distinct(f)
      ensures Spells(L(), r, g, p, None) && Distinct(g) && Ids(g) <= Ids(f) && Size(g) <= Size(f)
      ensures WithoutIfs(info, g) == WithoutIfs(info, f) && (g.Cons? ==> !info.kind(g.id).If?)
    {
      r, g := cur, f;
      while r.Some? && info.kind(r.value).If?
        invariant Spells(L(), r, g, p, None) && Distinct(g) && Ids(g) <= Ids(f) && Size(g) <= Size(f)
        invariant WithoutIfs(info, g) == WithoutIfs(info, f)
        decreases Size(g)
      {
        Front(L(), r, g, p);
        r, g := Get(next, r.value), g.rest;
      }
      Front(L(), r, g, p);
    }

    /** Finalises the nodes behind a symbol that depend on it, giving each the
        symbol as parent; `cur` is the last of them, or the symbol itself. */
    method TakeDependents(node: nat, ghost f: Forest, ghost p: Option<nat>)
        returns (cur: nat, ghost front: Forest, ghost k: Forest, ghost todo: Forest)
      requires f.Cons? && f.id == node && Distinct(f) && Spells(L(), Some(node), f, p, None)
      modifies this
      ensures cur == node ==> L() == old(L()) && Absorbed(info, node, f.rest) == (Nil, f.rest)
      ensures cur != node ==>
                && Taking(L(), node, Append(front, Cons(cur, k, Nil)), cur, todo, p)
                && Absorbed(info, node, f.rest) == (Append(front, Cons(cur, k, Nil)), todo)
                && cur in Ids(f.rest)
      ensures Within(old(L()), L(), Ids(f.rest))
      decreases Size(f), 0
    {
      Front(L(), Some(node), f, p);
      AppendFacts(Nil, Absorbed(info, node, f.rest).0);
      cur, front, k, todo := node, Nil, Nil, f.rest;
      ghost var taken := Nil;
      while cur in next && info.auto(node, next[cur])
        invariant Taking(L(), node, taken, cur, todo, p) && Ids(taken) + Ids(todo) <= Ids(f.rest)
        invariant Absorbed(info, node, f.rest) ==
                  (Append(taken, Absorbed(info, node, todo).0), Absorbed(info, node, todo).1)
        invariant if cur == node then L() == old(L()) && taken == Nil && todo == f.rest
                  else cur in Ids(taken) && taken == Append(front, Cons(cur, k, Nil))
        invariant Within(old(L()), L(), Ids(f.rest)) && Size(todo) < Size(f)
        decreases Size(todo)
      {
        ghost var before, t := L(), Finalized(info, todo);
        Front(L(), Get(next, cur), todo, p);
        hide Spells, Within, Distinct, Ids, Finalized;
        FinalizeNode(next[cur], todo, p);
        DistinctFinalized(info, todo);
        Take(before, L(), node, taken, cur, todo, p, t);
        cur := next[cur];
        parent := parent[cur := node];
        WithinTrans(old(L()), before, L(), Ids(f.rest), Ids(todo));
        AppendAssociates(taken, Cons(t.id, t.kids, Nil), Absorbed(info, node, t.rest).0);
        front, k := taken, t.kids;
        taken, todo := Append(taken, Cons(t.id, t.kids, Nil)), t.rest;
      }
      Front(L(), Get(next, cur), todo, p);
      AppendFacts(taken, Nil);
    }

    /** The part of _finalize_node() that makes an implicit menu below a symbol. */
    method MakeSubmenu(node: nat, ghost f: Forest, ghost p: Option<nat>)
      requires f.Cons? && f.id == node && Distinct(f) && Spells(L(), Some(node), f, p, None)
      modifies this
      ensures var a := Absorbed(info, node, f.rest);
              Spells(L(), Some(node), Cons(node, if a.0.Nil? then f.kids else a.0, a.1), p, None)
      ensures Within(old(L()), L(), Ids(f))
      decreases Size(f), 1
    {
      Front(L(), Some(node), f, p);
      hide Absorbed;
      var cur: nat;
      ghost var front, k, todo;
      cur, front, k, todo := TakeDependents(node, f, p);
      assert SameAt(old(L()), L(), node);
      if cur != node {
        hide Spells, Within, Taking;
        ghost var before := L();
        Tilt(L(), node, front, cur, k, todo, p);
        list := Put(list, node, Get(next, node));
        next := Put(next, node, Get(next, cur));
        next := next - {cur};
        assert Append(front, Cons(cur, k, Nil)).Cons?;
        WithinTrans(old(L()), before, L(), Ids(f), {node, cur});
      }
    }

    /** Finalises each child in turn. */
    method FinalizeChildren(node: nat, ghost f: Forest, ghost p: Option<nat>)
      requires f.Cons? && f.id == node && Distinct(f) && Spells(L(), Some(node), f, p, None)
      modifies this
      ensures Spells(L(), Some(node), Cons(node, AllFinalized(info, f.kids), f.rest), p, None)
      ensures Within(old(L()), L(), Ids(f.kids))
      decreases Size(f), 0
    {
      Front(L(), Some(node), f, p);
      var cur := Get(list, node);
      ghost var first, done, todo := cur, Nil, f.kids;
      while cur.Some?
        invariant Halfway(L(), first, done, cur, todo, Some(node)) && Ids(done) + Ids(todo) <= Ids(f.kids)
        invariant AllFinalized(info, f.kids) == Append(done, AllFinalized(info, todo))
        invariant Within(old(L()), L(), Ids(f.kids)) && Size(todo) < Size(f)
        decreases Size(todo)
      {
        ghost var before := L();
        Front(L(), cur, todo, Some(node));
        hide Spells, Within, Distinct, Ids;
        FinalizeNode(cur.value, todo, Some(node));
        ghost var t := Finalized(info, todo);
        DistinctFinalized(info, todo);
        Replace(before, L(), first, done, cur, todo, Some(node), t);
        WithinTrans(old(L()), before, L(), Ids(f.kids), Ids(todo));
        StepOver(L(), first, done, t, Some(node));
        AppendAssociates(done, Cons(t.id, t.kids, Nil), AllFinalized(info, t.rest));
        cur := Get(next, cur.value);
        done, todo := Append(done, Cons(t.id, t.kids, Nil)), t.rest;
      }
      Front(L(), cur, todo, Some(node));
      AppendFacts(done, Nil);
      SpellsFrame(old(L()), L(), Get(old(next), node), f.rest, p, None, Ids(f.kids));
      assert SameAt(old(L()), L(), node);
    }

    /** The last steps for the children of a node. */
    method FinishLevel(node: nat, ghost f: Forest, ghost p: Option<nat>)
      requires f.Cons? && f.id == node && Distinct(f) && Spells(L(), Some(node), f, p, None)
      modifies this
      ensures Spells(L(), Some(node), Cons(node, Level(info, f.kids), f.rest), p, None)
      ensures Within(old(L()), L(), Ids(f))
    {
      Front(L(), Some(node), f, p);
      if node in list {
        Front(L(), Get(list, node), f.kids, Some(node));
        DistinctFlattened(info, f.kids);
        Flatten(list[node], f.kids, node);
        assert SameAt(old(L()), L(), node);
        ghost var mid := L();
        SpellsFrame(old(L()), L(), Get(next, node), f.rest, p, None, Ids(f.kids));
        RemoveIfs(node, Flattened(info, f.kids));
        SpellsFrame(mid, L(), Get(next, node), f.rest, p, None, Ids(f.kids) + {node});
      }
    }

    /** _finalize_node(), as far as the shape of the tree goes. */
    method FinalizeNode(node: nat, ghost f: Forest, ghost p: Option<nat>)
      requires f.Cons? && f.id == node && Distinct(f) && Spells(L(), Some(node), f, p, None)
      modifies this
      ensures Spells(L(), Some(node), Finalized(info, f), p, None)
      ensures Within(old(L()), L(), Ids(f))
      decreases Size(f), 2
    {
      Front(L(), Some(node), f, p);
      hide Spells, Within;
      ghost var g: Forest := f;
      if info.kind(node).Symbol? {
        MakeSubmenu(node, f, p);
        DistinctAbsorbed(info, node, f.rest);
        ghost var a := Absorbed(info, node, f.rest);
        g := Cons(node, if a.0.Nil? then f.kids else a.0, a.1);
      } else if node in list {
        FinalizeChildren(node, f, p);
        DistinctAllFinalized(info, f.kids);
        g := Cons(node, AllFinalized(info, f.kids), f.rest);
      }
      ghost var mid := L();
      FinishLevel(node, g, p);
      WithinTrans(old(L()), mid, L(), Ids(f), Ids(g));
    }

    /** Up to the first enclosing node with something behind it. */
    method Climb(start: nat, ghost from: Path, ghost at: Forest)
        returns (r: Option<nat>, ghost path: Path, ghost cur: Forest)
      requires Located(L(), from, at) && at.id == start
      ensures r.None? ==> Behind(from) == []
      ensures r.Some? ==> Located(L(), path, cur) && cur.id == r.value && Behind(from) == [cur.id] + Ahead(path, cur)
    {
      var node := start;
      path, cur := from, at;
      while node in parent
        invariant Located(L(), path, cur) && cur.id == node && Behind(path) == Behind(from)
        decreases path
      {
        LocatedFacts(L(), path, cur);
        hide Located, Behind, Ahead;
        node, path, cur := parent[node], path.up, path.node;
        LocatedFacts(L(), path, cur);
        AheadFacts(path, cur);
        if node in next { return Some(next[node]), path, cur.rest; }
      }
      LocatedFacts(L(), path, cur);
      r := None;
    }

    /** node_iter() from the top node, which is itself left out. */
    method NodeIter(top: nat, ghost f: Forest) returns (out: seq<nat>)
      requires f.Cons? && f.id == top && f.rest.Nil? && Spells(L(), Some(top), f, None, None)
      ensures out == Preorder(f.kids)
    {
      out := [];
      var node := top;
      ghost var cur, path := f, Root;
      while true
        invariant Located(L(), path, cur) && cur.id == node && out + Ahead(path, cur) == Preorder(f.kids)
        decreases |Ahead(path, cur)|
      {
        LocatedFacts(L(), path, cur);
        AheadFacts(path, cur);
        hide Located, Ahead, Behind, Spells, Preorder;
        if node in list {
          node, path, cur := list[node], Below(path, cur), cur.kids;
        } else if node in next {
          node, cur := next[node], cur.rest;
        } else {
          var r;
          r, path, cur := Climb(node, path, cur);
          if r.None? { return; }
          node := r.value;
        }
        out := out + [node];
      }
    }

    /** A parsed tree is finalised and walked: the walk ends, meets every node but
        the `if` nodes in the order of the Kconfig files, and so meets the symbols
        in the order of `defined_syms`. */
    method FinalizeAndIterate(top: nat, ghost f: Forest) returns (out: seq<nat>)
      requires f.Cons? && f.id == top && f.rest.Nil? && info.kind(top).Menu?
      requires Parsed(info, f) && Distinct(f) && Spells(L(), Some(top), f, None, None)
      modifies this
      ensures Spells(L(), Some(top), Finalized(info, f), None, None) && Clean(info, Finalized(info, f).kids)
      ensures out == Kept(info, f.kids)
      ensures Select(out, (i: nat) => info.kind(i).Symbol?)
              == Select(Preorder(f.kids), (i: nat) => info.kind(i).Symbol?)
    {
      FinalizeNode(top, f, None);
      FinalisationKeepsOrder(info, f);
      ghost var r := Finalized(info, f);
      out := NodeIter(top, r);
    }
  }
}
