/** What the step from a symbol into its choice finds: symbols of a choice that depend
    on one another. */
module DepLoopChoice {
  import opened Wrappers
  import opened DepLoop

  /** Symbols and choices belong together both ways. */
  ghost predicate Paired(g: Graph) {
    && (forall c: nat, m: nat | m in g.M(c) :: m in g.choiceOf && g.choiceOf[m] == c)
    && (forall s | s in g.choiceOf :: s in g.M(g.choiceOf[s]))
  }

  // ------------------------------------------------------------ nothing is left out

  /** The node has not been left out. */
  predicate Seen(vis: Colours, n: Node) { ColourOf(vis, n) != White }

  /** Everything that was visited on the way has handed the visit on. */
  ghost predicate Settled(g: Graph, vis: Colours, after: Colours) {
    && (forall n | Seen(vis, n) :: Seen(after, n))
    && (forall u, v | !Seen(vis, u) && Seen(after, u) && Edge(g, u, v) :: Seen(after, v))
  }

  lemma SettledOn(g: Graph, vis: Colours, mid: Colours, after: Colours)
    requires Settled(g, vis, mid) && Settled(g, mid, after)
    ensures Settled(g, vis, after)
  {
  }

  lemma SettledSelf(g: Graph, vis: Colours)
    ensures Settled(g, vis, vis)
  {
  }

  lemma SettledSeen(g: Graph, vis: Colours, after: Colours)
    requires Settled(g, vis, after)
    ensures forall n | Seen(vis, n) :: Seen(after, n)
  {
  }

  lemma NodeDone(g: Graph, vis: Colours, mid: Colours, n: Node)
    requires Settled(g, vis[n := Grey], mid) && forall v | Edge(g, n, v) :: Seen(mid, v)
    ensures Settled(g, vis, mid[n := Black])
  {
    hide Edge;
    var after := mid[n := Black];
    forall m | Seen(vis, m) ensures Seen(after, m) { assert Seen(vis[n := Grey], m); }
    forall u, v | !Seen(vis, u) && Seen(after, u) && Edge(g, u, v) ensures Seen(after, v) {
      assert u == n || (!Seen(vis[n := Grey], u) && Seen(mid, u));
    }
  }

  lemma {:induction false} SymSettled(g: Graph, vis: Colours, s: nat, ignoreChoice: bool)
    requires Paired(g) && (ignoreChoice && s in g.choiceOf ==> Seen(vis, C(g.choiceOf[s])))
    ensures var r := VisitSym(g, vis, s, ignoreChoice); r.out.Clean? ==> Settled(g, vis, r.vis) && Seen(r.vis, S(s))
    decreases Unvisited(vis), 0, 0
  {
    hide Paired, VisitDependents, VisitChoice;
    if ColourOf(vis, S(s)) == White {
      assert S(s) in Unvisited(vis) && S(s) !in Unvisited(vis[S(s) := Grey]);
      DependentsSettled(g, vis[S(s) := Grey], s, 0);
      var d := VisitDependents(g, vis[S(s) := Grey], s, 0);
      if d.out.Clean? {
        if s in g.choiceOf && !ignoreChoice { ChoiceSettled(g, d.vis, g.choiceOf[s], Some(s)); }
        var r := VisitSym(g, vis, s, ignoreChoice);
        if r.out.Clean? {
          hide VisitSym;
          assert Settled(g, d.vis, r.vis);
          SettledOn(g, vis[S(s) := Grey], d.vis, r.vis);
        }
      }
    }
  }

  lemma {:induction false} NodeSettled(g: Graph, vis: Colours, n: Node)
    requires Paired(g)
    ensures var r := Visit(g, vis, n); r.out.Clean? ==> Settled(g, vis, r.vis) && Seen(r.vis, n)
    decreases Unvisited(vis), 1, 0
  {
    match n
    case C(c) => ChoiceSettled(g, vis, c, None);
    case S(t) => SymSettled(g, vis, t, false);
  }

  lemma {:induction false} DependentsSettled(g: Graph, vis: Colours, s: nat, k: nat)
    requires Paired(g) && k <= |g.D(s)|
    ensures var r := VisitDependents(g, vis, s, k);
            r.out.Clean? ==> Settled(g, vis, r.vis) && forall j | k <= j < |g.D(s)| :: Seen(r.vis, g.D(s)[j])
    decreases Unvisited(vis), 2, |g.D(s)| - k
  {
    hide Visit, Paired, Edge;
    if k < |g.D(s)| {
      NodeSettled(g, vis, g.D(s)[k]);
      var r := Visit(g, vis, g.D(s)[k]);
      if r.out.Clean? { DependentsSettled(g, r.vis, s, k + 1); }
    }
  }

  lemma {:induction false} ChoiceSettled(g: Graph, vis: Colours, c: nat, skip: Option<nat>)
    requires Paired(g) && (skip.Some? ==> Seen(vis, S(skip.value)))
    ensures var r := VisitChoice(g, vis, c, skip); r.out.Clean? ==> Settled(g, vis, r.vis) && Seen(r.vis, C(c))
    decreases Unvisited(vis), 0, 0
  {
    hide VisitMembers, Paired;
    if ColourOf(vis, C(c)) == White {
      assert C(c) in Unvisited(vis) && C(c) !in Unvisited(vis[C(c) := Grey]);
      MembersSettled(g, vis[C(c) := Grey], c, skip, 0);
      var r := VisitMembers(g, vis[C(c) := Grey], c, skip, 0);
      if r.out.Clean? {
        forall v | Edge(g, C(c), v) ensures Seen(r.vis, v) {
          var j :| 0 <= j < |g.M(c)| && g.M(c)[j] == v.sym;
        }
        NodeDone(g, vis, r.vis, C(c));
      }
    }
  }

  lemma {:induction false} MembersSettled(g: Graph, vis: Colours, c: nat, skip: Option<nat>, k: nat)
    requires Paired(g) && k <= |g.M(c)| && Seen(vis, C(c)) && (skip.Some? ==> Seen(vis, S(skip.value)))
    ensures var r := VisitMembers(g, vis, c, skip, k);
            r.out.Clean? ==> Settled(g, vis, r.vis) && forall j | k <= j < |g.M(c)| :: Seen(r.vis, S(g.M(c)[j]))
    decreases Unvisited(vis), 2, |g.M(c)| - k
  {
    if k < |g.M(c)| {
      assert g.M(c)[k] in g.M(c);
      assert g.M(c)[k] in g.choiceOf && g.choiceOf[g.M(c)[k]] == c;
      hide VisitSym, Paired, Settled;
      if Some(g.M(c)[k]) == skip {
        MembersSettled(g, vis, c, skip, k + 1);
        if VisitMembers(g, vis, c, skip, k + 1).out.Clean? {
          SettledSeen(g, vis, VisitMembers(g, vis, c, skip, k + 1).vis);
        }
      } else {
        SymSettled(g, vis, g.M(c)[k], true);
        var r := VisitSym(g, vis, g.M(c)[k], true);
        if r.out.Clean? {
          SettledSeen(g, vis, r.vis);
          MembersSettled(g, r.vis, c, skip, k + 1);
          var t := VisitMembers(g, r.vis, c, skip, k + 1);
          if t.out.Clean? {
            SettledSeen(g, r.vis, t.vis);
            SettledOn(g, vis, r.vis, t.vis);
          }
        }
      }
    } else {
      SettledSelf(g, vis);
    }
  }

  /** A clean visit of a symbol visits its dependents, its choice, and through it the
      other symbols of that choice. */
  lemma ChoiceEntered(g: Graph, vis: Colours, s: nat)
    requires Paired(g) && ColourOf(vis, S(s)) == White && VisitSym(g, vis, s, false).out.Clean?
    ensures var after := VisitSym(g, vis, s, false).vis;
            && (forall n | n in g.D(s) :: Seen(after, n))
            && (s in g.choiceOf ==>
                  && Seen(after, C(g.choiceOf[s]))
                  && (!Seen(vis, C(g.choiceOf[s])) ==> forall m | m in g.M(g.choiceOf[s]) :: Seen(after, S(m))))
  {
    hide VisitSym, Paired;
    var after := VisitSym(g, vis, s, false).vis;
    SymSettled(g, vis, s, false);
    forall n | n in g.D(s) ensures Seen(after, n) { assert Edge(g, S(s), n); }
    if s in g.choiceOf {
      var c := g.choiceOf[s];
      assert Edge(g, S(s), C(c));
      forall m | m in g.M(c) && !Seen(vis, C(c)) ensures Seen(after, S(m)) { assert Edge(g, C(c), S(m)); }
    }
  }

  // --------------------------------------------------- symbols of one choice meet

  function OnTheWay(vis: Colours): set<Node> { set n | n in vis && vis[n] == Grey }

  /** A clean visit leaves everything that is on the way there. */
  lemma GreyStays(g: Graph, vis: Colours, s: nat, ignoreChoice: bool, n: Node)
    requires ColourOf(vis, n) == Grey && VisitSym(g, vis, s, ignoreChoice).out.Clean?
    ensures ColourOf(VisitSym(g, vis, s, ignoreChoice).vis, n) == Grey
  {
    hide VisitSym;
    SymHonest(g, vis, s, ignoreChoice, OnTheWay(vis));
  }

  /** A choice that has a symbol on the way cannot be entered from elsewhere. */
  lemma {:induction false} MembersMeet(g: Graph, vis: Colours, c: nat, skip: Option<nat>, k: nat, j: nat)
    requires k <= j < |g.M(c)| && Some(g.M(c)[j]) != skip && ColourOf(vis, S(g.M(c)[j])) == Grey
    ensures !VisitMembers(g, vis, c, skip, k).out.Clean?
    decreases j - k
  {
    if k < j {
      if Some(g.M(c)[k]) == skip {
        MembersMeet(g, vis, c, skip, k + 1, j);
      } else if VisitSym(g, vis, g.M(c)[k], true).out.Clean? {
        hide VisitSym;
        GreyStays(g, vis, g.M(c)[k], true, S(g.M(c)[j]));
        MembersMeet(g, VisitSym(g, vis, g.M(c)[k], true).vis, c, skip, k + 1, j);
      }
    }
  }

  lemma ChoiceMeets(g: Graph, vis: Colours, c: nat, skip: Option<nat>, m: nat)
    requires m in g.M(c) && Some(m) != skip && ColourOf(vis, S(m)) == Grey && ColourOf(vis, C(c)) == White
    ensures !VisitChoice(g, vis, c, skip).out.Clean?
  {
    hide VisitMembers;
    var j :| 0 <= j < |g.M(c)| && g.M(c)[j] == m;
    MembersMeet(g, vis[C(c) := Grey], c, skip, 0, j);
  }

  /** While symbol `m` of choice `c` is on the way, neither the choice nor another of
      its symbols is visited. */
  ghost predicate Quiet(g: Graph, vis: Colours, after: Colours, m: nat, c: nat) {
    && ColourOf(after, S(m)) == Grey && ColourOf(after, C(c)) == White
    && forall x | x in g.M(c) && ColourOf(vis, S(x)) == White :: ColourOf(after, S(x)) == White
  }

  ghost predicate Waiting(g: Graph, vis: Colours, m: nat, c: nat) {
    Paired(g) && m in g.M(c) && ColourOf(vis, S(m)) == Grey && ColourOf(vis, C(c)) == White
  }

  lemma {:induction false} SymQuiet(g: Graph, vis: Colours, s: nat, ignoreChoice: bool, m: nat, c: nat)
    requires Waiting(g, vis, m, c) && (ignoreChoice ==> s !in g.M(c))
    ensures var r := VisitSym(g, vis, s, ignoreChoice); r.out.Clean? ==> Quiet(g, vis, r.vis, m, c)
    decreases Unvisited(vis), 0, 0
  {
    hide VisitDependents, VisitChoice;
    if ColourOf(vis, S(s)) == White {
      assert S(s) in Unvisited(vis) && S(s) !in Unvisited(vis[S(s) := Grey]);
      DependentsQuiet(g, vis[S(s) := Grey], s, 0, m, c);
      var d := VisitDependents(g, vis[S(s) := Grey], s, 0);
      if d.out.Clean? && s in g.choiceOf && !ignoreChoice {
        if g.choiceOf[s] == c {
          ChoiceMeets(g, d.vis, c, Some(s), m);
        } else {
          ChoiceQuiet(g, d.vis, g.choiceOf[s], Some(s), m, c);
        }
      }
    }
  }

  lemma {:induction false} NodeQuiet(g: Graph, vis: Colours, n: Node, m: nat, c: nat)
    requires Waiting(g, vis, m, c)
    ensures var r := Visit(g, vis, n); r.out.Clean? ==> Quiet(g, vis, r.vis, m, c)
    decreases Unvisited(vis), 1, 0
  {
    match n
    case C(h) => if h == c { ChoiceMeets(g, vis, c, None, m); } else { ChoiceQuiet(g, vis, h, None, m, c); }
    case S(t) => SymQuiet(g, vis, t, false, m, c);
  }

  lemma {:induction false} DependentsQuiet(g: Graph, vis: Colours, s: nat, k: nat, m: nat, c: nat)
    requires Waiting(g, vis, m, c) && k <= |g.D(s)|
    ensures var r := VisitDependents(g, vis, s, k); r.out.Clean? ==> Quiet(g, vis, r.vis, m, c)
    decreases Unvisited(vis), 2, |g.D(s)| - k
  {
    hide Visit, Paired;
    if k < |g.D(s)| {
      NodeQuiet(g, vis, g.D(s)[k], m, c);
      var r := Visit(g, vis, g.D(s)[k]);
      if r.out.Clean? { DependentsQuiet(g, r.vis, s, k + 1, m, c); }
    }
  }

  lemma {:induction false} ChoiceQuiet(g: Graph, vis: Colours, h: nat, skip: Option<nat>, m: nat, c: nat)
    requires Waiting(g, vis, m, c) && h != c
    ensures var r := VisitChoice(g, vis, h, skip); r.out.Clean? ==> Quiet(g, vis, r.vis, m, c)
    decreases Unvisited(vis), 0, 0
  {
    hide VisitMembers, Paired;
    if ColourOf(vis, C(h)) == White {
      assert C(h) in Unvisited(vis) && C(h) !in Unvisited(vis[C(h) := Grey]);
      MembersQuiet(g, vis[C(h) := Grey], h, skip, 0, m, c);
    }
  }

  lemma {:induction false} MembersQuiet(g: Graph, vis: Colours, h: nat, skip: Option<nat>, k: nat, m: nat, c: nat)
    requires Waiting(g, vis, m, c) && h != c && k <= |g.M(h)|
    ensures var r := VisitMembers(g, vis, h, skip, k); r.out.Clean? ==> Quiet(g, vis, r.vis, m, c)
    decreases Unvisited(vis), 2, |g.M(h)| - k
  {
    hide VisitSym;
    if k < |g.M(h)| {
      assert g.M(h)[k] in g.M(h) && g.choiceOf[g.M(h)[k]] == h;
      if Some(g.M(h)[k]) == skip {
        MembersQuiet(g, vis, h, skip, k + 1, m, c);
      } else {
        SymQuiet(g, vis, g.M(h)[k], true, m, c);
        var r := VisitSym(g, vis, g.M(h)[k], true);
        if r.out.Clean? { MembersQuiet(g, r.vis, h, skip, k + 1, m, c); }
      }
    }
  }

  /** Each symbol is among the dependents of the one before, and none has been visited. */
  ghost predicate WhiteChain(g: Graph, vis: Colours, chain: seq<nat>) {
    && |chain| > 1 && (forall i | 0 <= i < |chain| :: ColourOf(vis, S(chain[i])) == White)
    && forall i | 0 <= i < |chain| - 1 :: Dependent(g, chain[i], chain[i + 1])
  }

  predicate Dependent(g: Graph, s: nat, t: nat) { S(t) in g.D(s) }

  lemma {:induction false} ChainSeen(g: Graph, vis: Colours, chain: seq<nat>, i: nat)
    requires Paired(g) && WhiteChain(g, vis, chain) && 0 < i < |chain|
    requires VisitDependents(g, vis[S(chain[0]) := Grey], chain[0], 0).out.Clean?
    ensures Seen(VisitDependents(g, vis[S(chain[0]) := Grey], chain[0], 0).vis, S(chain[i]))
  {
    hide VisitDependents, Paired;
    var first := vis[S(chain[0]) := Grey];
    DependentsSettled(g, first, chain[0], 0);
    assert Dependent(g, chain[i - 1], chain[i - 1 + 1]);
    if chain[i - 1] != chain[0] {
      ChainSeen(g, vis, chain, i - 1);
      assert Edge(g, S(chain[i - 1]), S(chain[i]));
    }
  }

  /** Visiting a symbol of a choice that has not been entered raises if another symbol
      of the choice depends on it, over any chain of unvisited symbols. */
  lemma SiblingFound(g: Graph, vis: Colours, chain: seq<nat>, c: nat)
    requires Paired(g) && WhiteChain(g, vis, chain) && ColourOf(vis, C(c)) == White
    requires chain[0] in g.M(c) && chain[|chain| - 1] in g.M(c) && chain[0] != chain[|chain| - 1]
    ensures !VisitSym(g, vis, chain[0], false).out.Clean?
  {
    var m, x := chain[0], chain[|chain| - 1];
    var first := vis[S(m) := Grey];
    var d := VisitDependents(g, first, m, 0);
    hide VisitDependents, VisitChoice, Paired;
    if d.out.Clean? {
      ChainSeen(g, vis, chain, |chain| - 1);
      DependentsQuiet(g, first, m, 0, m, c);
      assert false;
    }
  }

  /** If the first symbol is in a choice, and another symbol of that choice depends on
      it over any chain of symbols, the whole search raises. */
  lemma FirstSiblingFound(g: Graph, vis: Colours, chain: seq<nat>, c: nat)
    requires Closed(g) && Paired(g) && Fresh(g, vis) && |chain| > 1 && chain[0] == 0
    requires forall i | 0 <= i < |chain| - 1 :: Dependent(g, chain[i], chain[i + 1])
    requires 0 in g.M(c) && chain[|chain| - 1] in g.M(c) && chain[|chain| - 1] != 0
    ensures VisitAll(g, vis, 0).out.Raised? && IsLoop(g, VisitAll(g, vis, 0).out.loop)
  {
    hide VisitSym, IsLoop, Paired;
    forall i | 0 <= i < |chain| ensures ColourOf(vis, S(chain[i])) == White {
      assert i < |chain| - 1 ==> Dependent(g, chain[i], chain[i + 1]);
      assert Has(g, S(chain[i]));
    }
    assert Has(g, C(c));
    SiblingFound(g, vis, chain, c);
    ReportedIsLoop(g, vis, 0);
  }

  const FOUND := Graph([[S(1)], [S(2)], []], map[0 := 0, 2 := 0], [[0, 2]])

  /** Symbol 2 of a choice depends on 1, which depends on symbol 0 of the same choice. */
  lemma LoopFound(vis: Colours)
    requires Fresh(FOUND, vis)
    ensures VisitAll(FOUND, vis, 0).out.Raised?
  {
    var g := FOUND;
    assert g.D(0) == [S(1)] && g.D(1) == [S(2)] && g.M(0) == [0, 2];
    assert Dependent(g, 0, 1) && Dependent(g, 1, 2);
    assert Closed(g) && Paired(g);
    var chain := [0, 1, 2];
    forall i | 0 <= i < |chain| - 1 ensures Dependent(g, chain[i], chain[i + 1]) {}
    hide VisitAll, IsLoop, Closed, Paired, Fresh, Dependent;
    FirstSiblingFound(g, vis, chain, 0);
  }
}
