/** Dependency loop detection: the three-colour depth-first search over the
    `_dependents` graph that runs once all symbols are known. */
module DepLoop {
  import opened Wrappers

  datatype Node = S(sym: nat) | C(choice: nat)

  /** `dependents[s]` lists what depends on symbol s; `choiceOf` and `members` tie
      choices to their symbols. */
  datatype Graph = Graph(dependents: seq<seq<Node>>, choiceOf: map<nat, nat>, members: seq<seq<nat>>) {
    function D(s: nat): seq<Node> { if s < |dependents| then dependents[s] else [] }
    function M(c: nat): seq<nat> { if c < |members| then members[c] else [] }
  }

  /** `v` depends on `u`: it is a dependent, or the choice of a choice symbol, or a
      symbol of a choice. */
  predicate Edge(g: Graph, u: Node, v: Node) {
    match u
    case S(s) => v in g.D(s) || (v.C? && s in g.choiceOf && g.choiceOf[s] == v.choice)
    case C(c) => v.S? && v.sym in g.M(c)
  }

  /** Each element depends on the next one: the form in which a loop is collected
      on the way back through the calls. */
  predicate DependsChain(g: Graph, loop: seq<Node>) {
    |loop| > 0 && forall i | 0 <= i < |loop| - 1 :: Edge(g, loop[i + 1], loop[i])
  }

  /** A dependency that is written down, and not just that of symbols and choices
      on each other. */
  predicate Written(g: Graph, u: Node, v: Node) { u.S? && v in g.D(u.sym) }

  predicate HasWritten(g: Graph, loop: seq<Node>) {
    exists i :: 0 <= i < |loop| - 1 && Written(g, loop[i + 1], loop[i])
  }

  /** A real cycle: the last element depends on the first again, and it is not made
      up of a choice and its symbols alone. */
  predicate IsLoop(g: Graph, loop: seq<Node>) {
    && DependsChain(g, loop) && Edge(g, loop[0], loop[|loop| - 1])
    && (HasWritten(g, loop) || Written(g, loop[0], loop[|loop| - 1]))
  }

  // --------------------------------------------------------------- the search

  /** What a call hands back: nothing, the part of a loop collected so far, or
      the whole loop with the error it is raised with. */
  datatype Outcome = Clean | Partial(loop: seq<Node>) | Raised(loop: seq<Node>)

  /** `_visited`: not yet, on the way, or done. */
  datatype Colour = White | Grey | Black
  type Colours = map<Node, Colour>

  function ColourOf(vis: Colours, n: Node): Colour { if n in vis then vis[n] else Black }

  datatype Search = Search(vis: Colours, out: Outcome)

  function Unvisited(vis: Colours): set<Node> { set n | n in vis && vis[n] == White }

  /** _found_dep_loop(): one more element of the loop, or the end of it. */
  function Found(out: Outcome, current: Node): Outcome {
    match out
    case Partial(loop) => if loop == [] || current != loop[0] then Partial(loop + [current]) else Raised(loop)
    case _ => out
  }

  function VisitSym(g: Graph, vis: Colours, s: nat, ignoreChoice: bool): (r: Search)
    ensures Unvisited(r.vis) <= Unvisited(vis)
    decreases Unvisited(vis), 0, 0
  {
    match ColourOf(vis, S(s))
    case White =>
      assert S(s) in Unvisited(vis) && S(s) !in Unvisited(vis[S(s) := Grey]);
      var d := VisitDependents(g, vis[S(s) := Grey], s, 0);
      if !d.out.Clean? then d
      else if s !in g.choiceOf || ignoreChoice then Search(d.vis[S(s) := Black], Clean)
      else
        var c := VisitChoice(g, d.vis, g.choiceOf[s], Some(s));
        if c.out.Clean? then Search(c.vis[S(s) := Black], Clean) else Search(c.vis, Found(c.out, S(s)))
    case Black => Search(vis, Clean)
    case Grey => Search(vis, Partial([S(s)]))
  }

  function Visit(g: Graph, vis: Colours, n: Node): (r: Search)
    ensures Unvisited(r.vis) <= Unvisited(vis)
    decreases Unvisited(vis), 1, 0
  {
    match n case C(c) => VisitChoice(g, vis, c, None) case S(t) => VisitSym(g, vis, t, false)
  }

  function VisitDependents(g: Graph, vis: Colours, s: nat, k: nat): (r: Search)
    requires k <= |g.D(s)|
    ensures Unvisited(r.vis) <= Unvisited(vis)
    decreases Unvisited(vis), 2, |g.D(s)| - k
  {
    if k == |g.D(s)| then Search(vis, Clean)
    else
      var r := Visit(g, vis, g.D(s)[k]);
      if r.out.Clean? then VisitDependents(g, r.vis, s, k + 1) else Search(r.vis, Found(r.out, S(s)))
  }

  function VisitChoice(g: Graph, vis: Colours, c: nat, skip: Option<nat>): (r: Search)
    ensures Unvisited(r.vis) <= Unvisited(vis)
    decreases Unvisited(vis), 0, 0
  {
    match ColourOf(vis, C(c))
    case White =>
      assert C(c) in Unvisited(vis) && C(c) !in Unvisited(vis[C(c) := Grey]);
      var m := VisitMembers(g, vis[C(c) := Grey], c, skip, 0);
      if m.out.Clean? then Search(m.vis[C(c) := Black], Clean) else m
    case Black => Search(vis, Clean)
    case Grey => Search(vis, Partial([C(c)]))
  }

  function VisitMembers(g: Graph, vis: Colours, c: nat, skip: Option<nat>, k: nat): (r: Search)
    requires k <= |g.M(c)|
    ensures Unvisited(r.vis) <= Unvisited(vis)
    decreases Unvisited(vis), 2, |g.M(c)| - k
  {
    if k == |g.M(c)| then Search(vis, Clean)
    else if Some(g.M(c)[k]) == skip then VisitMembers(g, vis, c, skip, k + 1)
    else
      var r := VisitSym(g, vis, g.M(c)[k], true);
      if r.out.Clean? then VisitMembers(g, r.vis, c, skip, k + 1) else Search(r.vis, Found(r.out, C(c)))
  }

  /** The calls for all symbols, from `s` on. */
  function VisitAll(g: Graph, vis: Colours, s: nat): Search
    requires s <= |g.dependents|
    decreases |g.dependents| - s
  {
    if s == |g.dependents| then Search(vis, Clean)
    else
      var r := VisitSym(g, vis, s, false);
      if r.out.Clean? then VisitAll(g, r.vis, s + 1) else r
  }

  // ---------------------------------------------------- what it reports is real

  /** The nodes being visited are those on the call stack. */
  ghost predicate Open(vis: Colours, stack: set<Node>) {
    forall n :: ColourOf(vis, n) == Grey <==> n in stack
  }

  /** A visit of `n` from the given stack either found nothing and left the stack as
      it was, or has part of a loop back to the stack, or a whole one. A part without
      a written dependency has at most the choice and two of its symbols. */
  ghost predicate Honest(g: Graph, r: Search, stack: set<Node>, n: Node) {
    match r.out
    case Clean => Open(r.vis, stack)
    case Partial(loop) => DependsChain(g, loop) && loop[0] in stack && loop[|loop| - 1] == n
    case Raised(loop) => IsLoop(g, loop)
  }

  /** What a part of a loop that came through a choice looks like. */
  ghost predicate Short(g: Graph, out: Outcome, n: Node) {
    out.Partial? ==> out.loop == [n] || HasWritten(g, out.loop)
  }

  ghost predicate ShortChoice(g: Graph, out: Outcome, c: nat, skip: Option<nat>) {
    out.Partial? ==>
      || out.loop == [C(c)] || HasWritten(g, out.loop)
      || (|out.loop| == 2 && out.loop[0].S? && Some(out.loop[0].sym) != skip && out.loop[1] == C(c))
  }

  lemma HasWrittenMore(g: Graph, loop: seq<Node>, n: Node)
    requires HasWritten(g, loop)
    ensures HasWritten(g, loop + [n])
  {
    var i :| 0 <= i < |loop| - 1 && Written(g, loop[i + 1], loop[i]);
    assert Written(g, (loop + [n])[i + 1], (loop + [n])[i]);
  }

  /** On the way back over a written dependency. */
  lemma FoundWritten(g: Graph, r: Search, stack: set<Node>, s: nat, m: Node)
    requires Honest(g, r, stack + {S(s)}, m) && !r.out.Clean? && m in g.D(s)
    ensures var f := Search(r.vis, Found(r.out, S(s))); Honest(g, f, stack, S(s)) && Short(g, f.out, S(s))
  {
    hide HasWritten;
    if r.out.Partial? {
      var l := r.out.loop;
      assert Written(g, (l + [S(s)])[|l|], (l + [S(s)])[|l| - 1]);
      WrittenAt(g, l + [S(s)], |l| - 1);
    }
  }

  lemma WrittenAt(g: Graph, loop: seq<Node>, i: nat)
    requires i < |loop| - 1 && Written(g, loop[i + 1], loop[i])
    ensures HasWritten(g, loop)
  {
  }

  /** On the way back over any other: the loop cannot close there. */
  lemma FoundOther(g: Graph, r: Search, stack: set<Node>, n: Node, m: Node)
    requires Honest(g, r, stack + {n}, m) && !r.out.Clean? && Edge(g, n, m)
    requires r.out.Partial? ==> HasWritten(g, r.out.loop) || r.out.loop[0] != n
    ensures Honest(g, Search(r.vis, Found(r.out, n)), stack, n)
    ensures r.out.Partial? && HasWritten(g, r.out.loop) ==> Short(g, Found(r.out, n), n)
  {
    hide Edge, HasWritten;
    if r.out.Partial? && HasWritten(g, r.out.loop) { HasWrittenMore(g, r.out.loop, n); }
  }

  lemma {:induction false} SymHonest(g: Graph, vis: Colours, s: nat, ignoreChoice: bool, stack: set<Node>)
    requires Open(vis, stack)
    ensures var r := VisitSym(g, vis, s, ignoreChoice);
            Honest(g, r, stack, S(s)) && (ignoreChoice ==> Short(g, r.out, S(s)))
    decreases Unvisited(vis), 0, 0
  {
    hide VisitDependents, VisitChoice;
    if ColourOf(vis, S(s)) == White {
      assert S(s) in Unvisited(vis) && S(s) !in Unvisited(vis[S(s) := Grey]);
      DependentsHonest(g, vis[S(s) := Grey], s, 0, stack);
      var d := VisitDependents(g, vis[S(s) := Grey], s, 0);
      if d.out.Clean? && s in g.choiceOf && !ignoreChoice {
        ChoiceHonest(g, d.vis, g.choiceOf[s], Some(s), stack + {S(s)});
        var c := VisitChoice(g, d.vis, g.choiceOf[s], Some(s));
        hide HasWritten, DependsChain;
        if !c.out.Clean? { FoundOther(g, c, stack, S(s), C(g.choiceOf[s])); }
      }
    }
  }

  lemma {:induction false} NodeHonest(g: Graph, vis: Colours, n: Node, stack: set<Node>)
    requires Open(vis, stack)
    ensures Honest(g, Visit(g, vis, n), stack, n)
    decreases Unvisited(vis), 1, 0
  {
    match n
    case C(c) => ChoiceHonest(g, vis, c, None, stack);
    case S(t) => SymHonest(g, vis, t, false, stack);
  }

  lemma {:induction false} DependentsHonest(g: Graph, vis: Colours, s: nat, k: nat, stack: set<Node>)
    requires k <= |g.D(s)| && Open(vis, stack + {S(s)}) && S(s) !in stack
    ensures var r := VisitDependents(g, vis, s, k);
            && Honest(g, r, if r.out.Clean? then stack + {S(s)} else stack, S(s))
            && Short(g, r.out, S(s))
    decreases Unvisited(vis), 2, |g.D(s)| - k
  {
    hide Visit, DependsChain, HasWritten;
    if k < |g.D(s)| {
      NodeHonest(g, vis, g.D(s)[k], stack + {S(s)});
      var r := Visit(g, vis, g.D(s)[k]);
      if r.out.Clean? {
        DependentsHonest(g, r.vis, s, k + 1, stack);
      } else {
        FoundWritten(g, r, stack, s, g.D(s)[k]);
      }
    }
  }

  lemma {:induction false} ChoiceHonest(g: Graph, vis: Colours, c: nat, skip: Option<nat>, stack: set<Node>)
    requires Open(vis, stack)
    ensures var r := VisitChoice(g, vis, c, skip); Honest(g, r, stack, C(c)) && ShortChoice(g, r.out, c, skip)
    decreases Unvisited(vis), 0, 0
  {
    hide VisitMembers, HasWritten;
    if ColourOf(vis, C(c)) == White {
      assert C(c) in Unvisited(vis) && C(c) !in Unvisited(vis[C(c) := Grey]);
      MembersHonest(g, vis[C(c) := Grey], c, skip, 0, stack);
    }
  }

  lemma {:induction false} MembersHonest(g: Graph, vis: Colours, c: nat, skip: Option<nat>, k: nat, stack: set<Node>)
    requires k <= |g.M(c)| && Open(vis, stack + {C(c)}) && C(c) !in stack
    ensures var r := VisitMembers(g, vis, c, skip, k);
            && Honest(g, r, if r.out.Clean? then stack + {C(c)} else stack, C(c))
            && ShortChoice(g, r.out, c, skip)
    decreases Unvisited(vis), 2, |g.M(c)| - k
  {
    hide VisitSym, DependsChain, HasWritten;
    if k < |g.M(c)| {
      if Some(g.M(c)[k]) == skip {
        MembersHonest(g, vis, c, skip, k + 1, stack);
      } else {
        SymHonest(g, vis, g.M(c)[k], true, stack + {C(c)});
        var r := VisitSym(g, vis, g.M(c)[k], true);
        if r.out.Clean? {
          MembersHonest(g, r.vis, c, skip, k + 1, stack);
        } else {
          FoundOther(g, r, stack, C(c), S(g.M(c)[k]));
        }
      }
    }
  }

  lemma TopLevel(g: Graph, r: Search, n: Node)
    requires Honest(g, r, {}, n)
    ensures if r.out.Clean? then Open(r.vis, {}) else r.out.Raised? && IsLoop(g, r.out.loop)
  {
  }

  /** With choices or without, whatever is reported is a real cycle. */
  lemma {:induction false} ReportedIsLoop(g: Graph, vis: Colours, s: nat)
    requires s <= |g.dependents| && Open(vis, {})
    ensures var out := VisitAll(g, vis, s).out; out.Clean? || (out.Raised? && IsLoop(g, out.loop))
    decreases |g.dependents| - s
  {
    if s < |g.dependents| {
      hide VisitSym, Unvisited, Honest, IsLoop, Open;
      SymHonest(g, vis, s, false, {});
      TopLevel(g, VisitSym(g, vis, s, false), S(s));
      if VisitSym(g, vis, s, false).out.Clean? { ReportedIsLoop(g, VisitSym(g, vis, s, false).vis, s + 1); }
    }
  }

  // ------------------------------------------------ what a clean search rules out

  predicate Has(g: Graph, n: Node) {
    match n case S(s) => s < |g.dependents| case C(c) => c < |g.members|
  }

  /** Everything mentioned is there, and choice symbols are symbols of their choice. */
  ghost predicate Closed(g: Graph) {
    && (forall s: nat, n: Node | n in g.D(s) :: Has(g, n))
    && (forall c: nat, m: nat | m in g.M(c) :: m < |g.dependents|)
    && (forall s | s in g.choiceOf :: g.choiceOf[s] < |g.members| && s in g.M(g.choiceOf[s]))
  }

  /** The dependencies that count whichever way the search goes: all but those of a
      choice on its symbols. */
  predicate Followed(g: Graph, u: Node, v: Node) {
    match u
    case S(s) => v in g.D(s)
    case C(c) => v.S? && v.sym in g.M(c)
  }

  type Rank = map<Node, nat>

  /** What depends on something ranks strictly lower. */
  ghost predicate Ranked(g: Graph, rank: Rank) {
    && (forall s | 0 <= s < |g.dependents| :: S(s) in rank)
    && (forall u, v | u in rank && Followed(g, u, v) :: v in rank && rank[v] < rank[u])
  }

  /** The dependency of symbol `x` on its choice `c`, while `x` is not yet done. */
  datatype Hole = NoHole | Hole(c: nat, x: nat) {
    predicate Fits(u: Node, v: Node) { Hole? && u == C(c) && v == S(x) }
  }

  /** What is done is ranked above all that depends on it, which is done too. */
  ghost predicate Finished(g: Graph, vis: Colours, rank: Rank, clock: nat, hole: Hole) {
    && (forall n | Has(g, n) :: n in vis && (vis[n] == Black <==> n in rank))
    && (forall n | n in rank :: Has(g, n) && rank[n] < clock)
    && (forall u, v | u in rank && Followed(g, u, v) :: (v in rank && rank[v] < rank[u]) || hole.Fits(u, v))
  }

  ghost predicate Extends(before: Rank, after: Rank) { forall n | n in before :: n in after }

  lemma Paint(g: Graph, vis: Colours, rank: Rank, clock: nat, n: Node)
    requires Finished(g, vis, rank, clock, NoHole) && ColourOf(vis, n) == White
    ensures Finished(g, vis[n := Grey], rank, clock, NoHole)
  {
    hide Followed;
  }

  /** Nothing that is done has an unfinished dependent. */
  lemma NotYet(g: Graph, vis: Colours, rank: Rank, clock: nat, n: Node)
    requires Finished(g, vis, rank, clock, NoHole) && Has(g, n) && ColourOf(vis, n) != Black
    ensures n !in rank && forall u | u in rank :: !Followed(g, u, n)
  {
    hide Followed;
  }

  /** A node is done once all its dependents are, but for one symbol that entered a choice. */
  lemma Leave(g: Graph, vis: Colours, rank: Rank, clock: nat, n: Node, hole: Hole)
    requires Finished(g, vis, rank, clock, NoHole) && Has(g, n) && ColourOf(vis, n) == Grey
    requires forall v | Followed(g, n, v) :: v in rank || hole.Fits(n, v)
    ensures Finished(g, vis[n := Black], rank[n := clock], clock + 1, hole)
  {
    NotYet(g, vis, rank, clock, n);
    hide Followed;
  }

  /** A symbol that has entered its choice is done: it goes below the choice. */
  lemma LeaveTogether(g: Graph, vis: Colours, rank: Rank, clock: nat, c: nat, x: nat)
    requires Closed(g) && Finished(g, vis, rank, clock, Hole(c, x)) && C(c) in rank
    requires Has(g, S(x)) && ColourOf(vis, S(x)) == Grey
    requires forall n | n in g.D(x) :: n in rank && n != C(c)
    requires forall u | u in rank :: !Followed(g, u, C(c))
    ensures Finished(g, vis[S(x) := Black], rank[S(x) := clock][C(c) := clock + 1], clock + 2, NoHole)
  {
    var after := rank[S(x) := clock][C(c) := clock + 1];
    assert S(x) !in rank;
    forall u, v | u in after && Followed(g, u, v) ensures v in after && after[v] < after[u] {
      if u != S(x) { assert (v in rank && rank[v] < rank[u]) || (u == C(c) && v == S(x)); }
    }
  }

  lemma {:induction false} SymRanks(g: Graph, vis: Colours, s: nat, ignoreChoice: bool, stack: set<Node>, rank: Rank,
      clock: nat)
    returns (after: Rank, later: nat)
    requires Closed(g) && s < |g.dependents| && Finished(g, vis, rank, clock, NoHole) && Open(vis, stack)
    ensures var r := VisitSym(g, vis, s, ignoreChoice);
            r.out.Clean? ==>
              Finished(g, r.vis, after, later, NoHole) && Open(r.vis, stack) && Extends(rank, after) && S(s) in after
    decreases Unvisited(vis), 0, 0
  {
    hide VisitDependents, VisitChoice, Closed;
    after, later := rank, clock;
    SymHonest(g, vis, s, ignoreChoice, stack);
    if ColourOf(vis, S(s)) == White {
      var grey := vis[S(s) := Grey];
      assert S(s) in Unvisited(vis) && S(s) !in Unvisited(grey);
      Paint(g, vis, rank, clock, S(s));
      hide Finished;
      after, later := DependentsRank(g, grey, s, 0, stack + {S(s)}, rank, clock);
      var d := VisitDependents(g, grey, s, 0);
      if d.out.Clean? {
        assert ColourOf(d.vis, S(s)) == Grey;
        if s !in g.choiceOf || ignoreChoice {
          Leave(g, d.vis, after, later, S(s), NoHole);
          after, later := after[S(s) := later], later + 1;
        } else if VisitChoice(g, d.vis, g.choiceOf[s], Some(s)).out.Clean? {
          after, later := ThroughChoice(g, d.vis, s, stack + {S(s)}, after, later);
        }
      }
    }
  }

  /** A symbol goes on into its choice once its dependents are done. */
  lemma {:induction false} ThroughChoice(g: Graph, vis: Colours, s: nat, stack: set<Node>, rank: Rank, clock: nat)
    returns (after: Rank, later: nat)
    requires Closed(g) && s < |g.dependents| && s in g.choiceOf && Finished(g, vis, rank, clock, NoHole)
    requires Open(vis, stack) && S(s) in stack && forall n | n in g.D(s) :: n in rank
    requires VisitChoice(g, vis, g.choiceOf[s], Some(s)).out.Clean?
    ensures var r := VisitChoice(g, vis, g.choiceOf[s], Some(s));
            Finished(g, r.vis[S(s) := Black], after, later, NoHole) && Extends(rank, after) && S(s) in after
    decreases Unvisited(vis), 1, 0
  {
    var c := g.choiceOf[s];
    var r := VisitChoice(g, vis, c, Some(s));
    assert c < |g.members| && s in g.M(c);
    NotYet(g, vis, rank, clock, S(s));
    assert ColourOf(vis, C(c)) == White by {
      BlackChoice(g, vis, rank, clock, c, s);
      hide VisitMembers;
    }
    NotYet(g, vis, rank, clock, C(c));
    ChoiceHonest(g, vis, c, Some(s), stack);
    hide VisitChoice, Finished;
    after, later := ChoiceRanks(g, vis, c, Some(s), stack, rank, clock);
    assert ColourOf(r.vis, S(s)) == Grey;
    assert C(c) !in g.D(s);
    LeaveTogether(g, r.vis, after, later, c, s);
    after, later := after[S(s) := later][C(c) := later + 1], later + 2;
  }

  /** A choice is not done before its symbols. */
  lemma BlackChoice(g: Graph, vis: Colours, rank: Rank, clock: nat, c: nat, m: nat)
    requires Finished(g, vis, rank, clock, NoHole) && c < |g.members| && m in g.M(c) && S(m) !in rank
    ensures ColourOf(vis, C(c)) != Black
  {
    assert Has(g, C(c)) && Followed(g, C(c), S(m));
  }

  lemma {:induction false} DependentsRank(g: Graph, vis: Colours, s: nat, k: nat, stack: set<Node>, rank: Rank,
      clock: nat)
    returns (after: Rank, later: nat)
    requires Closed(g) && s < |g.dependents| && k <= |g.D(s)| && Finished(g, vis, rank, clock, NoHole)
             && Open(vis, stack)
    ensures var r := VisitDependents(g, vis, s, k);
            r.out.Clean? ==>
              && Finished(g, r.vis, after, later, NoHole) && Open(r.vis, stack) && Extends(rank, after)
              && forall j | k <= j < |g.D(s)| :: g.D(s)[j] in after
    decreases Unvisited(vis), 3, |g.D(s)| - k
  {
    hide VisitSym, VisitChoice, Finished, Open;
    after, later := rank, clock;
    if k < |g.D(s)| {
      assert Has(g, g.D(s)[k]);
      after, later := NodeRanks(g, vis, g.D(s)[k], stack, rank, clock);
      var r := Visit(g, vis, g.D(s)[k]);
      if r.out.Clean? { after, later := DependentsRank(g, r.vis, s, k + 1, stack, after, later); }
    }
  }

  lemma {:induction false} NodeRanks(g: Graph, vis: Colours, n: Node, stack: set<Node>, rank: Rank, clock: nat)
    returns (after: Rank, later: nat)
    requires Closed(g) && Has(g, n) && Finished(g, vis, rank, clock, NoHole) && Open(vis, stack)
    ensures var r := Visit(g, vis, n);
            r.out.Clean? ==>
              Finished(g, r.vis, after, later, NoHole) && Open(r.vis, stack) && Extends(rank, after) && n in after
    decreases Unvisited(vis), 2, 0
  {
    hide VisitSym, VisitChoice, Finished, Open;
    match n
    case C(c) => after, later := ChoiceRanks(g, vis, c, None, stack, rank, clock);
    case S(t) => after, later := SymRanks(g, vis, t, false, stack, rank, clock);
  }

  ghost function HoleOf(vis: Colours, c: nat, skip: Option<nat>): Hole {
    if ColourOf(vis, C(c)) == White && skip.Some? then Hole(c, skip.value) else NoHole
  }

  lemma {:induction false} ChoiceRanks(g: Graph, vis: Colours, c: nat, skip: Option<nat>, stack: set<Node>,
      rank: Rank, clock: nat)
    returns (after: Rank, later: nat)
    requires Closed(g) && c < |g.members| && Finished(g, vis, rank, clock, NoHole) && Open(vis, stack)
    ensures var r := VisitChoice(g, vis, c, skip);
            r.out.Clean? ==>
              && Finished(g, r.vis, after, later, HoleOf(vis, c, skip)) && Open(r.vis, stack) && Extends(rank, after)
              && C(c) in after
              && (ColourOf(vis, C(c)) == White ==> forall u | u in after :: !Followed(g, u, C(c)))
    decreases Unvisited(vis), 0, 0
  {
    hide VisitMembers, Closed;
    after, later := rank, clock;
    ChoiceHonest(g, vis, c, skip, stack);
    assert Has(g, C(c));
    if ColourOf(vis, C(c)) == White {
      var grey := vis[C(c) := Grey];
      assert C(c) in Unvisited(vis) && C(c) !in Unvisited(grey);
      Paint(g, vis, rank, clock, C(c));
      hide Finished;
      after, later := MembersRank(g, grey, c, skip, 0, stack + {C(c)}, rank, clock);
      var m := VisitMembers(g, grey, c, skip, 0);
      if m.out.Clean? {
        assert ColourOf(m.vis, C(c)) == Grey;
        NotYet(g, m.vis, after, later, C(c));
        Leave(g, m.vis, after, later, C(c), HoleOf(vis, c, skip));
        after, later := after[C(c) := later], later + 1;
      }
    }
  }

  lemma {:induction false} MembersRank(g: Graph, vis: Colours, c: nat, skip: Option<nat>, k: nat, stack: set<Node>,
      rank: Rank, clock: nat)
    returns (after: Rank, later: nat)
    requires Closed(g) && c < |g.members| && k <= |g.M(c)| && Finished(g, vis, rank, clock, NoHole) && Open(vis, stack)
    ensures var r := VisitMembers(g, vis, c, skip, k);
            r.out.Clean? ==>
              && Finished(g, r.vis, after, later, NoHole) && Open(r.vis, stack) && Extends(rank, after)
              && forall j | k <= j < |g.M(c)| :: Some(g.M(c)[j]) == skip || S(g.M(c)[j]) in after
    decreases Unvisited(vis), 3, |g.M(c)| - k
  {
    hide VisitSym, Finished, Open;
    after, later := rank, clock;
    if k < |g.M(c)| {
      if Some(g.M(c)[k]) == skip {
        after, later := MembersRank(g, vis, c, skip, k + 1, stack, rank, clock);
      } else {
        assert g.M(c)[k] in g.M(c);
        after, later := SymRanks(g, vis, g.M(c)[k], true, stack, rank, clock);
        var r := VisitSym(g, vis, g.M(c)[k], true);
        if r.out.Clean? { after, later := MembersRank(g, r.vis, c, skip, k + 1, stack, after, later); }
      }
    }
  }

  lemma {:induction false} AllRank(g: Graph, vis: Colours, s: nat, rank: Rank, clock: nat)
    returns (after: Rank, later: nat)
    requires Closed(g) && s <= |g.dependents| && Finished(g, vis, rank, clock, NoHole) && Open(vis, {})
    requires forall t | 0 <= t < s :: S(t) in rank
    ensures VisitAll(g, vis, s).out.Clean? ==>
            Ranked(g, after) && forall n | n in after :: Has(g, n) && after[n] < later
    decreases |g.dependents| - s
  {
    hide VisitSym, Open, Unvisited, Closed, Followed;
    after, later := rank, clock;
    if s < |g.dependents| {
      var r := VisitSym(g, vis, s, false);
      after, later := SymRanks(g, vis, s, false, {}, rank, clock);
      if r.out.Clean? {
        hide Finished, Ranked;
        after, later := AllRank(g, r.vis, s + 1, after, later);
      }
    }
  }

  /** All symbols and choices unvisited. */
  ghost predicate Fresh(g: Graph, vis: Colours) {
    && (forall n | Has(g, n) :: n in vis) && (forall n | n in vis :: vis[n] == White)
  }

  /** With choices or without: what a clean search has finished is ranked. */
  lemma CleanIsRanked(g: Graph, vis: Colours) returns (rank: Rank, clock: nat)
    requires Closed(g) && Fresh(g, vis)
    ensures VisitAll(g, vis, 0).out.Clean? ==> Ranked(g, rank) && forall n | n in rank :: Has(g, n) && rank[n] < clock
  {
    hide VisitAll, Followed, Closed;
    rank, clock := AllRank(g, vis, 0, map[], 0);
  }

  /** A cycle made of dependencies that count whichever way the search goes. */
  predicate IsFollowedLoop(g: Graph, loop: seq<Node>) {
    && |loop| > 0 && Followed(g, loop[0], loop[|loop| - 1])
    && forall i | 0 <= i < |loop| - 1 :: Followed(g, loop[i + 1], loop[i])
  }

  lemma {:induction false} RankDescends(g: Graph, rank: Rank, loop: seq<Node>, i: nat)
    requires Ranked(g, rank) && IsFollowedLoop(g, loop) && i < |loop| && loop[|loop| - 1] in rank
    ensures loop[i] in rank && rank[loop[i]] <= rank[loop[|loop| - 1]]
    decreases |loop| - i
  {
    if i < |loop| - 1 {
      RankDescends(g, rank, loop, i + 1);
      assert Followed(g, loop[i + 1], loop[i]);
    }
  }

  lemma LoopInGraph(g: Graph, loop: seq<Node>)
    requires Closed(g) && IsFollowedLoop(g, loop)
    ensures var u, v := loop[0], loop[|loop| - 1];
            if u.S? then u.sym < |g.dependents| && Has(g, v) else v.S? && v.sym < |g.dependents|
  {
  }

  lemma RankedHasNoLoop(g: Graph, rank: Rank, loop: seq<Node>)
    requires Closed(g) && Ranked(g, rank)
    ensures !IsFollowedLoop(g, loop)
  {
    if IsFollowedLoop(g, loop) {
      LoopInGraph(g, loop);
      RankDescends(g, rank, loop, 0);
      assert false;
    }
  }

  /** With choices or without, a clean search leaves no cycle of dependencies that
      are written down or that lead from a choice to its symbols. */
  lemma CleanHasNoLoop(g: Graph, vis: Colours, loop: seq<Node>)
    requires Closed(g) && Fresh(g, vis) && VisitAll(g, vis, 0).out.Clean?
    ensures !IsFollowedLoop(g, loop)
  {
    hide VisitAll, Closed, Fresh;
    var rank, _ := CleanIsRanked(g, vis);
    RankedHasNoLoop(g, rank, loop);
  }

  /** From a symbol to the choice it is in, for no other reason. */
  predicate Enters(g: Graph, u: Node, v: Node) { Edge(g, u, v) && !Followed(g, u, v) }

  predicate EntersChoice(g: Graph, loop: seq<Node>) {
    |loop| > 0 && (Enters(g, loop[0], loop[|loop| - 1]) ||
                   exists i :: 0 <= i < |loop| - 1 && Enters(g, loop[i + 1], loop[i]))
  }

  predicate NoChoices(g: Graph) { g.choiceOf == map[] && g.members == [] }

  lemma LoopIsFollowed(g: Graph, loop: seq<Node>)
    requires IsLoop(g, loop) && !EntersChoice(g, loop)
    ensures IsFollowedLoop(g, loop)
  {
    hide Edge, Followed;
    forall i | 0 <= i < |loop| - 1 ensures Followed(g, loop[i + 1], loop[i]) {
      assert Edge(g, loop[i + 1], loop[i]) && !Enters(g, loop[i + 1], loop[i]);
    }
  }

  /** On every graph the search raises only if there is a cycle, and the cycles that
      it may miss all go from a symbol to its choice; without choices it raises if
      and only if there is a cycle. */
  lemma RaisesIffLoop(g: Graph, vis: Colours)
    requires Closed(g) && Fresh(g, vis)
    ensures !VisitAll(g, vis, 0).out.Clean? ==> exists loop :: IsLoop(g, loop)
    ensures VisitAll(g, vis, 0).out.Clean? ==> forall loop | IsLoop(g, loop) :: EntersChoice(g, loop)
    ensures NoChoices(g) ==> (VisitAll(g, vis, 0).out.Clean? <==> forall loop :: !IsLoop(g, loop))
  {
    hide VisitAll, IsLoop, IsFollowedLoop;
    ReportedIsLoop(g, vis, 0);
    if VisitAll(g, vis, 0).out.Clean? {
      forall loop | IsLoop(g, loop) ensures EntersChoice(g, loop) {
        if !EntersChoice(g, loop) {
          LoopIsFollowed(g, loop);
          CleanHasNoLoop(g, vis, loop);
          assert false;
        }
      }
    }
  }

  // ---------------------------------------------------------- the search in place

  class LoopChecker {
    const graph: Graph
    var visited: Colours

    constructor (g: Graph)
      ensures graph == g && Fresh(g, visited)
    {
      graph := g;
      visited := (map s: nat | s < |g.dependents| :: S(s) := White) + (map c: nat | c < |g.members| :: C(c) := White);
    }

    /** _check_dep_loop_sym() */
    method CheckSym(s: nat, ignoreChoice: bool) returns (r: Outcome)
      modifies this
      ensures Search(visited, r) == VisitSym(graph, old(visited), s, ignoreChoice)
      decreases Unvisited(visited), 0, 0
    {
      if ColourOf(visited, S(s)) == White {
        assert S(s) in Unvisited(visited) && S(s) !in Unvisited(visited[S(s) := Grey]);
        visited := visited[S(s) := Grey];
        ghost var grey := visited;
        for k := 0 to |graph.D(s)|
          invariant VisitDependents(graph, grey, s, 0) == VisitDependents(graph, visited, s, k)
          invariant Unvisited(visited) < old(Unvisited(visited))
        {
          match graph.D(s)[k] {
            case C(c) => r := CheckChoice(c, None);
            case S(t) => r := CheckSym(t, false);
          }
          if !r.Clean? { r := Found(r, S(s)); return; }
        }
        if s in graph.choiceOf && !ignoreChoice {
          r := CheckChoice(graph.choiceOf[s], Some(s));
          if !r.Clean? { r := Found(r, S(s)); return; }
        }
        visited := visited[S(s) := Black];
        return Clean;
      }
      if ColourOf(visited, S(s)) == Black { return Clean; }
      r := Partial([S(s)]);
    }

    /** _check_dep_loop_choice() */
    method CheckChoice(c: nat, skip: Option<nat>) returns (r: Outcome)
      modifies this
      ensures Search(visited, r) == VisitChoice(graph, old(visited), c, skip)
      decreases Unvisited(visited), 0, 0
    {
      if ColourOf(visited, C(c)) == White {
        assert C(c) in Unvisited(visited) && C(c) !in Unvisited(visited[C(c) := Grey]);
        visited := visited[C(c) := Grey];
        ghost var grey := visited;
        for k := 0 to |graph.M(c)|
          invariant VisitMembers(graph, grey, c, skip, 0) == VisitMembers(graph, visited, c, skip, k)
          invariant Unvisited(visited) < old(Unvisited(visited))
        {
          if Some(graph.M(c)[k]) != skip {
            r := CheckSym(graph.M(c)[k], true);
            if !r.Clean? { r := Found(r, C(c)); return; }
          }
        }
        visited := visited[C(c) := Black];
        return Clean;
      }
      if ColourOf(visited, C(c)) == Black { return Clean; }
      r := Partial([C(c)]);
    }

    /** The calls for all defined symbols. */
    method CheckAll() returns (r: Outcome)
      requires Fresh(graph, visited)
      modifies this
      ensures Search(visited, r) == VisitAll(graph, old(visited), 0)
      ensures r.Clean? || (r.Raised? && IsLoop(graph, r.loop))
      ensures Closed(graph) && r.Clean? ==> forall loop :: !IsFollowedLoop(graph, loop)
      ensures Closed(graph) && NoChoices(graph) ==> (r.Clean? <==> forall loop :: !IsLoop(graph, loop))
    {
      ReportedIsLoop(graph, visited, 0);
      if Closed(graph) {
        if NoChoices(graph) { RaisesIffLoop(graph, visited); }
        forall loop | VisitAll(graph, visited, 0).out.Clean? ensures !IsFollowedLoop(graph, loop) {
          CleanHasNoLoop(graph, visited, loop);
        }
      }
      r := Clean;
      for s := 0 to |graph.dependents|
        invariant VisitAll(graph, old(visited), 0) == VisitAll(graph, visited, s) && r.Clean?
      {
        r := CheckSym(s, false);
        if !r.Clean? { return; }
      }
    }
  }
}
