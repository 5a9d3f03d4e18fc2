/** A condition on the dependencies as they are written, under which a passed loop
    check means that the configuration can be evaluated. */
module KconfigApart {
  import opened KconfigModel
  import opened KconfigReference
  import opened KconfigInvalidation
  import opened KconfigOrder
  import opened DepLoop
  import opened KconfigLoops

  /** `i` depends on `j`: as registered, as a tristate on MODULES, or as a choice on
      one of its symbols, unless the choice is `hush`. */
  predicate Hangs(k: Config, hush: nat, i: Item, j: Item) {
    || j in BuiltDeps(k, i)
    || (IsModules(k, j) && TypeMatters(k, i))
    || (i.Ch? && i.choice != hush && IsMember(k, j, i.choice))
  }

  ghost predicate HangsOn(k: Config, hush: nat, q: seq<Item>) {
    |q| > 0 && forall i | 0 <= i < |q| - 1 :: Hangs(k, hush, q[i], q[i + 1])
  }

  /** `i` depends on `j` in one or more steps. */
  ghost predicate Needs(k: Config, hush: nat, i: Item, j: Item) {
    exists q :: HangsOn(k, hush, q) && |q| > 1 && q[0] == i && q[|q| - 1] == j
  }

  /** Symbols of a choice do not depend on one another, a choice does not depend on
      itself, and MODULES does not depend on itself, not even as the decider of a
      type. */
  ghost predicate Apart(k: Config) {
    && (forall h: nat, m: nat, o: nat | m in k.C(h).members && o in k.C(h).members :: !Needs(k, h, Sym(m), Sym(o)))
    && (forall h: nat | h < |k.choices| :: !Needs(k, h, Ch(h), Ch(h)))
    && (forall i | IsModules(k, i) :: !Needs(k, |k.choices|, i, i))
  }

  // ------------------------------------------- reads follow the dependencies

  ghost predicate Quiet(k: Config, hush: nat, c: Cell, d: Cell) {
    SelectionRead(k, c, d) ==> c.choice != hush
  }

  lemma ReadHangs(k: Config, hush: nat, c: Cell, d: Cell)
    requires WellFormed(k) && Reads(k, c, d) && Quiet(k, hush, c, d)
    ensures OwnRead(c, d) || Hangs(k, hush, c.Owner(), d.Owner())
  {
    hide WellFormed, Reads, BuiltDeps, TypeMatters;
    ReadKinds(k, c, d);
  }

  /** A chain of reads, seen as a chain of dependencies. */
  lemma {:induction false} Project(k: Config, hush: nat, p: seq<Cell>) returns (q: seq<Item>)
    requires WellFormed(k) && Chain(k, p) && forall j | 0 <= j < |p| - 1 :: Quiet(k, hush, p[j], p[j + 1])
    ensures HangsOn(k, hush, q) && q[0] == p[0].Owner() && q[|q| - 1] == p[|p| - 1].Owner()
    ensures p[0].Vis? && |p| > 1 ==> |q| > 1
    decreases |p|
  {
    hide WellFormed, Reads, Hangs, Quiet;
    if |p| == 1 {
      q := [p[0].Owner()];
    } else {
      assert Reads(k, p[0], p[0 + 1]) && Quiet(k, hush, p[0], p[0 + 1]);
      ReadHangs(k, hush, p[0], p[1]);
      ChainPart(k, p, 1, |p|);
      var rest := p[1..|p|];
      forall j | 0 <= j < |rest| - 1 ensures Quiet(k, hush, rest[j], rest[j + 1]) {
        assert Quiet(k, hush, p[j + 1], p[j + 1 + 1]);
      }
      q := Project(k, hush, rest);
      if !OwnRead(p[0], p[1]) { q := [p[0].Owner()] + q; }
    }
  }

  lemma SelectionsApart(k: Config)
    requires WellFormed(k) && Apart(k)
    ensures MembersApart(k)
  {
    hide WellFormed, Reads, Hangs;
    forall h: nat, m: nat, o: nat | m in k.C(h).members && Reads(k, TriVal(o), Pick(h))
      ensures !Reaches(k, Vis(Sym(m)), TriVal(o))
    {
      forall p ensures !Leads(k, p, Vis(Sym(m)), TriVal(o)) {
        if Leads(k, p, Vis(Sym(m)), TriVal(o)) {
          MembersMeet(k, h, p);
          assert false;
        }
      }
    }
  }

  /** Cut where the selection is read first. */
  lemma {:induction false} MembersMeet(k: Config, h: nat, p: seq<Cell>)
    requires WellFormed(k) && Chain(k, p) && Reads(k, p[|p| - 1], Pick(h))
    requires p[0].Vis? && IsMember(k, p[0].Owner(), h)
    ensures !Apart(k)
    decreases |p|
  {
    hide WellFormed, Reads, Hangs;
    if j :| 0 < j < |p| && p[j] == Pick(h) {
      ChainPart(k, p, 0, j);
      assert Reads(k, p[j - 1], p[j - 1 + 1]);
      MembersMeet(k, h, p[0..j]);
    } else {
      SelectionReader(k, p[|p| - 1], h);
      var q := Project(k, h, p);
      var m, o := p[0].Owner().sym, p[|p| - 1].sym;
      assert Needs(k, h, Sym(m), Sym(o));
    }
  }

  lemma TypesApart(k: Config)
    requires WellFormed(k) && Apart(k)
    ensures TypesSettled(k)
  {
    hide WellFormed, Reads, Hangs;
    forall c, d | Reads(k, c, d) && UnregisteredTypeRead(k, c, d) ensures !Reaches(k, d, c) {
      forall p ensures !Leads(k, p, d, c) {
        if Leads(k, p, d, c) {
          ModulesMeet(k, p);
          assert false;
        }
      }
    }
  }

  lemma ModulesMeet(k: Config, p: seq<Cell>)
    requires WellFormed(k) && Chain(k, p) && TypeRead(k, p[|p| - 1], p[0])
    ensures !Apart(k)
  {
    hide WellFormed, Reads;
    var n := |k.choices|;
    forall c, d | SelectionRead(k, c, d) ensures c.choice < n {}
    hide SelectionRead;
    var q := Project(k, n, p);
    assert Hangs(k, n, q[|q| - 1], p[0].Owner());
    hide Hangs;
    var r := q + [p[0].Owner()];
    assert HangsOn(k, n, r);
    assert Needs(k, n, p[0].Owner(), p[0].Owner());
  }

  lemma ModesApart(k: Config)
    requires WellFormed(k) && Apart(k)
    ensures ModesSettled(k)
  {
    SelectionsApart(k);
    hide WellFormed, Hangs, Apart, MembersApart, Reads, ModeRead;
    forall c, d | Reads(k, c, d) && ModeRead(k, c, d) ensures !Reaches(k, d, c) {
      forall p ensures !Leads(k, p, d, c) {
        if Leads(k, p, d, c) {
          ModeMeets(k, p);
          assert false;
        }
      }
    }
  }

  /** Unless the circle goes through the selection, which has been excluded, it is
      one of dependencies. */
  lemma ModeMeets(k: Config, p: seq<Cell>)
    requires WellFormed(k) && MembersApart(k) && Chain(k, p)
    requires Reads(k, p[|p| - 1], p[0]) && ModeRead(k, p[|p| - 1], p[0])
    ensures !Apart(k)
  {
    hide WellFormed, Reads, MembersApart, BuiltDeps;
    var h, n := p[0].item.choice, |p| - 1;
    forall j | 0 <= j < n ensures Quiet(k, h, p[j], p[j + 1]) {
      if SelectionRead(k, p[j], p[j + 1]) {
        Rotate(k, p, j);
        SelectionRuledOut(k, p[j], p[j + 1]);
        assert false;
      }
    }
    ReadKinds(k, p[n], p[0]);
    assert Hangs(k, h, p[n].Owner(), Ch(h));
    var q := Project(k, h, p);
    hide Hangs;
    assert HangsOn(k, h, q + [Ch(h)]);
    assert Needs(k, h, Ch(h), Ch(h));
    if h >= |k.choices| { UndefinedNeedsNothing(k, h); }
  }

  lemma UndefinedNeedsNothing(k: Config, h: nat)
    requires h >= |k.choices|
    ensures !Needs(k, h, Ch(h), Ch(h))
  {
    assert k.C(h) == UNDEFINED_CHOICE && BuiltDeps(k, Ch(h)) == {};
    forall q ensures !(HangsOn(k, h, q) && |q| > 1 && q[0] == Ch(h)) {
      assert HangsOn(k, h, q) && |q| > 1 ==> Hangs(k, h, q[0], q[0 + 1]);
    }
  }

  // ------------------------------------------------------------ main results

  /** A configuration that passes the loop check, and whose dependencies are apart,
      has an order of evaluation and so one consistent valuation for every user. */
  lemma PassedCheckEvaluates(k: Config, g: Graph, vis: Colours)
    requires WellFormed(k) && MembersDefined(k) && GraphOf(k, g) && Fresh(g, vis) && VisitAll(g, vis, 0).out.Clean?
    requires Apart(k)
    ensures exists rank :: LoopFree(k, rank) && forall u | WellFormedUser(k, u) :: Solves(At(k, u, rank))
  {
    hide WellFormed, MembersDefined, GraphOf, Fresh, VisitAll, Apart, MembersApart, TypesSettled, ModesSettled,
      LoopFree, WellFormedUser, Solves, At;
    SelectionsApart(k);
    TypesApart(k);
    ModesApart(k);
    PassedCheckExact(k, g, vis);
    var rank :| LoopFree(k, rank);
    forall u | WellFormedUser(k, u) ensures Solves(At(k, u, rank)) { ReferenceSolves(k, u, rank); }
  }

  /** Without choices it is enough that MODULES does not depend on a tristate
      symbol, and is not one; in particular a bool MODULES that depends on nothing
      may have tristate symbols beside it. */
  lemma PassedCheckWithModules(k: Config, g: Graph, vis: Colours)
    requires k.choices == []
    requires WellFormed(k) && GraphOf(k, g) && Fresh(g, vis) && VisitAll(g, vis, 0).out.Clean?
    requires forall i | IsModules(k, i) :: !Needs(k, 0, i, i)
    ensures exists rank :: LoopFree(k, rank) && forall u | WellFormedUser(k, u) :: Solves(At(k, u, rank))
  {
    assert MembersDefined(k) && forall c: nat :: k.C(c) == UNDEFINED_CHOICE;
    assert Apart(k) by { hide Needs; }
    hide WellFormed, MembersDefined, GraphOf, Fresh, VisitAll, Apart;
    PassedCheckEvaluates(k, g, vis);
  }
}
