/** What a choice guarantees about the values of its members, whatever the user
    has assigned. */
module KconfigChoice {
  import opened Wrappers
  import opened KconfigModel
  import opened KconfigReference

  /** `x` has the item as a conjunct, or is n: what dependency propagation leaves. */
  predicate Conjunct(x: Expr, i: Item) {
    x == Leaf(i) || x == NO || (x.And? && (Conjunct(x.left, i) || Conjunct(x.right, i)))
  }

  /** Members are bool or tristate symbols of this choice only, with every prompt
      inside the choice; defaults are members. */
  predicate WellFormedChoice(k: Config, c: nat) {
    && k.C(c).origType.Logical()
    && (forall s | s in k.C(c).members ::
          && k.S(s).origType.Logical() && k.S(s).choice == Some(c)
          && forall i | 0 <= i < |k.S(s).prompts| :: Conjunct(k.S(s).prompts[i], Ch(c)))
    && (forall i | 0 <= i < |k.C(c).defaults| :: k.C(c).defaults[i].member in k.C(c).members)
  }

  lemma {:induction false} ConjunctBounds(e: Env, x: Expr, i: Item)
    requires Conjunct(x, i)
    ensures Eval(e, x).val <= ItemTri(e, i).val
  {
    if x.And? {
      if Conjunct(x.left, i) { ConjunctBounds(e, x.left, i); } else { ConjunctBounds(e, x.right, i); }
    }
  }

  lemma {:induction false} PromptsBounded(e: Env, ps: seq<Expr>, c: nat)
    requires forall i | 0 <= i < |ps| :: Conjunct(ps[i], Ch(c))
    ensures PromptVis(e, ps).val <= Mode(e, c).val
  {
    if ps != [] {
      PromptsBounded(e, ps[..|ps| - 1], c);
      ConjunctBounds(e, ps[|ps| - 1], Ch(c));
    }
  }

  function VisOf(e: Env, s: nat): Tri { e.v(Vis(Sym(s))).T() }
  function TriOf(e: Env, s: nat): Tri { e.v(TriVal(s)).T() }

  /** Members are visible to at most the choice's mode, and never half visible
      in y mode. */
  lemma MemberVisibility(e: Env, c: nat, s: nat)
    requires Solves(e) && WellFormedChoice(e.k, c) && s in e.k.C(c).members
    ensures VisOf(e, s) <= Mode(e, c).val
    ensures Mode(e, c).val == 2 ==> VisOf(e, s) != 1
  {
    hide PromptVis, Conjunct, Solves;
    SolvesAt(e, Vis(Sym(s)));
    PromptsBounded(e, e.k.S(s).prompts, c);
  }

  lemma MemberValue(e: Env, c: nat, s: nat)
    requires Solves(e) && WellFormedChoice(e.k, c) && s in e.k.C(c).members
    ensures TriOf(e, s) == (if VisOf(e, s) == 2 then if e.v(Pick(c)).P() == Some(s) then 2 else 0
                            else if VisOf(e, s) == 1 && e.u.TriOf(s).Some? && e.u.TriOf(s).value != 0 then 1
                            else 0)
  {
    hide Solves, WellFormedChoice;
    assert e.k.S(s).origType.Logical() && e.k.S(s).choice == Some(c) by { MemberOf(e.k, c, s); }
    SolvesAt(e, TriVal(s));
  }

  lemma MemberOf(k: Config, c: nat, s: nat)
    requires WellFormedChoice(k, c) && s in k.C(c).members
    ensures k.S(s).origType.Logical() && k.S(s).choice == Some(c)
  {
  }

  lemma SolvesAt(e: Env, c: Cell)
    requires Solves(e)
    ensures e.v(c) == Step(e, c).val
  {
    hide Step;
  }

  lemma {:induction false} FirstVisiblePick(e: Env, ms: seq<nat>)
    ensures var p := FirstVisible(e, ms).val;
            && (p.Some? ==> p.value in ms && VisOf(e, p.value) != 0)
            && (p.None? ==> forall s | s in ms :: VisOf(e, s) == 0)
  {
    if ms != [] && VisOf(e, ms[0]) == 0 { FirstVisiblePick(e, ms[1..]); }
  }

  lemma {:induction false} DefaultPickVisible(e: Env, ds: seq<ChoiceDefault>)
    ensures var p := DefaultPick(e, ds).val;
            p.Some? ==> VisOf(e, p.value) != 0 && exists i | 0 <= i < |ds| :: ds[i].member == p.value
  {
    hide Eval;
    if ds != [] {
      DefaultPickVisible(e, ds[1..]);
      var p := DefaultPick(e, ds).val;
      if p.Some? && !(Eval(e, ds[0].cond).val != 0 && VisOf(e, ds[0].member) != 0) {
        var i :| 0 <= i < |ds[1..]| && ds[1..][i].member == p.value;
        assert ds[i + 1].member == p.value;
      }
    }
  }

  /** In y mode the selection is a visible member if there is one, and none otherwise. */
  lemma SelectionVisible(e: Env, c: nat)
    requires Solves(e) && WellFormedUser(e.k, e.u) && WellFormedChoice(e.k, c)
    requires Mode(e, c).val == 2
    ensures var p := e.v(Pick(c)).P();
            && (p.Some? ==> p.value in e.k.C(c).members && VisOf(e, p.value) != 0)
            && (p.None? ==> forall s | s in e.k.C(c).members :: VisOf(e, s) == 0)
  {
    hide Mode, DefaultPick, FirstVisible, Solves;
    SolvesAt(e, Pick(c));
    DefaultPickVisible(e, e.k.C(c).defaults);
    FirstVisiblePick(e, e.k.C(c).members);
  }

  /** n mode: all members n. m mode: no member y. y mode: exactly one member y
      and the rest n, unless no member is visible, and then all are n. */
  ghost predicate ModeRespected(e: Env, c: nat) {
    var members := e.k.C(c).members;
    && (Mode(e, c).val == 0 ==> forall s | s in members :: TriOf(e, s) == 0)
    && (Mode(e, c).val == 1 ==> forall s | s in members :: TriOf(e, s) <= 1)
    && (Mode(e, c).val == 2 ==>
          && (forall s | s in members :: TriOf(e, s) != 1)
          && (forall s, t | s in members && t in members && TriOf(e, s) == 2 && TriOf(e, t) == 2 :: s == t)
          && ((exists s :: s in members && TriOf(e, s) == 2) <==> (exists s :: s in members && VisOf(e, s) != 0)))
  }

  lemma ChoiceModes(e: Env, c: nat)
    requires Solves(e) && WellFormedUser(e.k, e.u) && WellFormedChoice(e.k, c)
    ensures ModeRespected(e, c)
  {
    hide Mode, WellFormedChoice, Solves, WellFormedUser;
    forall s | s in e.k.C(c).members
      ensures VisOf(e, s) <= Mode(e, c).val && (Mode(e, c).val == 2 ==> VisOf(e, s) != 1)
      ensures TriOf(e, s) == (if VisOf(e, s) == 2 then if e.v(Pick(c)).P() == Some(s) then 2 else 0
                              else if VisOf(e, s) == 1 && e.u.TriOf(s).Some? && e.u.TriOf(s).value != 0 then 1
                              else 0)
    {
      MemberVisibility(e, c, s);
      MemberValue(e, c, s);
    }
    if Mode(e, c).val == 2 {
      SelectionVisible(e, c);
      if s :| s in e.k.C(c).members && VisOf(e, s) != 0 {
        var p := e.v(Pick(c)).P().value;
        assert TriOf(e, p) == 2;
      }
    }
  }
}
