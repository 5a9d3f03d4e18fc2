/** What the documentation of the engine promises about values, as laws of any
    consistent valuation. */
module KconfigLaws {
  import opened Wrappers
  import opened KconfigModel
  import opened KconfigReference
  import opened KconfigChoice

  function StrOf(e: Env, s: nat): string { e.v(StrVal(s)).S() }

  lemma {:induction false} PromptVisIsMax(e: Env, ps: seq<Expr>)
    ensures forall i | 0 <= i < |ps| :: Eval(e, ps[i]).val <= PromptVis(e, ps).val
    ensures PromptVis(e, ps).val != 0 ==> exists i :: 0 <= i < |ps| && Eval(e, ps[i]).val == PromptVis(e, ps).val
  {
    hide Eval;
    if ps != [] {
      var init := ps[..|ps| - 1];
      PromptVisIsMax(e, init);
      if PromptVis(e, init).val != 0 {
        var i :| 0 <= i < |init| && Eval(e, init[i]).val == PromptVis(e, init).val;
        assert ps[i] == init[i];
      }
    }
  }

  /** Outside choices, visibility is the largest prompt condition, with m raised to
      y for anything that is not a tristate at the moment. */
  lemma VisibilityLaw(e: Env, s: nat)
    requires Solves(e) && e.k.S(s).choice.None?
    ensures VisOf(e, s) == var p := PromptVis(e, e.k.S(s).prompts).val; if p == 1 && !IsTristate(e, s).val then 2 else p
    ensures VisOf(e, s) != 0 <==> exists i :: 0 <= i < |e.k.S(s).prompts| && Eval(e, e.k.S(s).prompts[i]).val != 0
  {
    hide Solves, PromptVis, Eval;
    SolvesAt(e, Vis(Sym(s)));
    PromptVisIsMax(e, e.k.S(s).prompts);
  }

  /** m is raised to y when the symbol is no tristate, or implied to y. */
  function Raised(e: Env, s: nat, t: Tri): Tri {
    if t == 1 && (!IsTristate(e, s).val || Eval(e, e.k.S(s).weakRevDep).val == 2) then 2 else t
  }

  /** A visible user value counts, limited by visibility; selects override it upwards. */
  lemma UserValueCounts(e: Env, s: nat)
    requires Solves(e) && e.k.S(s).origType.Logical() && e.k.S(s).choice.None?
    requires VisOf(e, s) != 0 && e.u.TriOf(s).Some?
    ensures TriOf(e, s) == Raised(e, s, Max(Eval(e, e.k.S(s).revDep).val, Min(e.u.TriOf(s).value, VisOf(e, s))))
  {
    hide Solves, Eval, FromDefaults;
    SolvesAt(e, TriVal(s));
  }

  /** The defaults' part: the first default that applies, limited by its condition,
      and implies as far as the direct dependencies allow. */
  function Unset(e: Env, s: nat): Tri {
    var d := e.k.S(s);
    var weak := Eval(e, d.weakRevDep).val;
    var def := match FirstDefault(e, d.defaults).val case None => 0 case Some((x, c)) => Min(Eval(e, x.value).val, c);
    if Eval(e, d.directDep).val == 0 then def else Max(weak, def)
  }

  /** Without a visible user value, the defaults count, and selects on top. */
  lemma DefaultsCount(e: Env, s: nat)
    requires Solves(e) && e.k.S(s).origType.Logical() && e.k.S(s).choice.None?
    requires VisOf(e, s) == 0 || e.u.TriOf(s).None?
    ensures TriOf(e, s) == Raised(e, s, Max(Eval(e, e.k.S(s).revDep).val, Unset(e, s)))
  {
    hide Solves, Eval, FirstDefault;
    SolvesAt(e, TriVal(s));
  }

  /** Selects are never undercut, and bool symbols are never m. */
  lemma SelectsHold(e: Env, s: nat)
    requires Solves(e) && e.k.S(s).origType.Logical() && e.k.S(s).choice.None?
    ensures Eval(e, e.k.S(s).revDep).val <= TriOf(e, s)
    ensures !IsTristate(e, s).val ==> TriOf(e, s) != 1
  {
    hide Solves, Eval;
    if VisOf(e, s) != 0 && e.u.TriOf(s).Some? { UserValueCounts(e, s); } else { DefaultsCount(e, s); }
  }

  /** Assignments to a symbol that is not visible change nothing. */
  lemma InvisibleIgnoresUser(e: Env, s: nat, v: UserValue)
    requires VisOf(e, s) == 0
    ensures var f := e.(u := e.u.(symValue := e.u.symValue[s := v]));
            Step(f, TriVal(s)) == Step(e, TriVal(s)) && Step(f, StrVal(s)) == Step(e, StrVal(s))
  {
    var f := e.(u := e.u.(symValue := e.u.symValue[s := v]));
    hide Step;
    StepCong(e, f, TriVal(s));
    StepCong(e, f, StrVal(s));
  }

  /** int(), str() and hex() go together, and the empty string is not a number. */
  ghost predicate NumbersPrint(k: Config) {
    forall base: nat | base == 10 || base == 16 ::
      k.parse("", base).None? && forall n: int :: k.parse(k.print_(n, base), base) == Some(n)
  }

  lemma NoDefaultIsEmpty(e: Env, d: SymDef)
    ensures !StrDefault(e, d).val.1 ==> StrDefault(e, d).val.0 == ""
  {
  }

  /** The value of an int or hex symbol is always inside its active range. */
  lemma RangeRespected(e: Env, s: nat)
    requires Solves(e) && NumbersPrint(e.k) && (e.k.S(s).origType == INT || e.k.S(s).origType == HEX)
    ensures var base := e.k.S(s).origType.Base();
            var range := ActiveRange(e, e.k.S(s).ranges, base).val;
            range.Some? && range.value.0 <= range.value.1 ==>
              range.value.0 <= NumOrZero(e.k, StrOf(e, s), base) <= range.value.1
  {
    hide Solves, StrDefault, ActiveRange;
    SolvesAt(e, StrVal(s));
    var k, base := e.k, e.k.S(s).origType.Base();
    var range := ActiveRange(e, e.k.S(s).ranges, base).val;
    assert k.parse("", base).None?;
    if range.Some? {
      assert k.parse(k.print_(range.value.0, base), base) == Some(range.value.0);
      assert k.parse(k.print_(range.value.1, base), base) == Some(range.value.1);
    }
    NoDefaultIsEmpty(e, e.k.S(s));
  }

  /** A choice is in a mode other than n exactly if it is visible and either not
      optional or set by the user; and never beyond its visibility, unless it is bool. */
  lemma ModeLaw(e: Env, c: nat)
    ensures Mode(e, c).val != 0 <==>
              e.v(Vis(Ch(c))).T() != 0 && (!e.k.C(c).optional || (e.u.ModeOf(c).Some? && e.u.ModeOf(c).value != 0))
    ensures Mode(e, c).val <= e.v(Vis(Ch(c))).T() || ChoiceIsBool(e, c).val
    ensures ChoiceIsBool(e, c).val ==> Mode(e, c).val != 1
  {
  }
}
