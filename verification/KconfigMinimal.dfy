/** Which symbols write_min_config() leaves out, read off positions. */
module KconfigMinimal {
  import opened Wrappers
  import opened KconfigModel
  import opened KconfigChoice
  import opened KconfigRoundTrip
  import opened KconfigValues

  /** Outside choices a symbol is left out exactly if it is not to be written at all, is
      held by selects at what its visibility allows, or has the value that selects,
      implies and its first applicable default give. */
  lemma MinimalLine(e: Env, s: nat, t: Tri)
    requires e.k.S(s).origType.Logical() && e.k.S(s).choice.None? && GivenByDefaults(e, e.k.S(s).defaults, t)
    ensures var rev, weak := Eval(e, e.k.S(s).revDep).val, Eval(e, e.k.S(s).weakRevDep).val;
            var given := Max(Max(rev, weak), t);
            HasLine(e, true, s) <==>
              && e.v(StrVal(s)).W() && rev < VisOf(e, s)
              && TriOf(e, s) != if given == 1 && !IsTristate(e, s).val then 2 else given
  {
    hide Eval, FirstDefault, IsTristate;
    var ds := e.k.S(s).defaults;
    var i := SomeOrNone(e, ds);
    if AppliesAt(e, ds, i) { FirstAt(e, ds, i); } else { FirstNone(e, ds); }
  }

  /** What a choice selects if the user has selected nothing. */
  ghost predicate SelectedByDefault(e: Env, c: nat, s: nat) {
    var ds, ms := e.k.C(c).defaults, e.k.C(c).members;
    || (exists i :: FirstUsable(e, ds, i) && ds[i].member == s)
    || ((forall j | 0 <= j < |ds| :: !Usable(e, ds, j)) && exists i :: FirstSeen(e, ms, i) && ms[i] == s)
  }

  lemma UsableOrNone(e: Env, ds: seq<ChoiceDefault>) returns (i: int)
    ensures FirstUsable(e, ds, i) || forall j | 0 <= j < |ds| :: !Usable(e, ds, j)
  {
    hide Eval;
    i := 0;
    while i < |ds| && !Usable(e, ds, i)
      invariant 0 <= i <= |ds| && forall j | 0 <= j < i :: !Usable(e, ds, j)
    {
      i := i + 1;
    }
  }

  lemma SeenOrNone(e: Env, ms: seq<nat>) returns (i: int)
    ensures FirstSeen(e, ms, i) || forall j | 0 <= j < |ms| :: VisOf(e, ms[j]) == 0
  {
    i := 0;
    while i < |ms| && VisOf(e, ms[i]) == 0
      invariant 0 <= i <= |ms| && forall j | 0 <= j < i :: VisOf(e, ms[j]) == 0
    {
      i := i + 1;
    }
  }

  lemma DefaultSelection(e: Env, c: nat, s: nat)
    ensures SelectionFromDefaults(e, c).val == Some(s) <==> SelectedByDefault(e, c, s)
  {
    hide DefaultPick, FirstVisible, Eval, VisOf;
    var ds, ms := e.k.C(c).defaults, e.k.C(c).members;
    forall k | FirstUsable(e, ds, k) ensures DefaultPick(e, ds).val == Some(ds[k].member) { PickedDefault(e, ds, k); }
    forall k | FirstSeen(e, ms, k) ensures FirstVisible(e, ms).val == Some(ms[k]) { PickedMember(e, ms, k); }
    var i := UsableOrNone(e, ds);
    var j := SeenOrNone(e, ms);
    PickedDefault(e, ds, i);
    PickedMember(e, ms, j);
  }

  /** A choice symbol is left out exactly if it is not to be written at all, is n, or is
      the y bool symbol that a choice which is not optional would select anyway. */
  lemma MinimalMemberLine(e: Env, s: nat, c: nat)
    requires e.k.S(s).origType.Logical() && e.k.S(s).choice == Some(c)
    ensures HasLine(e, true, s) <==>
            && e.v(StrVal(s)).W() && TriOf(e, s) != 0
            && !(e.k.S(s).origType == BOOL && !e.k.C(c).optional && SelectedByDefault(e, c, s) && TriOf(e, s) == 2)
  {
    hide SelectionFromDefaults, SelectedByDefault, Eval;
    DefaultSelection(e, c, s);
  }

  /** A full configuration has a line for every symbol that is to be written. */
  lemma FullLine(e: Env, s: nat)
    ensures HasLine(e, false, s) <==> e.v(StrVal(s)).W()
  {
    hide NotDefault;
  }
}
