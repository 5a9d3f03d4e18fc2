/** What a value is, read off the position of the default, range or member that
    decides it. */
module KconfigValues {
  import opened Wrappers
  import opened KconfigModel
  import opened KconfigReference
  import opened KconfigChoice
  import opened KconfigLaws

  // --------------------------------------------------------------- first default

  /** Default `i` is the first one whose condition is not n. */
  ghost predicate AppliesAt(e: Env, ds: seq<Default>, i: int) {
    0 <= i < |ds| && Eval(e, ds[i].cond).val != 0 && forall j | 0 <= j < i :: Eval(e, ds[j].cond).val == 0
  }

  ghost predicate NoneApplies(e: Env, ds: seq<Default>) {
    forall j | 0 <= j < |ds| :: Eval(e, ds[j].cond).val == 0
  }

  lemma {:induction false} FirstAt(e: Env, ds: seq<Default>, i: int)
    requires AppliesAt(e, ds, i)
    ensures FirstDefault(e, ds).val == Some((ds[i], Eval(e, ds[i].cond).val))
  {
    hide Eval;
    if i > 0 {
      assert Eval(e, ds[0].cond).val == 0;
      forall j | 0 <= j < i - 1 ensures Eval(e, ds[1..][j].cond).val == 0 { assert ds[1..][j] == ds[j + 1]; }
      FirstAt(e, ds[1..], i - 1);
    }
  }

  lemma {:induction false} FirstNone(e: Env, ds: seq<Default>)
    requires NoneApplies(e, ds)
    ensures FirstDefault(e, ds).val == None
  {
    hide Eval;
    if ds != [] {
      assert Eval(e, ds[0].cond).val == 0;
      forall j | 0 <= j < |ds| - 1 ensures Eval(e, ds[1..][j].cond).val == 0 { assert ds[1..][j] == ds[j + 1]; }
      FirstNone(e, ds[1..]);
    }
  }

  /** One of the two is always the case. */
  lemma {:induction false} SomeOrNone(e: Env, ds: seq<Default>) returns (i: int)
    ensures AppliesAt(e, ds, i) || NoneApplies(e, ds)
  {
    hide Eval;
    i := 0;
    while i < |ds| && Eval(e, ds[i].cond).val == 0
      invariant 0 <= i <= |ds| && forall j | 0 <= j < i :: Eval(e, ds[j].cond).val == 0
    {
      i := i + 1;
    }
  }

  // ------------------------------------------------------- types and visibilities

  /** A symbol counts as tristate if it is declared so, MODULES is defined and not n,
      and it is not in a y-mode choice; a tristate choice counts as bool while MODULES
      is undefined or n. */
  lemma TypeLaw(e: Env, s: nat, c: nat)
    ensures IsTristate(e, s).val <==>
            && e.k.S(s).origType == TRISTATE && e.k.modules.Some? && TriOf(e, e.k.modules.value) != 0
            && (e.k.S(s).choice.Some? ==> Mode(e, e.k.S(s).choice.value).val != 2)
    ensures ChoiceIsBool(e, c).val <==>
            || e.k.C(c).origType == BOOL
            || (e.k.C(c).origType == TRISTATE && (e.k.modules.None? || TriOf(e, e.k.modules.value) == 0))
  {
    hide Mode;
  }

  /** The largest prompt condition. */
  ghost predicate LargestPrompt(e: Env, ps: seq<Expr>, p: Tri) {
    && (forall i | 0 <= i < |ps| :: Eval(e, ps[i]).val <= p)
    && (p != 0 ==> exists i :: 0 <= i < |ps| && Eval(e, ps[i]).val == p)
  }

  lemma PromptIsLargest(e: Env, ps: seq<Expr>, p: Tri)
    requires LargestPrompt(e, ps, p)
    ensures PromptVis(e, ps).val == p
  {
    hide Eval, PromptVis;
    PromptVisIsMax(e, ps);
  }

  /** The visibility of a choice symbol: its largest prompt condition, but a symbol that
      is not tristate shows in a tristate choice only in y mode and then fully, and an m
      counts as y for a bool, and as n in a y-mode choice. */
  lemma MemberVisibilityLaw(e: Env, s: nat, c: nat, p: Tri)
    requires Solves(e) && e.k.S(s).choice == Some(c) && LargestPrompt(e, e.k.S(s).prompts, p)
    ensures VisOf(e, s) ==
            if e.k.C(c).origType == TRISTATE && e.k.S(s).origType != TRISTATE
            then (if Mode(e, c).val == 2 && p != 0 then 2 else 0)
            else if p != 1 then p
            else if e.k.S(s).origType == TRISTATE && Mode(e, c).val == 2 then 0
            else if IsTristate(e, s).val then 1 else 2
  {
    hide Solves, PromptVis, Mode, IsTristate;
    SolvesAt(e, Vis(Sym(s)));
    PromptIsLargest(e, e.k.S(s).prompts, p);
  }

  /** The visibility of a choice: its largest prompt condition, m counting as y unless
      it is a tristate choice at the moment. */
  lemma ChoiceVisibilityLaw(e: Env, c: nat, p: Tri)
    requires Solves(e) && LargestPrompt(e, e.k.C(c).prompts, p)
    ensures e.v(Vis(Ch(c))).T() ==
            if p == 1 && !(e.k.C(c).origType == TRISTATE && !ChoiceIsBool(e, c).val) then 2 else p
  {
    hide Solves, PromptVis;
    SolvesAt(e, Vis(Ch(c)));
    PromptIsLargest(e, e.k.C(c).prompts, p);
  }

  // -------------------------------------------------------- bools and tristates

  /** The value that the defaults give: that of the first one that applies, limited by
      its condition. */
  ghost predicate GivenByDefaults(e: Env, ds: seq<Default>, t: Tri) {
    && (forall i | AppliesAt(e, ds, i) :: t == Min(Eval(e, ds[i].value).val, Eval(e, ds[i].cond).val))
    && (NoneApplies(e, ds) ==> t == 0)
  }

  /** Without a visible user value, a symbol outside choices has the value of its first
      applicable default, raised by implies if its direct dependencies are met, and by
      selects. It gets a line in the configuration exactly if it is visible, has such a
      value, or is selected. */
  lemma DefaultLaw(e: Env, s: nat, t: Tri)
    requires Solves(e) && e.k.S(s).origType.Logical() && e.k.S(s).choice.None?
    requires GivenByDefaults(e, e.k.S(s).defaults, t)
    ensures var d := e.k.S(s);
            var rev, weak := Eval(e, d.revDep).val, Eval(e, d.weakRevDep).val;
            var implied := weak != 0 && Eval(e, d.directDep).val != 0;
            && (VisOf(e, s) == 0 || e.u.TriOf(s).None? ==>
                  TriOf(e, s) == Raised(e, s, Max(rev, if implied then Max(weak, t) else t)))
            && (e.v(TriVal(s)).W() <==> VisOf(e, s) != 0 || t != 0 || implied || rev != 0)
  {
    hide Solves, Eval, FirstDefault;
    SolvesAt(e, TriVal(s));
    var i := SomeOrNone(e, e.k.S(s).defaults);
    if AppliesAt(e, e.k.S(s).defaults, i) {
      FirstAt(e, e.k.S(s).defaults, i);
    } else {
      FirstNone(e, e.k.S(s).defaults);
    }
  }

  /** A choice symbol gets a line exactly if it is visible. */
  lemma MemberWritten(e: Env, s: nat)
    requires Solves(e) && e.k.S(s).origType.Logical() && e.k.S(s).choice.Some?
    ensures e.v(TriVal(s)).W() <==> VisOf(e, s) != 0
  {
    hide Solves;
    SolvesAt(e, TriVal(s));
  }

  /** What is shown for a bool or tristate symbol, and for a symbol that is not defined. */
  lemma ShownText(e: Env, s: nat)
    requires Solves(e)
    ensures e.k.S(s).origType.Logical() ==>
              && StrOf(e, s) == (if TriOf(e, s) == 0 then "n" else if TriOf(e, s) == 1 then "m" else "y")
              && (e.v(StrVal(s)).W() <==> e.v(TriVal(s)).W())
    ensures e.k.S(s).origType == UNKNOWN ==> StrOf(e, s) == e.k.S(s).name && !e.v(StrVal(s)).W()
    ensures !e.k.S(s).origType.Logical() ==> TriOf(e, s) == 0
  {
    hide Solves;
    SolvesAt(e, StrVal(s));
    SolvesAt(e, TriVal(s));
  }

  // -------------------------------------------------------------------- strings

  /** What an operand reads as. */
  function Text(e: Env, i: Item): string {
    match i
    case Name(name) => name
    case Sym(s) => StrOf(e, s)
    case Lit(t) => if t == 0 then "n" else if t == 1 then "m" else "y"
    case Ch(c) => var m := Mode(e, c).val; if m == 0 then "n" else if m == 1 then "m" else "y"
  }

  /** The string that the defaults give: that of the first one that applies. */
  ghost predicate TextGiven(e: Env, ds: seq<Default>, text: string, found: bool) {
    && (forall i | AppliesAt(e, ds, i) :: found && text == if ds[i].value.Leaf? then Text(e, ds[i].value.item) else "")
    && (NoneApplies(e, ds) ==> !found && text == "")
  }

  lemma DefaultText(e: Env, d: SymDef, text: string, found: bool)
    requires TextGiven(e, d.defaults, text, found)
    ensures StrDefault(e, d).val == (text, found)
  {
    hide Eval, FirstDefault, Mode;
    var i := SomeOrNone(e, d.defaults);
    if AppliesAt(e, d.defaults, i) { FirstAt(e, d.defaults, i); } else { FirstNone(e, d.defaults); }
  }

  /** A string symbol has the user's string if it is visible and has one, and otherwise
      the text of its first applicable default, or nothing. */
  lemma StringLaw(e: Env, s: nat, text: string, found: bool)
    requires Solves(e) && e.k.S(s).origType == STRING && TextGiven(e, e.k.S(s).defaults, text, found)
    ensures StrOf(e, s) == if VisOf(e, s) != 0 && e.u.StrOf(s).Some? then e.u.StrOf(s).value else text
    ensures e.v(StrVal(s)).W() <==> (VisOf(e, s) != 0 || found) && !e.k.S(s).neverWritten
  {
    hide Solves, StrDefault;
    SolvesAt(e, StrVal(s));
    DefaultText(e, e.k.S(s), text, found);
  }

  // -------------------------------------------------------------------- numbers

  ghost predicate RangeAt(e: Env, rs: seq<Range>, i: int) {
    0 <= i < |rs| && Eval(e, rs[i].cond).val != 0 && forall j | 0 <= j < i :: Eval(e, rs[j].cond).val == 0
  }

  ghost predicate NoRange(e: Env, rs: seq<Range>) {
    forall j | 0 <= j < |rs| :: Eval(e, rs[j].cond).val == 0
  }

  /** A text as a number; 0 if it is none. */
  function Number(k: Config, text: string, base: nat): int {
    match k.parse(text, base) case None => 0 case Some(n) => n
  }

  /** The bounds that count: those of the first range that applies, if any. */
  ghost predicate Bounds(e: Env, rs: seq<Range>, base: nat, range: Option<(int, int)>) {
    && (forall i | RangeAt(e, rs, i) ::
          range == Some((Number(e.k, Text(e, rs[i].low), base), Number(e.k, Text(e, rs[i].high), base))))
    && (NoRange(e, rs) ==> range == None)
  }

  lemma {:induction false} ActiveIs(e: Env, rs: seq<Range>, base: nat, range: Option<(int, int)>)
    requires Bounds(e, rs, base, range)
    ensures ActiveRange(e, rs, base).val == range
  {
    hide Eval, Mode;
    if rs != [] {
      if Eval(e, rs[0].cond).val != 0 {
        assert RangeAt(e, rs, 0);
      } else {
        forall i | RangeAt(e, rs[1..], i) ensures RangeAt(e, rs, i + 1) && rs[1..][i] == rs[i + 1] {
          forall j | 0 <= j < i + 1 ensures Eval(e, rs[j].cond).val == 0 { assert j > 0 ==> rs[j] == rs[1..][j - 1]; }
        }
        if NoRange(e, rs[1..]) {
          forall j | 0 <= j < |rs| ensures Eval(e, rs[j].cond).val == 0 { assert j > 0 ==> rs[j] == rs[1..][j - 1]; }
        }
        ActiveIs(e, rs[1..], base, range);
      }
    } else {
      assert NoRange(e, rs);
    }
  }

  predicate Inside(range: Option<(int, int)>, n: int) { range.Some? ==> range.value.0 <= n <= range.value.1 }

  /** An int or hex symbol has the user's string if it is visible and that is not empty
      and inside the range; otherwise the text of its first applicable default if that
      is inside the range, and the bound that it exceeds if not. */
  lemma NumberLaw(e: Env, s: nat, text: string, found: bool, range: Option<(int, int)>)
    requires Solves(e) && (e.k.S(s).origType == INT || e.k.S(s).origType == HEX)
    requires TextGiven(e, e.k.S(s).defaults, text, found)
    requires Bounds(e, e.k.S(s).ranges, if e.k.S(s).origType == HEX then 16 else 10, range)
    ensures var base := if e.k.S(s).origType == HEX then 16 else 10;
            var n := if found then Number(e.k, text, base) else 0;
            var user := e.u.StrOf(s);
            StrOf(e, s) ==
              if VisOf(e, s) != 0 && user.Some? && user.value != "" && Inside(range, Number(e.k, user.value, base))
              then user.value
              else if Inside(range, n) then text
              else e.k.print_(if n < range.value.0 then range.value.0 else range.value.1, base)
    ensures e.v(StrVal(s)).W() <==> (VisOf(e, s) != 0 || found) && !e.k.S(s).neverWritten
  {
    hide Solves, StrDefault, ActiveRange;
    SolvesAt(e, StrVal(s));
    DefaultText(e, e.k.S(s), text, found);
    ActiveIs(e, e.k.S(s).ranges, if e.k.S(s).origType == HEX then 16 else 10, range);
  }

  // ------------------------------------------------------------------ selections

  /** Default `i` of a choice can be taken: its condition is not n and its symbol visible. */
  ghost predicate Usable(e: Env, ds: seq<ChoiceDefault>, i: int) {
    0 <= i < |ds| && Eval(e, ds[i].cond).val != 0 && VisOf(e, ds[i].member) != 0
  }

  ghost predicate FirstUsable(e: Env, ds: seq<ChoiceDefault>, i: int) {
    Usable(e, ds, i) && forall j | 0 <= j < i :: !Usable(e, ds, j)
  }

  lemma {:induction false} PickedDefault(e: Env, ds: seq<ChoiceDefault>, i: int)
    ensures FirstUsable(e, ds, i) ==> DefaultPick(e, ds).val == Some(ds[i].member)
    ensures (forall j | 0 <= j < |ds| :: !Usable(e, ds, j)) ==> DefaultPick(e, ds).val == None
  {
    hide Eval;
    if ds != [] {
      PickedDefault(e, ds[1..], i - 1);
      assert forall j | 0 <= j < |ds| - 1 :: Usable(e, ds[1..], j) <==> Usable(e, ds, j + 1);
      assert FirstUsable(e, ds, i) && i > 0 ==> !Usable(e, ds, 0) && FirstUsable(e, ds[1..], i - 1);
      assert (forall j | 0 <= j < |ds| :: !Usable(e, ds, j)) ==> !Usable(e, ds, 0);
    }
  }

  ghost predicate FirstSeen(e: Env, ms: seq<nat>, i: int) {
    0 <= i < |ms| && VisOf(e, ms[i]) != 0 && forall j | 0 <= j < i :: VisOf(e, ms[j]) == 0
  }

  lemma {:induction false} PickedMember(e: Env, ms: seq<nat>, i: int)
    ensures FirstSeen(e, ms, i) ==> FirstVisible(e, ms).val == Some(ms[i])
    ensures (forall j | 0 <= j < |ms| :: VisOf(e, ms[j]) == 0) ==> FirstVisible(e, ms).val == None
  {
    if ms != [] {
      PickedMember(e, ms[1..], i - 1);
      assert FirstSeen(e, ms, i) && i > 0 ==> VisOf(e, ms[0]) == 0 && FirstSeen(e, ms[1..], i - 1);
    }
  }

  /** In y mode a choice selects what the user has selected if that is visible, else the
      symbol of the first default that can be taken, else its first visible symbol, and
      nothing if none is visible. In other modes it selects nothing. */
  lemma SelectionLaw(e: Env, c: nat, i: int)
    requires Solves(e)
    ensures var p, user := e.v(Pick(c)).P(), e.u.SelectionOf(c);
            var ds, ms := e.k.C(c).defaults, e.k.C(c).members;
            && (Mode(e, c).val != 2 ==> p == None)
            && (Mode(e, c).val == 2 && user.Some? && VisOf(e, user.value) != 0 ==> p == user)
            && (Mode(e, c).val == 2 && (user.None? || VisOf(e, user.value) == 0) ==>
                  && (FirstUsable(e, ds, i) ==> p == Some(ds[i].member))
                  && ((forall j | 0 <= j < |ds| :: !Usable(e, ds, j)) ==>
                        && (FirstSeen(e, ms, i) ==> p == Some(ms[i]))
                        && ((forall j | 0 <= j < |ms| :: VisOf(e, ms[j]) == 0) ==> p == None)))
  {
    hide Solves, Mode, DefaultPick, FirstVisible, Usable;
    SolvesAt(e, Pick(c));
    PickedDefault(e, e.k.C(c).defaults, i);
    PickedMember(e, e.k.C(c).members, i);
  }
}
