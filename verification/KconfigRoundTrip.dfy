/** Writing a configuration out and loading it back. For configurations whose
    symbols are all bool, loading what write_config() or write_min_config()
    produced gives back every value, into whatever state it is loaded. */
module KconfigRoundTrip {
  import opened Wrappers
  import opened KconfigModel
  import opened KconfigReference
  import opened KconfigInvalidation
  import opened KconfigChoice

  /** "CONFIG_S=y" and "# CONFIG_S is not set", as parsed from a .config file. */
  datatype Line = Line(sym: nat, val: Tri)

  // ---------------------------------------------------------------- writing

  /** Symbol.config_string is not empty. */
  predicate Written(e: Env, s: nat) { e.v(StrVal(s)).W() }

  /** Symbol._str_default() for a bool or tristate symbol. */
  function DefaultTri(e: Env, s: nat): Tri {
    var d := e.k.S(s);
    if d.choice.Some? then 0
    else
      var f := FirstDefault(e, d.defaults).val;
      var def := match f case None => 0 case Some((x, c)) => Min(Eval(e, x.value).val, c);
      var val := Max(Max(Eval(e, d.revDep).val, Eval(e, d.weakRevDep).val), def);
      if val == 1 && !IsTristate(e, s).val then 2 else val
  }

  /** The symbols that write_min_config() does not skip. */
  predicate NotDefault(e: Env, s: nat) {
    var d := e.k.S(s);
    && (d.choice.Some? || VisOf(e, s) > Eval(e, d.revDep).val)
    && TriOf(e, s) != DefaultTri(e, s)
    && !(d.choice.Some? && d.origType == BOOL && !e.k.C(d.choice.value).optional &&
         SelectionFromDefaults(e, d.choice.value).val == Some(s) && TriOf(e, s) == 2)
  }

  /** Which symbols get a line: all written ones, or for a minimal configuration
      only those that differ from their default. */
  predicate HasLine(e: Env, minimal: bool, s: nat) {
    Written(e, s) && (minimal ==> NotDefault(e, s))
  }

  /** The lines of a configuration file, symbols in the given order. */
  function ConfigLines(e: Env, minimal: bool, order: seq<nat>): seq<Line> {
    if order == [] then []
    else
      var init := ConfigLines(e, minimal, order[..|order| - 1]);
      var s := order[|order| - 1];
      if HasLine(e, minimal, s) then init + [Line(s, TriOf(e, s))] else init
  }

  // ---------------------------------------------------------------- loading

  /** Loader state: user values, and the `_was_set` flags. */
  datatype Loading = Loading(u: User, symsSet: set<nat>, choicesSet: set<nat>)

  predicate LineAccepted(k: Config, l: Line) { k.S(l.sym).origType == TRISTATE || l.val != 1 }

  /** A non-n value on a choice symbol also sets the mode of the choice. */
  function LoadLine(k: Config, st: Loading, l: Line): Loading {
    if !LineAccepted(k, l) then st
    else match k.S(l.sym).choice
      case None => Loading(AfterSet(k, st.u, l.sym, UserTri(l.val)), st.symsSet + {l.sym}, st.choicesSet)
      case Some(c) =>
        var mode := l.val != 0 && AcceptsMode(k, st.u, c, l.val);
        var u := if mode then AfterSetMode(st.u, c, l.val) else st.u;
        Loading(AfterSet(k, u, l.sym, UserTri(l.val)), st.symsSet + {l.sym},
                if mode || l.val == 2 then st.choicesSet + {c} else st.choicesSet)
  }

  function LoadLines(k: Config, st: Loading, lines: seq<Line>): Loading {
    if lines == [] then st else LoadLine(k, LoadLines(k, st, lines[..|lines| - 1]), lines[|lines| - 1])
  }

  /** What was not set by the file is unset. */
  function Finish(k: Config, st: Loading): User {
    User(map s | s in st.u.symValue && (s in st.symsSet || s >= |k.syms|) :: st.u.symValue[s],
         map c | c in st.u.mode && (c in st.choicesSet || c >= |k.choices|) :: st.u.mode[c],
         map c | c in st.u.selection && (c in st.choicesSet || c >= |k.choices|) :: st.u.selection[c])
  }

  /** Kconfig.load_config() with replace=True, from user values `u`. */
  function Loaded(k: Config, u: User, lines: seq<Line>): User {
    Finish(k, LoadLines(k, Loading(u, {}, {}), lines))
  }

  // ---------------------------------------- what loading a written file gives

  /** Every defined symbol, once. */
  ghost predicate Covers(k: Config, order: seq<nat>) {
    && (forall s :: s in order <==> 0 <= s < |k.syms|)
    && (forall i, j | 0 <= i < j < |order| :: order[i] != order[j])
  }

  predicate AllBool(k: Config) {
    && (forall s | 0 <= s < |k.syms| :: k.syms[s].origType == BOOL)
    && (forall c | 0 <= c < |k.choices| :: k.choices[c].origType == BOOL)
  }

  /** Symbols in `order` that get a y line and belong to choice `c`. */
  predicate YLine(e: Env, minimal: bool, order: seq<nat>, c: nat, s: nat) {
    s in order && HasLine(e, minimal, s) && TriOf(e, s) == 2 && e.k.S(s).choice == Some(c)
  }

  /** The loader state after the lines for `order`. */
  ghost predicate LoadedSoFar(e: Env, minimal: bool, order: seq<nat>, st: Loading) {
    && (forall s :: s in st.symsSet <==> s in order && HasLine(e, minimal, s))
    && (forall s | s in st.symsSet :: st.u.TriOf(s) == Some(TriOf(e, s)))
    && (forall c :: c in st.choicesSet <==> exists s :: YLine(e, minimal, order, c, s))
    && (forall c | c in st.choicesSet ::
          st.u.ModeOf(c) == Some(2) && st.u.SelectionOf(c).Some?
            && YLine(e, minimal, order, c, st.u.SelectionOf(c).value))
  }

  lemma YLineSnoc(e: Env, minimal: bool, order: seq<nat>, s: nat, c: nat)
    ensures forall t: nat :: YLine(e, minimal, order + [s], c, t) <==>
              YLine(e, minimal, order, c, t) || (t == s && YLine(e, minimal, [s], c, s))
    ensures (exists t :: YLine(e, minimal, order + [s], c, t)) <==>
            (exists t :: YLine(e, minimal, order, c, t)) || YLine(e, minimal, [s], c, s)
  {
    hide HasLine, TriOf;
    if YLine(e, minimal, [s], c, s) { assert YLine(e, minimal, order + [s], c, s); }
    forall t: nat | YLine(e, minimal, order, c, t) ensures YLine(e, minimal, order + [s], c, t) {}
  }

  function LoadSymbol(e: Env, minimal: bool, s: nat, st: Loading): Loading {
    if HasLine(e, minimal, s) then LoadLine(e.k, st, Line(s, TriOf(e, s))) else st
  }

  lemma LoadOneChoice(e: Env, minimal: bool, order: seq<nat>, s: nat, st: Loading, c: nat)
    requires e.k.S(s).origType == BOOL && TriOf(e, s) != 1
    requires e.k.S(s).choice.Some? ==> e.k.C(e.k.S(s).choice.value).origType == BOOL
    requires LoadedSoFar(e, minimal, order, st)
    ensures var st', o := LoadSymbol(e, minimal, s, st), order + [s];
            && (c in st'.choicesSet <==> exists t :: YLine(e, minimal, o, c, t))
            && (c in st'.choicesSet ==>
                  st'.u.ModeOf(c) == Some(2) && st'.u.SelectionOf(c).Some?
                    && YLine(e, minimal, o, c, st'.u.SelectionOf(c).value))
  {
    hide HasLine, TriOf;
    var st' := LoadSymbol(e, minimal, s, st);
    YLineSnoc(e, minimal, order, s, c);
    assert c in st'.choicesSet <==> c in st.choicesSet || YLine(e, minimal, [s], c, s);
    if !YLine(e, minimal, [s], c, s) {
      assert st'.u.ModeOf(c) == st.u.ModeOf(c) && st'.u.SelectionOf(c) == st.u.SelectionOf(c);
    }
  }

  lemma LoadOneMore(e: Env, minimal: bool, order: seq<nat>, s: nat, st: Loading)
    requires e.k.S(s).origType == BOOL && TriOf(e, s) != 1
    requires e.k.S(s).choice.Some? ==> e.k.C(e.k.S(s).choice.value).origType == BOOL
    requires LoadedSoFar(e, minimal, order, st)
    ensures LoadedSoFar(e, minimal, order + [s], LoadSymbol(e, minimal, s, st))
  {
    hide HasLine, TriOf, YLine;
    var st', o := LoadSymbol(e, minimal, s, st), order + [s];
    forall c: nat
      ensures c in st'.choicesSet <==> exists t :: YLine(e, minimal, o, c, t)
      ensures c in st'.choicesSet ==>
                st'.u.ModeOf(c) == Some(2) && st'.u.SelectionOf(c).Some?
                  && YLine(e, minimal, o, c, st'.u.SelectionOf(c).value)
    {
      LoadOneChoice(e, minimal, order, s, st, c);
    }
  }

  lemma {:induction false} LoadLinesOf(e: Env, minimal: bool, order: seq<nat>, u: User)
    requires forall s | s in order :: e.k.S(s).origType == BOOL && TriOf(e, s) != 1
    requires forall s | s in order && e.k.S(s).choice.Some? :: e.k.C(e.k.S(s).choice.value).origType == BOOL
    ensures LoadedSoFar(e, minimal, order, LoadLines(e.k, Loading(u, {}, {}), ConfigLines(e, minimal, order)))
  {
    hide HasLine, LoadLine;
    if order != [] {
      var init, s := order[..|order| - 1], order[|order| - 1];
      var lines := ConfigLines(e, minimal, init);
      LoadLinesOf(e, minimal, init, u);
      LoadOneMore(e, minimal, init, s, LoadLines(e.k, Loading(u, {}, {}), lines));
      assert init + [s] == order;
      assert (lines + [Line(s, TriOf(e, s))])[..|lines|] == lines;
    }
  }

  /** A symbol has the value of its line, and no value without a line. */
  ghost predicate SymMatches(e: Env, minimal: bool, w: User, s: nat) {
    w.TriOf(s) == if HasLine(e, minimal, s) then Some(TriOf(e, s)) else None
  }

  /** A choice has mode y and a selection just when a member had a y line. */
  ghost predicate ChoiceMatches(e: Env, minimal: bool, w: User, c: nat) {
    || (&& w.ModeOf(c) == Some(2) && w.SelectionOf(c).Some?
        && var s := w.SelectionOf(c).value;
           s < |e.k.syms| && HasLine(e, minimal, s) && TriOf(e, s) == 2 && e.k.S(s).choice == Some(c))
    || (&& w.ModeOf(c) == None && w.SelectionOf(c) == None
        && forall s | 0 <= s < |e.k.syms| && HasLine(e, minimal, s) && e.k.S(s).choice == Some(c) :: TriOf(e, s) != 2)
  }

  ghost predicate MatchesLines(e: Env, minimal: bool, w: User) {
    && (forall s | 0 <= s < |e.k.syms| :: SymMatches(e, minimal, w, s))
    && (forall c | 0 <= c < |e.k.choices| :: ChoiceMatches(e, minimal, w, c))
  }

  lemma FinishSym(e: Env, minimal: bool, order: seq<nat>, st: Loading, s: nat)
    requires Covers(e.k, order) && LoadedSoFar(e, minimal, order, st) && s < |e.k.syms|
    ensures SymMatches(e, minimal, Finish(e.k, st), s)
  {
    hide HasLine, TriOf, YLine;
  }

  lemma FinishChoice(e: Env, minimal: bool, order: seq<nat>, st: Loading, c: nat)
    requires Covers(e.k, order) && LoadedSoFar(e, minimal, order, st) && c < |e.k.choices|
    ensures ChoiceMatches(e, minimal, Finish(e.k, st), c)
  {
    hide HasLine, TriOf;
    if c !in st.choicesSet {
      forall s: nat | s < |e.k.syms| && HasLine(e, minimal, s) && e.k.S(s).choice == Some(c) ensures TriOf(e, s) != 2 {
        assert YLine(e, minimal, order, c, s) <==> TriOf(e, s) == 2;
      }
    }
  }

  lemma FinishMatches(e: Env, minimal: bool, order: seq<nat>, st: Loading)
    requires Covers(e.k, order) && LoadedSoFar(e, minimal, order, st)
    ensures MatchesLines(e, minimal, Finish(e.k, st))
  {
    hide Covers, LoadedSoFar, SymMatches, ChoiceMatches, Finish;
    forall s | 0 <= s < |e.k.syms| ensures SymMatches(e, minimal, Finish(e.k, st), s) {
      FinishSym(e, minimal, order, st, s);
    }
    forall c | 0 <= c < |e.k.choices| ensures ChoiceMatches(e, minimal, Finish(e.k, st), c) {
      FinishChoice(e, minimal, order, st, c);
    }
  }

  lemma LoadedMatches(e: Env, minimal: bool, order: seq<nat>, u: User)
    requires Covers(e.k, order) && AllBool(e.k) && WellFormed(e.k)
    requires forall s | s in order :: TriOf(e, s) != 1
    ensures MatchesLines(e, minimal, Loaded(e.k, u, ConfigLines(e, minimal, order)))
  {
    hide HasLine, LoadLines, ConfigLines, Deps, Finish, MatchesLines, LoadedSoFar, TriOf;
    LoadLinesOf(e, minimal, order, u);
    FinishMatches(e, minimal, order, LoadLines(e.k, Loading(u, {}, {}), ConfigLines(e, minimal, order)));
  }

  // -------------------------------------------------------- the round trip

  /** Whoever has a visible prompt has its direct dependencies met. */
  ghost predicate PromptsImplyDirect(k: Config) {
    forall e: Env, s: nat | e.k == k && PromptVis(e, k.S(s).prompts).val != 0 :: Eval(e, k.S(s).directDep).val != 0
  }

  ghost predicate Ready(k: Config) {
    && AllBool(k) && WellFormed(k) && PromptsImplyDirect(k)
    && forall c | 0 <= c < |k.choices| :: WellFormedChoice(k, c)
  }

  predicate Stranded(e: Env, c: nat) {
    && c < |e.k.choices| && e.k.C(c).optional && Mode(e, c).val == 2
    && forall s | s in e.k.C(c).members :: VisOf(e, s) == 0
  }

  lemma BoolVis(e: Env, s: nat)
    requires Solves(e) && AllBool(e.k)
    ensures VisOf(e, s) != 1
    ensures VisOf(e, s) != 0 ==> PromptVis(e, e.k.S(s).prompts).val != 0
  {
    hide Solves, PromptVis, Mode;
    SolvesAt(e, Vis(Sym(s)));
    if s >= |e.k.syms| { assert PromptVis(e, []).val == 0 by { NoPrompts(e); } }
  }

  lemma NoPrompts(e: Env)
    ensures PromptVis(e, []) == Traced(0, {})
  {
  }

  lemma BoolMode(e: Env, c: nat)
    requires Solves(e) && AllBool(e.k)
    ensures e.v(Vis(Ch(c))).T() != 1 && Mode(e, c).val != 1
    ensures c >= |e.k.choices| ==> e.v(Vis(Ch(c))).T() == 0
    ensures Mode(e, c).seen == {Vis(Ch(c))}
  {
    hide Solves, PromptVis;
    SolvesAt(e, Vis(Ch(c)));
    NoPrompts(e);
  }

  lemma BoolTri(e: Env, s: nat)
    requires Solves(e) && AllBool(e.k)
    ensures TriOf(e, s) != 1
  {
    hide Solves, Unpromoted, Mode;
    BoolVis(e, s);
    SolvesAt(e, TriVal(s));
  }

  /** Whatever is visible is written. */
  lemma VisibleWritten(e: Env, s: nat)
    requires Solves(e) && AllBool(e.k) && s < |e.k.syms|
    requires VisOf(e, s) != 0
    ensures Written(e, s)
  {
    hide Solves, Mode, Eval, FirstDefault;
    BoolVis(e, s);
    SolvesAt(e, TriVal(s));
    SolvesAt(e, StrVal(s));
  }

  /** The selected member of an optional y-mode choice always gets a line. */
  lemma SelectedMemberHasLine(e: Env, minimal: bool, c: nat, s: nat)
    requires Solves(e) && Ready(e.k) && WellFormedUser(e.k, e.u) && c < |e.k.choices|
    requires s in e.k.C(c).members && TriOf(e, s) == 2
    requires !minimal || e.k.C(c).optional || SelectionFromDefaults(e, c).val != Some(s)
    ensures HasLine(e, minimal, s) && s < |e.k.syms|
  {
    hide Solves, AllBool, WellFormed, PromptsImplyDirect, SelectionFromDefaults, Written, Mode;
    MemberValue(e, c, s);
    BoolVis(e, s);
    VisibleWritten(e, s);
  }

  lemma ModeRestored(e: Env, f: Env, minimal: bool, c: nat)
    requires e.k == f.k && Solves(e) && Solves(f) && Ready(e.k) && WellFormedUser(e.k, e.u)
    requires MatchesLines(e, minimal, f.u) && !Stranded(e, c)
    requires f.v(Vis(Ch(c))) == e.v(Vis(Ch(c)))
    ensures Mode(f, c) == Mode(e, c)
  {
    hide Solves, AllBool, WellFormed, PromptsImplyDirect, WellFormedChoice, HasLine, TriOf, VisOf;
    BoolMode(e, c);
    BoolMode(f, c);
    if c < |e.k.choices| && e.k.C(c).optional {
      assert ChoiceMatches(e, minimal, f.u, c);
      ChoiceModes(e, c);
      if f.u.ModeOf(c).Some? {
        ChoiceOfMember(e.k, f.u.SelectionOf(c).value, c);
      } else if Mode(e, c).val == 2 {
        var s :| s in e.k.C(c).members && TriOf(e, s) == 2;
        SelectedMemberHasLine(e, minimal, c, s);
        MemberOf(e.k, c, s);
        assert false;
      }
    }
  }

  lemma ChoiceOfMember(k: Config, s: nat, c: nat)
    requires WellFormed(k) && s < |k.syms| && k.S(s).choice == Some(c)
    ensures s in k.C(c).members
  {
    hide Deps;
  }

  lemma PickRestored(e: Env, f: Env, minimal: bool, c: nat)
    requires e.k == f.k && Solves(e) && Solves(f) && Ready(e.k) && WellFormedUser(e.k, e.u)
    requires MatchesLines(e, minimal, f.u) && c < |e.k.choices|
    requires Mode(f, c) == Mode(e, c) && Same(e, f, StaticCells(e.k, Pick(c)))
    ensures f.v(Pick(c)) == e.v(Pick(c))
  {
    hide Solves, AllBool, WellFormed, PromptsImplyDirect, WellFormedChoice, HasLine, TriOf, SelectionFromDefaults, Mode;
    SolvesAt(e, Pick(c));
    SolvesAt(f, Pick(c));
    assert ChoiceMatches(e, minimal, f.u, c);
    if Mode(e, c).val == 2 {
      SelectionVisible(e, c);
      SelectionAgrees(e, f, c);
      var p := e.v(Pick(c)).P();
      if f.u.SelectionOf(c).Some? {
        var s := f.u.SelectionOf(c).value;
        ChoiceOfMember(e.k, s, c);
        MemberValue(e, c, s);
        assert Vis(Sym(s)) in StaticCells(e.k, Pick(c));
      } else if p.Some? {
        MemberValue(e, c, p.value);
        BoolVis(e, p.value);
        if SelectionFromDefaults(e, c).val != p {
          SelectedMemberHasLine(e, minimal, c, p.value);
          MemberOf(e.k, c, p.value);
        }
      } else {
        NothingVisible(e, c);
      }
    }
  }

  lemma SelectionAgrees(e: Env, f: Env, c: nat)
    requires Same(e, f, StaticCells(e.k, Pick(c)))
    ensures SelectionFromDefaults(f, c) == SelectionFromDefaults(e, c)
  {
    hide ModeSame;
    DefaultPickStatic(e, e.k.C(c).defaults);
    FirstVisibleStatic(e, e.k.C(c).members);
    SelectionFromDefaultsCong(e, f, c);
  }

  lemma NothingVisible(e: Env, c: nat)
    requires WellFormedChoice(e.k, c) && forall s | s in e.k.C(c).members :: VisOf(e, s) == 0
    ensures SelectionFromDefaults(e, c).val == None
  {
    DefaultPickVisible(e, e.k.C(c).defaults);
    FirstVisiblePick(e, e.k.C(c).members);
  }

  lemma PlainReadsAgree(e: Env, f: Env, s: nat)
    requires e.k.S(s).origType.Logical() && e.k.S(s).choice.None? && Same(e, f, StaticCells(e.k, TriVal(s)))
    ensures f.v(Vis(Sym(s))) == e.v(Vis(Sym(s)))
    ensures Eval(f, e.k.S(s).revDep) == Eval(e, e.k.S(s).revDep)
    ensures FromDefaults(f, e.k.S(s), VisOf(e, s)) == FromDefaults(e, e.k.S(s), VisOf(e, s))
  {
    hide Eval, FromDefaults, ModeSame;
    var d := e.k.S(s);
    FromDefaultsStatic(e, d, VisOf(e, s));
    FromDefaultsCong(e, f, d, VisOf(e, s));
    EvalStatic(e, d.revDep);
    EvalCong(e, f, d.revDep);
    assert Vis(Sym(s)) in StaticCells(e.k, TriVal(s));
  }

  /** A visible symbol outside choices gets its value back, from its line or
      from its defaults. */
  lemma PlainRestored(e: Env, f: Env, minimal: bool, s: nat)
    requires e.k == f.k && Solves(e) && Solves(f) && Ready(e.k)
    requires MatchesLines(e, minimal, f.u) && s < |e.k.syms| && e.k.S(s).choice.None?
    requires VisOf(e, s) != 0 && Same(e, f, StaticCells(e.k, TriVal(s)))
    ensures f.v(TriVal(s)) == e.v(TriVal(s))
  {
    hide Solves, WellFormed, WellFormedChoice, Written, Eval, FirstDefault, Same, StaticCells;
    assert SymMatches(e, minimal, f.u, s);
    SolvesAt(e, TriVal(s));
    SolvesAt(f, TriVal(s));
    BoolVis(e, s);
    BoolTri(e, s);
    VisibleWritten(e, s);
    PlainReadsAgree(e, f, s);
    assert Eval(e, e.k.S(s).directDep).val != 0;
  }

  lemma MemberRestored(e: Env, f: Env, s: nat)
    requires e.k == f.k && Solves(e) && Solves(f) && AllBool(e.k) && s < |e.k.syms|
    requires e.k.S(s).choice.Some? && Same(e, f, StaticCells(e.k, TriVal(s)))
    ensures f.v(TriVal(s)) == e.v(TriVal(s))
  {
    hide Solves, ModeSame;
    SolvesAt(e, TriVal(s));
    SolvesAt(f, TriVal(s));
    BoolVis(e, s);
    assert {Vis(Sym(s)), Pick(e.k.S(s).choice.value)} <= StaticCells(e.k, TriVal(s));
  }

  lemma OneCellRestored(e: Env, f: Env, minimal: bool, c: Cell)
    requires e.k == f.k && Solves(e) && Solves(f) && Ready(e.k)
    requires WellFormedUser(e.k, e.u) && MatchesLines(e, minimal, f.u)
    requires c.Pick? ==> Mode(f, c.choice) == Mode(e, c.choice)
    requires Same(e, f, StaticCells(e.k, c))
    ensures f.v(c) == e.v(c)
  {
    hide Solves, WellFormed, PromptsImplyDirect, WellFormedChoice, MatchesLines, StaticCells, Step, ModeSame, Mode;
    StepStatic(e, c);
    SolvesAt(e, c);
    SolvesAt(f, c);
    match c {
      case Vis(_) => StepCong(e, f, c);
      case TriVal(s) =>
        if s >= |e.k.syms| { UndefinedTri(e, s); UndefinedTri(f, s); }
        else if e.k.S(s).choice.Some? { MemberRestored(e, f, s); }
        else if VisOf(e, s) != 0 { PlainRestored(e, f, minimal, s); }
        else { StepCong(e, f, c); }
      case StrVal(s) => StrFollowsTri(e, f, s);
      case Pick(ch) =>
        if ch < |e.k.choices| { PickRestored(e, f, minimal, ch); }
        else { BoolMode(e, ch); BoolMode(f, ch); UndefinedPick(e, ch); UndefinedPick(f, ch); }
    }
  }

  lemma UndefinedTri(e: Env, s: nat)
    requires Solves(e) && s >= |e.k.syms|
    ensures e.v(TriVal(s)) == TriV(0, false)
  {
    hide Solves;
    SolvesAt(e, TriVal(s));
  }

  lemma UndefinedPick(e: Env, c: nat)
    requires Solves(e) && e.v(Vis(Ch(c))).T() == 0
    ensures e.v(Pick(c)) == PickV(None)
  {
    hide Solves;
    SolvesAt(e, Pick(c));
  }

  lemma StrFollowsTri(e: Env, f: Env, s: nat)
    requires e.k == f.k && Solves(e) && Solves(f) && AllBool(e.k)
    requires Same(e, f, StaticCells(e.k, StrVal(s)))
    ensures f.v(StrVal(s)) == e.v(StrVal(s))
  {
    hide Solves, ModeSame;
    SolvesAt(e, StrVal(s));
    SolvesAt(f, StrVal(s));
    if s < |e.k.syms| { assert TriVal(s) in StaticCells(e.k, StrVal(s)); }
  }

  /** If no choice is stranded, every cell comes back as it was. */
  lemma {:induction false} CellRestored(e: Env, f: Env, rank: Cell -> nat, minimal: bool, c: Cell)
    requires e.k == f.k && Solves(e) && Solves(f) && Ready(e.k) && LoopFree(e.k, rank)
    requires WellFormedUser(e.k, e.u) && MatchesLines(e, minimal, f.u)
    requires forall ch :: !Stranded(e, ch)
    ensures f.v(c) == e.v(c)
    decreases rank(c)
  {
    hide Solves, Ready, MatchesLines, StaticCells, Mode, LoopFree, Stranded;
    forall d | d in StaticCells(e.k, c)
      ensures e.v(d) == f.v(d) && (d.Owner().Ch? ==> ModeSame(e, f, d.Owner().choice))
    {
      LoopFreeAt(e.k, rank, c, d);
      CellRestored(e, f, rank, minimal, d);
      if d.Owner().Ch? {
        if d.Pick? { PickReadsVis(e.k, d.choice); LoopFreeAt(e.k, rank, d, Vis(d.Owner())); }
        CellRestored(e, f, rank, minimal, Vis(d.Owner()));
        ModeRestored(e, f, minimal, d.Owner().choice);
      }
    }
    if c.Pick? {
      PickReadsVis(e.k, c.choice);
      LoopFreeAt(e.k, rank, c, Vis(Ch(c.choice)));
      CellRestored(e, f, rank, minimal, Vis(Ch(c.choice)));
      ModeRestored(e, f, minimal, c.choice);
    }
    OneCellRestored(e, f, minimal, c);
  }

  lemma PickReadsVis(k: Config, c: nat)
    ensures Vis(Ch(c)) in StaticCells(k, Pick(c))
  {
  }

  lemma {:induction false} LinesWellFormed(k: Config, st: Loading, lines: seq<Line>)
    requires WellFormed(k) && WellFormedUser(k, st.u)
    requires forall i | 0 <= i < |lines| :: lines[i].sym < |k.syms|
    ensures WellFormedUser(k, LoadLines(k, st, lines).u)
  {
    hide Deps, ValidMode;
    if lines != [] { LinesWellFormed(k, st, lines[..|lines| - 1]); }
  }

  lemma {:induction false} LinesInOrder(e: Env, minimal: bool, order: seq<nat>)
    ensures forall i | 0 <= i < |ConfigLines(e, minimal, order)| :: ConfigLines(e, minimal, order)[i].sym in order
  {
    hide HasLine;
    if order != [] { LinesInOrder(e, minimal, order[..|order| - 1]); }
  }

  lemma LoadedWellFormed(e: Env, minimal: bool, order: seq<nat>, u: User)
    requires Covers(e.k, order) && WellFormed(e.k) && WellFormedUser(e.k, u)
    ensures WellFormedUser(e.k, Loaded(e.k, u, ConfigLines(e, minimal, order)))
  {
    hide LoadLines, ConfigLines, WellFormed;
    LinesInOrder(e, minimal, order);
    LinesWellFormed(e.k, Loading(u, {}, {}), ConfigLines(e, minimal, order));
  }

  /** A stranded choice leaves no line behind, so its mode is lost. */
  lemma StrandedLost(e: Env, f: Env, minimal: bool, c: nat)
    requires e.k == f.k && Solves(e) && Solves(f) && Ready(e.k)
    requires MatchesLines(e, minimal, f.u) && Stranded(e, c)
    ensures Mode(f, c).val == 0
  {
    hide Solves, AllBool, WellFormed, PromptsImplyDirect, WellFormedChoice, HasLine, TriOf;
    BoolMode(f, c);
    assert ChoiceMatches(e, minimal, f.u, c);
    if f.u.ModeOf(c).Some? {
      var s := f.u.SelectionOf(c).value;
      ChoiceOfMember(e.k, s, c);
      MemberValue(e, c, s);
      assert false;
    }
  }

  /** The state after loading, from user values `before`, the file that was
      written under user values `u`. */
  ghost function Reloaded(k: Config, u: User, before: User, rank: Cell -> nat, minimal: bool, order: seq<nat>): Env {
    At(k, Loaded(k, before, ConfigLines(At(k, u, rank), minimal, order)), rank)
  }

  /** Loading a written configuration, full or minimal, into any state restores
      every symbol value and every choice mode, exactly when no optional choice
      was in y mode without a visible member. */
  lemma RoundTrip(k: Config, u: User, before: User, rank: Cell -> nat, minimal: bool, order: seq<nat>)
    requires Ready(k) && LoopFree(k, rank) && Covers(k, order)
    requires WellFormedUser(k, u) && WellFormedUser(k, before)
    ensures var e, f := At(k, u, rank), Reloaded(k, u, before, rank, minimal, order);
            && ((forall s :: TriOf(f, s) == TriOf(e, s)) && (forall c :: Mode(f, c).val == Mode(e, c).val)
                <==> forall c :: !Stranded(e, c))
  {
    hide Solves, Step, Reference, LoopFree, StaticCells, WellFormed, AllBool, PromptsImplyDirect, WellFormedChoice,
      MatchesLines, Stranded, Mode, Loaded, ConfigLines, Covers, WellFormedUser;
    var e, f := At(k, u, rank), Reloaded(k, u, before, rank, minimal, order);
    ReferenceSolves(k, u, rank);
    LoadedWellFormed(e, minimal, order, before);
    ReferenceSolves(k, f.u, rank);
    forall s | s in order ensures TriOf(e, s) != 1 { BoolTri(e, s); }
    LoadedMatches(e, minimal, order, before);
    if forall c :: !Stranded(e, c) {
      forall c ensures f.v(c) == e.v(c) { CellRestored(e, f, rank, minimal, c); }
      forall c: nat ensures Mode(f, c) == Mode(e, c) { ModeRestored(e, f, minimal, c); }
    } else {
      var c :| Stranded(e, c);
      StrandedLost(e, f, minimal, c);
      StrandedMode(e, c);
    }
  }

  lemma StrandedMode(e: Env, c: nat)
    requires Stranded(e, c)
    ensures Mode(e, c).val == 2
  {
  }
}
