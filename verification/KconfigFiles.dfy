/** write_config(), write_min_config() and load_config() on the caching engine. */
module KconfigFiles {
  import opened Wrappers
  import opened KconfigModel
  import opened KconfigReference
  import opened KconfigInvalidation
  import opened KconfigCache
  import opened KconfigChoice
  import opened KconfigRoundTrip

  /** The tristate a config_string shows: "n" is written as not set. */
  function ShownTri(str: string): Tri { if str == "n" then 0 else if str == "m" then 1 else 2 }

  ghost function RankBound(rank: Cell -> nat, cells: set<Cell>): (r: nat)
    ensures Below(rank, cells, r)
  {
    if cells == {} then 0
    else
      var d :| d in cells;
      var r := RankBound(rank, cells - {d});
      if r <= rank(d) then rank(d) + 1 else r
  }

  lemma LogicalStr(e: Env, s: nat)
    requires Solves(e) && e.k.S(s).origType.Logical()
    ensures ShownTri(e.v(StrVal(s)).S()) == TriOf(e, s)
  {
    hide Solves;
    SolvesAt(e, StrVal(s));
  }

  /** Symbol.config_string: the line, if there is to be one. */
  method ConfigString(kc: Kconfig, s: nat) returns (line: Option<Line>)
    requires kc.Valid() && kc.k.S(s).origType.Logical()
    modifies kc`cache
    ensures kc.Valid()
    ensures line == if Written(kc.Env(), s) then Some(Line(s, TriOf(kc.Env(), s))) else None
  {
    hide Sound, LoopFree, WellFormed, Reference, Solves;
    var val := kc.StrValue(s);
    CachedValue(kc.k, kc.user, kc.rank, kc.cache, StrVal(s));
    ReferenceSolves(kc.k, kc.user, kc.rank);
    LogicalStr(kc.Env(), s);
    line := if kc.cache[StrVal(s)].W() then Some(Line(s, ShownTri(val))) else None;
  }

  /** Kconfig._config_contents(), reduced to its assignments. */
  method WriteConfig(kc: Kconfig, order: seq<nat>) returns (lines: seq<Line>)
    requires kc.Valid() && forall s | s in order :: kc.k.S(s).origType.Logical()
    modifies kc`cache
    ensures kc.Valid() && lines == ConfigLines(kc.Env(), false, order)
  {
    hide Sound, LoopFree, WellFormed, Reference, Written;
    lines := [];
    for n := 0 to |order|
      invariant kc.Valid() && lines == ConfigLines(kc.Env(), false, order[..n])
    {
      assert order[..n + 1][..n] == order[..n];
      var line := ConfigString(kc, order[n]);
      if line.Some? { lines := lines + [line.value]; }
    }
    assert order[..|order|] == order;
  }

  /** Symbol._str_default() */
  method DefaultTriValue(kc: Kconfig, s: nat) returns (t: Tri)
    requires kc.Valid()
    modifies kc`cache
    ensures kc.Valid() && t == DefaultTri(kc.Env(), s)
  {
    hide Sound, LoopFree, WellFormed, Reference, Eval, FirstDefault, ExprCells, DefaultCells, TypeCells, IsTristate;
    var d := kc.k.S(s);
    t := 0;
    if d.choice.None? {
      ghost var r := RankBound(kc.rank, DefaultCells(kc.k, d.defaults) + ExprCells(kc.k, d.revDep) +
                                        ExprCells(kc.k, d.weakRevDep) + TypeCells(kc.k, d.origType));
      var f := kc.FirstDefaultValue(d.defaults, r);
      if f.Some? {
        var y := kc.ExprValue(f.value.0.value, r);
        t := Min(y, f.value.1);
      }
      var rev := kc.ExprValue(d.revDep, r);
      var weak := kc.ExprValue(d.weakRevDep, r);
      t := Max(Max(rev, weak), t);
      if t == 1 {
        var tristate := kc.IsTristateValue(s, r);
        if !tristate { t := 2; }
      }
    }
  }

  /** The three skips of Kconfig._min_config_contents(). */
  method NotDefaultValue(kc: Kconfig, s: nat) returns (b: bool)
    requires kc.Valid() && kc.k.S(s).origType.Logical()
    modifies kc`cache
    ensures kc.Valid() && b == NotDefault(kc.Env(), s)
  {
    hide Sound, LoopFree, WellFormed, Reference, Eval, ExprCells, DefaultTri, SelectionFromDefaults, StaticCells;
    var d := kc.k.S(s);
    if d.choice.None? {
      var vis := kc.Visibility(Sym(s));
      var rev := kc.ExprValue(d.revDep, RankBound(kc.rank, ExprCells(kc.k, d.revDep)));
      if vis <= rev { return false; }
    }
    var t := kc.TriValue(s);
    var def := DefaultTriValue(kc, s);
    if t == def { return false; }
    if d.choice.Some? && d.origType == BOOL && !kc.k.C(d.choice.value).optional {
      var c := d.choice.value;
      var p := kc.SelectionFromDefaultsValue(c, RankBound(kc.rank, StaticCells(kc.k, Pick(c))));
      if p == Some(s) && t == 2 { return false; }
    }
    b := true;
  }

  /** Kconfig._min_config_contents() */
  method WriteMinConfig(kc: Kconfig, order: seq<nat>) returns (lines: seq<Line>)
    requires kc.Valid() && forall s | s in order :: kc.k.S(s).origType.Logical()
    modifies kc`cache
    ensures kc.Valid() && lines == ConfigLines(kc.Env(), true, order)
  {
    hide Sound, LoopFree, WellFormed, Reference, Written, NotDefault;
    lines := [];
    for n := 0 to |order|
      invariant kc.Valid() && lines == ConfigLines(kc.Env(), true, order[..n])
    {
      assert order[..n + 1][..n] == order[..n];
      var wanted := NotDefaultValue(kc, order[n]);
      if wanted {
        var line := ConfigString(kc, order[n]);
        if line.Some? { lines := lines + [line.value]; }
      }
    }
    assert order[..|order|] == order;
  }

  method LoadOneLine(kc: Kconfig, l: Line, symsSet: set<nat>, choicesSet: set<nat>)
    returns (syms: set<nat>, choices: set<nat>)
    requires kc.Valid() && l.sym < |kc.k.syms| && kc.k.S(l.sym).origType.Logical()
    modifies kc`user, kc`cache
    ensures kc.Valid() && Loading(kc.user, syms, choices)
            == LoadLine(kc.k, Loading(old(kc.user), symsSet, choicesSet), l)
    ensures kc.k.S(l.sym).origType == BOOL && l.val == 1 ==>
              kc.user == old(kc.user) && syms == symsSet && choices == choicesSet
    ensures kc.k.S(l.sym).origType == TRISTATE || l.val != 1 ==>
              && kc.user.symValue == old(kc.user).symValue[l.sym := UserTri(l.val)] && syms == symsSet + {l.sym}
              && (kc.k.S(l.sym).choice.None? || l.val == 0 ==>
                    && kc.user.mode == old(kc.user).mode && kc.user.selection == old(kc.user).selection
                    && choices == choicesSet)
              && (kc.k.S(l.sym).choice.Some? && l.val != 0 ==>
                    var c := kc.k.S(l.sym).choice.value;
                    && (kc.k.C(c).origType == TRISTATE || (kc.k.C(c).origType == BOOL && l.val == 2) ==>
                          kc.user.mode == old(kc.user).mode[c := l.val] && choices == choicesSet + {c})
                    && kc.user.selection == if l.val == 2 then old(kc.user).selection[c := l.sym]
                                            else old(kc.user).selection)
  {
    hide Sound, LoopFree, WellFormedUser, Deps, AfterSet, AfterSetMode;
    syms, choices := symsSet, choicesSet;
    if kc.k.S(l.sym).origType == BOOL && l.val == 1 { return; }
    var choice := kc.k.S(l.sym).choice;
    if choice.Some? && l.val != 0 {
      var ok := kc.SetMode(choice.value, l.val);
      if ok { choices := choices + {choice.value}; }
    }
    var _ := kc.SetValue(l.sym, UserTri(l.val));
    syms := syms + {l.sym};
    if choice.Some? && l.val == 2 { choices := choices + {choice.value}; }
  }

  /** Kconfig._load_config() with replace=True */
  method LoadConfig(kc: Kconfig, lines: seq<Line>)
    requires kc.Valid()
    requires forall i | 0 <= i < |lines| :: lines[i].sym < |kc.k.syms| && kc.k.S(lines[i].sym).origType.Logical()
    modifies kc`user, kc`cache
    ensures kc.Valid() && kc.user == Loaded(kc.k, old(kc.user), lines)
  {
    hide Sound, LoopFree, WellFormed, WellFormedUser, LoadLine;
    ghost var start := Loading(kc.user, {}, {});
    var syms, choices := {}, {};
    for n := 0 to |lines|
      invariant kc.Valid() && Loading(kc.user, syms, choices) == LoadLines(kc.k, start, lines[..n])
    {
      assert lines[..n + 1][..n] == lines[..n];
      syms, choices := LoadOneLine(kc, lines[n], syms, choices);
    }
    assert lines[..|lines|] == lines;
    UnsetSyms(kc, syms);
    UnsetChoices(kc, choices);
  }

  method UnsetSyms(kc: Kconfig, syms: set<nat>)
    requires kc.Valid()
    modifies kc`user, kc`cache
    ensures kc.Valid() && kc.user.mode == old(kc.user.mode) && kc.user.selection == old(kc.user.selection)
    ensures kc.user.symValue ==
            map t | t in old(kc.user.symValue) && (t in syms || t >= |kc.k.syms|) :: old(kc.user.symValue)[t]
  {
    hide Sound, LoopFree, WellFormed, WellFormedUser;
    ghost var u := kc.user;
    for s := 0 to |kc.k.syms|
      invariant kc.Valid() && kc.user.mode == u.mode && kc.user.selection == u.selection
      invariant kc.user.symValue == map t | t in u.symValue && (t in syms || t >= s) :: u.symValue[t]
    {
      if s !in syms { kc.UnsetValue(s); }
    }
  }

  method UnsetChoices(kc: Kconfig, choices: set<nat>)
    requires kc.Valid()
    modifies kc`user, kc`cache
    ensures kc.Valid() && kc.user.symValue == old(kc.user.symValue)
    ensures kc.user.mode ==
            map t | t in old(kc.user.mode) && (t in choices || t >= |kc.k.choices|) :: old(kc.user.mode)[t]
    ensures kc.user.selection ==
              map t | t in old(kc.user.selection) && (t in choices || t >= |kc.k.choices|) :: old(kc.user.selection)[t]
  {
    hide Sound, LoopFree, WellFormed, WellFormedUser;
    ghost var u := kc.user;
    for c := 0 to |kc.k.choices|
      invariant kc.Valid() && kc.user.symValue == u.symValue
      invariant kc.user.mode == map t | t in u.mode && (t in choices || t >= c) :: u.mode[t]
      invariant kc.user.selection == map t | t in u.selection && (t in choices || t >= c) :: u.selection[t]
    {
      if c !in choices { kc.UnsetMode(c); }
    }
  }

  /** The two directions composed on one engine: write, change anything, load. */
  method SaveAndRestore(kc: Kconfig, minimal: bool, order: seq<nat>, between: seq<Op>) returns (values: seq<Tri>)
    requires kc.Valid() && Ready(kc.k) && Covers(kc.k, order)
    requires forall op | op in between :: InRange(kc.k, op)
    requires forall c :: !Stranded(kc.Env(), c)
    modifies kc`user, kc`cache
    ensures kc.Valid() && |values| == |order|
    ensures forall n | 0 <= n < |order| :: values[n] == old(TriOf(kc.Env(), order[n]))
  {
    hide Sound, LoopFree, WellFormed, WellFormedUser, Reference, PromptsImplyDirect, WellFormedChoice, Stranded,
      ConfigLines, Loaded, AfterAll, InRange, Mode;
    ghost var u, e := kc.user, kc.Env();
    var lines;
    if minimal { lines := WriteMinConfig(kc, order); } else { lines := WriteConfig(kc, order); }
    LinesInOrder(e, minimal, order);
    var _ := kc.Run(between);
    ghost var before := kc.user;
    LoadConfig(kc, lines);
    RoundTrip(kc.k, u, before, kc.rank, minimal, order);
    values := [];
    for n := 0 to |order|
      invariant kc.Valid() && kc.user == Loaded(kc.k, before, lines) && |values| == n
      invariant forall j | 0 <= j < n :: values[j] == TriOf(e, order[j])
    {
      var t := kc.TriValue(order[n]);
      values := values + [t];
    }
  }
}
