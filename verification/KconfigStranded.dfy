/** A configuration in which writing and loading changes the value of a symbol. */
module KconfigStranded {
  import opened Wrappers
  import opened KconfigModel
  import opened KconfigReference
  import opened KconfigInvalidation
  import opened KconfigChoice
  import opened KconfigRoundTrip

  /** An optional choice, whose only member depends on an undefined symbol. */
  const NEVER := And(Leaf(Name("UNDEFINED")), Leaf(Ch(0)))
  const MEMBER := SymDef(BOOL, [NEVER], [], [], NO, NO, NEVER, Some(0), "MEMBER", false)

  /** A symbol without a prompt, in a menu inside the choice, that is y in every mode
      of the choice but n. */
  const FOLLOWER := SymDef(BOOL, [], [Default(YES, Leaf(Ch(0)))], [], NO, NO, Leaf(Ch(0)), None, "FOLLOWER", false)

  const CHOICE := ChoiceDef(BOOL, [YES], [], [0], true)

  predicate Example(k: Config) {
    k.syms == [MEMBER, FOLLOWER] && k.choices == [CHOICE] && k.modules == None
  }

  const USER := User(map[], map[0 := 2], map[])

  function Rank(c: Cell): nat {
    match c
    case Vis(Sym(_)) => 1
    case Vis(_) => 0
    case Pick(_) => 2
    case TriVal(_) => 3
    case StrVal(_) => 4
  }

  lemma Defined(k: Config)
    requires Example(k)
    ensures k.S(0) == MEMBER && k.S(1) == FOLLOWER && k.C(0) == CHOICE
    ensures forall s: nat | s > 1 :: k.S(s) == UNDEFINED_SYM
    ensures forall c: nat | c > 0 :: k.C(c) == UNDEFINED_CHOICE
  {
  }

  lemma ExampleLoopFree(k: Config)
    requires Example(k)
    ensures LoopFree(k, Rank)
  {
    Defined(k);
    var e := Env(k, USER, (c: Cell) => PickV(None));
    OnePrompt(e, MEMBER.prompts[0]);
    OnePrompt(e, YES);
    assert FOLLOWER.defaults[1..] == [];
    assert DefaultCells(k, FOLLOWER.defaults) == {Vis(Ch(0))};
    forall c, d | d in StaticCells(k, c) ensures Rank(d) < Rank(c) {
      match c
      case Vis(Sym(s)) => assert s <= 1;
      case Vis(_) =>
      case TriVal(s) => assert s <= 1;
      case StrVal(s) => assert d == TriVal(s);
      case Pick(n) =>
    }
  }

  lemma ExampleReady(k: Config)
    requires Example(k)
    ensures Ready(k)
  {
    Defined(k);
    var e := Env(k, USER, (c: Cell) => PickV(None));
    OnePrompt(e, MEMBER.prompts[0]);
    assert Ch(0) in Deps(k, Sym(0));
    forall e: Env, s: nat | e.k == k ensures PromptVis(e, k.S(s).prompts).val == 0 {
      OnePrompt(e, MEMBER.prompts[0]);
    }
  }

  /** With the choice in the given mode, the follower is y or n with it. */
  lemma FollowerValue(e: Env)
    requires Example(e.k) && Solves(e)
    ensures TriOf(e, 1) == if Mode(e, 0).val == 0 then 0 else 2
    ensures VisOf(e, 0) == 0
  {
    hide Mode, Solves;
    Defined(e.k);
    SolvesAt(e, Vis(Sym(0)));
    SolvesAt(e, Vis(Sym(1)));
    SolvesAt(e, TriVal(1));
    OnePrompt(e, MEMBER.prompts[0]);
    assert FOLLOWER.defaults[1..] == [];
    assert Eval(e, Leaf(Ch(0))) == Mode(e, 0);
    assert FirstDefault(e, FOLLOWER.defaults).val ==
           if Mode(e, 0).val == 0 then None else Some((FOLLOWER.defaults[0], Mode(e, 0).val));
    assert Unpromoted(e, 1).val.0 == Mode(e, 0).val;
  }

  lemma Loads(k: Config, before: User, minimal: bool)
    requires Example(k) && WellFormedUser(k, before)
    ensures var f := Reloaded(k, USER, before, Rank, minimal, [0, 1]);
            Solves(f) && MatchesLines(At(k, USER, Rank), minimal, f.u)
  {
    hide Solves, Loaded, ConfigLines, LoopFree, MatchesLines, Example, PromptsImplyDirect, WellFormedChoice;
    var e, f := At(k, USER, Rank), Reloaded(k, USER, before, Rank, minimal, [0, 1]);
    ExampleLoopFree(k);
    ExampleReady(k);
    ReferenceSolves(k, USER, Rank);
    assert |k.syms| == 2 by { Size(k); }
    LoadedWellFormed(e, minimal, [0, 1], before);
    ReferenceSolves(k, f.u, Rank);
    forall s: nat ensures TriOf(e, s) != 1 { BoolTri(e, s); }
    LoadedMatches(e, minimal, [0, 1], before);
  }

  lemma Size(k: Config)
    requires Example(k)
    ensures |k.syms| == 2
  {
  }

  /** The value of FOLLOWER is y when the configuration is written, full or
      minimal, and n once it is loaded again. */
  lemma SymbolValueLost(k: Config, before: User, minimal: bool)
    requires Example(k) && WellFormedUser(k, before)
    ensures TriOf(At(k, USER, Rank), 1) == 2
    ensures TriOf(Reloaded(k, USER, before, Rank, minimal, [0, 1]), 1) == 0
  {
    hide Solves, Loaded, ConfigLines, LoopFree, Ready, MatchesLines;
    var e, f := At(k, USER, Rank), Reloaded(k, USER, before, Rank, minimal, [0, 1]);
    Defined(k);
    ExampleLoopFree(k);
    ExampleReady(k);
    ReferenceSolves(k, USER, Rank);
    FollowerValue(e);
    SolvesAt(e, Vis(Ch(0)));
    OnePrompt(e, YES);
    assert Mode(e, 0).val == 2;
    assert Stranded(e, 0);
    hide Stranded, Mode, WellFormed, WellFormedUser, Step, VisOf, TriOf;
    Loads(k, before, minimal);
    StrandedLost(e, f, minimal, 0);
    FollowerValue(f);
  }
}
