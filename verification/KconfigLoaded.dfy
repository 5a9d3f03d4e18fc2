/** What loading a configuration file leaves, read off the positions of its lines. */
module KconfigLoaded {
  import opened Wrappers
  import opened KconfigModel
  import opened KconfigRoundTrip

  /** Line `i` assigns symbol `s`: a bool is not assigned by an m. */
  predicate Assigns(k: Config, lines: seq<Line>, i: int, s: nat) {
    0 <= i < |lines| && lines[i].sym == s && (k.S(s).origType == TRISTATE || lines[i].val != 1)
  }

  /** The last line that does. */
  predicate LastFor(k: Config, lines: seq<Line>, i: int, s: nat) {
    Assigns(k, lines, i, s) && forall j | i < j < |lines| :: !Assigns(k, lines, j, s)
  }

  lemma OneLine(k: Config, st: Loading, l: Line, s: nat)
    ensures var t := LoadLine(k, st, l);
            if s == l.sym && (k.S(s).origType == TRISTATE || l.val != 1)
            then s in t.symsSet && s in t.u.symValue && t.u.symValue[s] == UserTri(l.val)
            else && (s in t.symsSet <==> s in st.symsSet)
                 && (s in t.u.symValue <==> s in st.u.symValue)
                 && (s in t.u.symValue ==> t.u.symValue[s] == st.u.symValue[s])
  {
  }

  lemma {:induction false} LinesAssign(k: Config, u: User, lines: seq<Line>, s: nat, i: int)
    ensures var st := LoadLines(k, Loading(u, {}, {}), lines);
            && (LastFor(k, lines, i, s) ==>
                  s in st.symsSet && s in st.u.symValue && st.u.symValue[s] == UserTri(lines[i].val))
            && ((forall j | 0 <= j < |lines| :: !Assigns(k, lines, j, s)) ==> s !in st.symsSet)
  {
    hide LoadLine;
    if lines != [] {
      var init, last := lines[..|lines| - 1], lines[|lines| - 1];
      LinesAssign(k, u, init, s, i);
      OneLine(k, LoadLines(k, Loading(u, {}, {}), init), last, s);
      assert forall j | 0 <= j < |init| :: Assigns(k, lines, j, s) <==> Assigns(k, init, j, s);
      if LastFor(k, lines, i, s) && i < |init| {
        assert !Assigns(k, lines, |lines| - 1, s) && LastFor(k, init, i, s);
      }
      if forall j | 0 <= j < |lines| :: !Assigns(k, lines, j, s) { assert !Assigns(k, lines, |lines| - 1, s); }
    }
  }

  /** After loading, a defined symbol has the user value of the last line that assigns
      it, and no user value if no line does, whatever was assigned before. */
  lemma LoadedByPosition(k: Config, u: User, lines: seq<Line>, s: nat, i: int)
    requires s < |k.syms|
    ensures var w := Loaded(k, u, lines);
            && (LastFor(k, lines, i, s) ==> s in w.symValue && w.symValue[s] == UserTri(lines[i].val))
            && ((forall j | 0 <= j < |lines| :: !Assigns(k, lines, j, s)) ==> s !in w.symValue)
  {
    hide LoadLines, LastFor, Assigns;
    LinesAssign(k, u, lines, s, i);
  }

  // ------------------------------------------------------------------- choices

  /** Line `i` gives a value other than n to a symbol of choice `c`. */
  predicate Touches(k: Config, lines: seq<Line>, i: int, c: nat) {
    0 <= i < |lines| && k.S(lines[i].sym).choice == Some(c) && lines[i].val != 0 && Assigns(k, lines, i, lines[i].sym)
  }

  predicate LastTouching(k: Config, lines: seq<Line>, i: int, c: nat) {
    Touches(k, lines, i, c) && forall j | i < j < |lines| :: !Touches(k, lines, j, c)
  }

  /** The last line that gives y to one of them. */
  predicate LastYes(k: Config, lines: seq<Line>, i: int, c: nat) {
    && Touches(k, lines, i, c) && lines[i].val == 2
    && forall j | i < j < |lines| :: !(Touches(k, lines, j, c) && lines[j].val == 2)
  }

  lemma OneLineOnChoice(k: Config, st: Loading, l: Line, c: nat)
    ensures var t := LoadLine(k, st, l);
            var accepted := k.S(l.sym).origType == TRISTATE || l.val != 1;
            var touches := k.S(l.sym).choice == Some(c) && l.val != 0 && accepted;
            && (touches && l.val == 2 ==> c in t.choicesSet && t.u.SelectionOf(c) == Some(l.sym))
            && (!(touches && l.val == 2) ==> t.u.SelectionOf(c) == st.u.SelectionOf(c))
            && (!touches ==> (c in t.choicesSet <==> c in st.choicesSet) && t.u.ModeOf(c) == st.u.ModeOf(c))
            && (c in st.choicesSet ==> c in t.choicesSet)
            && (touches && ValidMode(k, c, l.val) ==> c in t.choicesSet && t.u.ModeOf(c) == Some(l.val))
  {
  }

  lemma {:induction false} LinesOnChoice(k: Config, u: User, lines: seq<Line>, c: nat, i: int)
    ensures var st := LoadLines(k, Loading(u, {}, {}), lines);
            && (LastYes(k, lines, i, c) ==> c in st.choicesSet && st.u.SelectionOf(c) == Some(lines[i].sym))
            && ((forall j | 0 <= j < |lines| :: !Touches(k, lines, j, c)) ==> c !in st.choicesSet)
            && (LastTouching(k, lines, i, c) && ValidMode(k, c, lines[i].val) ==>
                  c in st.choicesSet && st.u.ModeOf(c) == Some(lines[i].val))
  {
    hide LoadLine, ValidMode;
    if lines != [] {
      var init, last, n := lines[..|lines| - 1], lines[|lines| - 1], |lines| - 1;
      LinesOnChoice(k, u, init, c, i);
      OneLineOnChoice(k, LoadLines(k, Loading(u, {}, {}), init), last, c);
      assert forall j | 0 <= j < n :: Touches(k, lines, j, c) <==> Touches(k, init, j, c);
      assert Touches(k, lines, n, c) <==>
             k.S(last.sym).choice == Some(c) && last.val != 0 && (k.S(last.sym).origType == TRISTATE || last.val != 1);
      if LastYes(k, lines, i, c) && i < n { assert LastYes(k, init, i, c); }
      if LastTouching(k, lines, i, c) && i < n { assert LastTouching(k, init, i, c); }
    }
  }

  /** After loading, a choice has the symbol of the last y line among its symbols as its
      selection, the value of the last line that is not n as its mode if its type allows
      it, and neither if there is no such line. */
  lemma ChoiceLoadedByPosition(k: Config, u: User, lines: seq<Line>, c: nat, i: int)
    requires c < |k.choices|
    ensures var w := Loaded(k, u, lines);
            && (LastYes(k, lines, i, c) ==> w.SelectionOf(c) == Some(lines[i].sym))
            && (LastTouching(k, lines, i, c) && ValidMode(k, c, lines[i].val) ==> w.ModeOf(c) == Some(lines[i].val))
            && ((forall j | 0 <= j < |lines| :: !Touches(k, lines, j, c)) ==>
                  w.ModeOf(c) == None && w.SelectionOf(c) == None)
  {
    hide LoadLines, LastYes, LastTouching, Touches, ValidMode;
    LinesOnChoice(k, u, lines, c, i);
  }
}
