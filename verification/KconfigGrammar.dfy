/** What the grammar of expressions is: how operators bind, and that parentheses have
    to match. */
module KconfigGrammar {
  import opened Wrappers
  import opened KconfigModel
  import opened KconfigSyntax

  // ------------------------------------------------------------------ precedence

  /** Anything that is written without an operator outside parentheses. */
  predicate IsFactor(x: Expr) { !x.And? && !x.Or? && NoChoices(x) }

  predicate Factors(fs: seq<Expr>) { |fs| > 0 && forall i | 0 <= i < |fs| :: IsFactor(fs[i]) }

  /** Factors with && between them. */
  function WrittenAnd(fs: seq<Expr>): seq<Token>
    requires |fs| > 0
  {
    if |fs| == 1 then Print(fs[0]) else Print(fs[0]) + [AND] + WrittenAnd(fs[1..])
  }

  function MeantAnd(fs: seq<Expr>): Expr
    requires |fs| > 0
  {
    if |fs| == 1 then RightAssociated(fs[0]) else And(RightAssociated(fs[0]), MeantAnd(fs[1..]))
  }

  predicate Groups(gs: seq<seq<Expr>>) { |gs| > 0 && forall i | 0 <= i < |gs| :: Factors(gs[i]) }

  /** Such conjunctions with || between them, and no parentheses around them. */
  function WrittenOr(gs: seq<seq<Expr>>): seq<Token>
    requires Groups(gs)
  {
    if |gs| == 1 then WrittenAnd(gs[0]) else WrittenAnd(gs[0]) + [OR] + WrittenOr(gs[1..])
  }

  function MeantOr(gs: seq<seq<Expr>>): Expr
    requires Groups(gs)
  {
    if |gs| == 1 then MeantAnd(gs[0]) else Or(MeantAnd(gs[0]), MeantOr(gs[1..]))
  }

  lemma Regroup<T>(a: seq<T>, b: seq<T>, c: seq<T>, d: seq<T>)
    ensures a + b + c + d == a + (b + (c + d))
  {
  }

  lemma {:induction false} AndsParse(fs: seq<Expr>, rest: seq<Token>)
    requires Factors(fs) && !Head(rest).REL? && Head(rest) != AND
    ensures ParseAnd(WrittenAnd(fs) + rest, None) == Some((MeantAnd(fs), rest))
  {
    hide ParseFactor, Print, RightAssociated;
    if |fs| == 1 {
      FactorBack(fs[0], rest);
    } else {
      var more := WrittenAnd(fs[1..]) + rest;
      AndsParse(fs[1..], rest);
      FactorBack(fs[0], [AND] + more);
      Regroup(Print(fs[0]), [AND], WrittenAnd(fs[1..]), rest);
      assert ([AND] + more)[1..] == more;
    }
  }

  /** && binds tighter than ||, and both to the right: a list of factors means the
      disjunction of its conjunctions. */
  lemma {:induction false} AndBindsTighter(gs: seq<seq<Expr>>, rest: seq<Token>)
    requires Groups(gs) && !Head(rest).REL? && Head(rest) != AND && Head(rest) != OR
    ensures ParseExpr(WrittenOr(gs) + rest, None) == Some((MeantOr(gs), rest))
  {
    assert Factors(gs[0]) && |gs[0]| > 0;
    hide ParseFactor, ParseAnd, WrittenAnd, MeantAnd, Factors;
    if |gs| == 1 {
      AndsParse(gs[0], rest);
    } else {
      var more := WrittenOr(gs[1..]) + rest;
      AndBindsTighter(gs[1..], rest);
      AndsParse(gs[0], [OR] + more);
      Regroup(WrittenAnd(gs[0]), [OR], WrittenOr(gs[1..]), rest);
      assert ([OR] + more)[1..] == more;
    }
  }

  /** For instance a || b && c. */
  lemma OrOfAnd(a: Atom, b: Atom, c: Atom)
    ensures ParseExpr([Token.Item(a), OR, Token.Item(b), AND, Token.Item(c), END], None) ==
            Some((Or(Leaf(a), And(Leaf(b), Leaf(c))), [END]))
  {
    var gs := [[Leaf(a)], [Leaf(b), Leaf(c)]];
    AndBindsTighter(gs, [END]);
    assert gs[1..] == [[Leaf(b), Leaf(c)]] && gs[1][1..] == [Leaf(c)];
    assert WrittenAnd(gs[0]) == [Token.Item(a)];
    assert WrittenAnd(gs[1]) == [Token.Item(b), AND, Token.Item(c)];
    assert WrittenOr(gs) + [END] == [Token.Item(a), OR, Token.Item(b), AND, Token.Item(c), END];
    assert MeantAnd(gs[0]) == Leaf(a) && MeantAnd(gs[1]) == And(Leaf(b), Leaf(c));
    assert MeantOr(gs) == Or(MeantAnd(gs[0]), MeantOr(gs[1..]));
  }

  // ---------------------------------------------------------- matching parentheses

  /** Opened and not closed, or closed and not opened. */
  function Surplus(ts: seq<Token>): int {
    if ts == [] then 0 else (if ts[0] == OPEN then 1 else if ts[0] == CLOSE then -1 else 0) + Surplus(ts[1..])
  }

  ghost predicate Matches(ts: seq<Token>, p: Parsed) { p.Some? ==> Surplus(ts) == Surplus(p.value.1) }

  lemma {:induction false} FactorMatches(ts: seq<Token>, m: Option<KconfigModel.Item>)
    ensures Matches(ts, ParseFactor(ts, m))
    decreases |ts|, 0
  {
    if ts != [] {
      match ts[0] {
        case Item(i) =>
          if |ts| > 2 && ts[1].REL? && ts[2].Item? {
            assert ts[1..][0] == ts[1] && ts[1..][1..] == ts[2..] && ts[2..][0] == ts[2] && ts[2..][1..] == ts[3..];
            assert Surplus(ts[1..]) == Surplus(ts[2..]) == Surplus(ts[3..]);
          }
        case NOT => FactorMatches(ts[1..], m);
        case OPEN => ExprMatches(ts[1..], m);
        case _ =>
      }
    }
  }

  lemma {:induction false} AndMatches(ts: seq<Token>, m: Option<KconfigModel.Item>)
    ensures Matches(ts, ParseAnd(ts, m))
    decreases |ts|, 1
  {
    FactorMatches(ts, m);
    var p := ParseFactor(ts, m);
    hide ParseFactor;
    if p.Some? && Head(p.value.1) == AND { AndMatches(p.value.1[1..], m); }
  }

  /** What is parsed has matching parentheses, whatever comes behind it. */
  lemma {:induction false} ExprMatches(ts: seq<Token>, m: Option<KconfigModel.Item>)
    ensures Matches(ts, ParseExpr(ts, m))
    decreases |ts|, 2
  {
    AndMatches(ts, m);
    var p := ParseAnd(ts, m);
    hide ParseAnd;
    if p.Some? && Head(p.value.1) == OR { ExprMatches(p.value.1[1..], m); }
  }
}
