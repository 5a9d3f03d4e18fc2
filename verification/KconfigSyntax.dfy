/** Expression syntax: the recursive-descent parser over tokens, the printer, and
    what survives going through both. */
module KconfigSyntax {
  import opened Wrappers
  import opened KconfigModel

  /** Symbols and constants. */
  type Atom = i: Item | !i.Ch? witness Lit(0)

  /** `END` is the None that closes every token list. A choice can be printed but
      there is no way to write one in an expression. */
  datatype Token = Item(item: Atom) | CHOICE(choice: nat) | AND | OR | NOT | OPEN | CLOSE | REL(rel: Relation) | END

  type Parsed = Option<(Expr, seq<Token>)>

  function Head(ts: seq<Token>): Token { if ts == [] then END else ts[0] }

  // ------------------------------------------------------------- the grammar

  /** `modules` is what a plain m is and-ed with, if it is (transform_m). */
  function ParseFactor(ts: seq<Token>, modules: Option<Item>): (r: Parsed)
    ensures r.Some? ==> |r.value.1| < |ts|
    decreases |ts|, 0
  {
    match Head(ts)
    case Item(i) =>
      (match Head(ts[1..])
       case REL(rel) =>
         if |ts| > 2 && ts[2].Item? then Some((Rel(rel, i, ts[2].item), ts[3..])) else None
       case _ => Some((Plain(i, modules), ts[1..])))
    case NOT =>
      (match ParseFactor(ts[1..], modules)
       case None => None
       case Some((x, rest)) => Some((Not(x), rest)))
    case OPEN =>
      (match ParseExpr(ts[1..], modules)
       case None => None
       case Some((x, rest)) => if Head(rest) == CLOSE then Some((x, rest[1..])) else None)
    case _ => None
  }

  function ParseAnd(ts: seq<Token>, modules: Option<Item>): (r: Parsed)
    ensures r.Some? ==> |r.value.1| < |ts|
    decreases |ts|, 1
  {
    match ParseFactor(ts, modules)
    case None => None
    case Some((x, rest)) =>
      if Head(rest) != AND then Some((x, rest))
      else match ParseAnd(rest[1..], modules)
        case None => None
        case Some((y, more)) => Some((And(x, y), more))
  }

  function ParseExpr(ts: seq<Token>, modules: Option<Item>): (r: Parsed)
    ensures r.Some? ==> |r.value.1| < |ts|
    decreases |ts|, 2
  {
    match ParseAnd(ts, modules)
    case None => None
    case Some((x, rest)) =>
      if Head(rest) != OR then Some((x, rest))
      else match ParseExpr(rest[1..], modules)
        case None => None
        case Some((y, more)) => Some((Or(x, y), more))
  }

  /** A symbol that is not part of a relation. */
  function Plain(i: Item, modules: Option<Item>): Expr {
    if i == Lit(1) && modules.Some? then And(Leaf(i), Leaf(modules.value)) else Leaf(i)
  }

  // ------------------------------------------------------------- the printer

  function ItemToken(i: Item): Token { if i.Ch? then CHOICE(i.choice) else Item(i) }

  /** expr_str(), as tokens. */
  function Print(x: Expr): seq<Token>
    decreases x, 0
  {
    match x
    case Leaf(i) => [ItemToken(i)]
    case And(l, r) => Operand(l, true) + [AND] + Operand(r, true)
    case Or(l, r) => Operand(l, false) + [OR] + Operand(r, false)
    case Not(Leaf(i)) => [NOT, ItemToken(i)]
    case Not(y) => [NOT, OPEN] + Print(y) + [CLOSE]
    case Rel(rel, a, b) => [ItemToken(a), REL(rel), ItemToken(b)]
  }

  predicate NoChoices(x: Expr) {
    match x
    case Leaf(i) => !i.Ch?
    case And(l, r) => NoChoices(l) && NoChoices(r)
    case Or(l, r) => NoChoices(l) && NoChoices(r)
    case Not(y) => NoChoices(y)
    case Rel(_, a, b) => !a.Ch? && !b.Ch?
  }

  /** _parenthesize(): an OR under an AND, or an AND under an OR. */
  function Operand(x: Expr, underAnd: bool): seq<Token>
    decreases x, 1
  {
    if (if underAnd then x.Or? else x.And?) then [OPEN] + Print(x) + [CLOSE] else Print(x)
  }

  // ------------------------------------------------ the right-associated form

  function AppendAnd(x: Expr, y: Expr): Expr {
    if x.And? then And(x.left, AppendAnd(x.right, y)) else And(x, y)
  }

  function AppendOr(x: Expr, y: Expr): Expr {
    if x.Or? then Or(x.left, AppendOr(x.right, y)) else Or(x, y)
  }

  /** Chains of one operator nest to the right. */
  function RightAssociated(x: Expr): (r: Expr)
    ensures r.And? == x.And? && r.Or? == x.Or? && r.Leaf? == x.Leaf?
  {
    match x
    case And(l, r) => AppendAnd(RightAssociated(l), RightAssociated(r))
    case Or(l, r) => AppendOr(RightAssociated(l), RightAssociated(r))
    case Not(y) => Not(RightAssociated(y))
    case _ => x
  }

  lemma {:induction false} AppendAndAssociates(x: Expr, y: Expr, z: Expr)
    ensures AppendAnd(AppendAnd(x, y), z) == AppendAnd(x, AppendAnd(y, z))
  {
    if x.And? { AppendAndAssociates(x.right, y, z); }
  }

  lemma {:induction false} AppendOrAssociates(x: Expr, y: Expr, z: Expr)
    ensures AppendOr(AppendOr(x, y), z) == AppendOr(x, AppendOr(y, z))
  {
    if x.Or? { AppendOrAssociates(x.right, y, z); }
  }

  lemma {:induction false} AppendAndValue(e: Env, x: Expr, y: Expr)
    ensures Eval(e, AppendAnd(x, y)) == Eval(e, And(x, y))
  {
    if x.And? { AppendAndValue(e, x.right, y); }
  }

  lemma {:induction false} AppendOrValue(e: Env, x: Expr, y: Expr)
    ensures Eval(e, AppendOr(x, y)) == Eval(e, Or(x, y))
  {
    if x.Or? { AppendOrValue(e, x.right, y); }
  }

  /** Re-association changes neither the value nor the cells that evaluation
      looks at, under any valuation. */
  lemma {:induction false} SameMeaning(e: Env, x: Expr)
    ensures Eval(e, RightAssociated(x)) == Eval(e, x)
  {
    match x
    case And(l, r) =>
      SameMeaning(e, l); SameMeaning(e, r);
      AppendAndValue(e, RightAssociated(l), RightAssociated(r));
    case Or(l, r) =>
      SameMeaning(e, l); SameMeaning(e, r);
      AppendOrValue(e, RightAssociated(l), RightAssociated(r));
    case Not(y) => SameMeaning(e, y);
    case _ =>
  }

  lemma {:induction false} AppendAndPrint(x: Expr, y: Expr)
    ensures Print(AppendAnd(x, y)) == Print(And(x, y))
  {
    if x.And? {
      AppendAndPrint(x.right, y);
      var z := AppendAnd(x.right, y);
      var l, m, r := Operand(x.left, true), Operand(x.right, true), Operand(y, true);
      assert Print(And(x.left, z)) == l + [AND] + Operand(z, true);
      assert Operand(z, true) == Print(z) == m + [AND] + r;
      assert Operand(x, true) == Print(x) == l + [AND] + m;
      assert l + [AND] + (m + [AND] + r) == (l + [AND] + m) + [AND] + r;
    }
  }

  lemma {:induction false} AppendOrPrint(x: Expr, y: Expr)
    ensures Print(AppendOr(x, y)) == Print(Or(x, y))
  {
    if x.Or? {
      AppendOrPrint(x.right, y);
      var z := AppendOr(x.right, y);
      var l, m, r := Operand(x.left, false), Operand(x.right, false), Operand(y, false);
      assert Print(Or(x.left, z)) == l + [OR] + Operand(z, false);
      assert Operand(z, false) == Print(z) == m + [OR] + r;
      assert Operand(x, false) == Print(x) == l + [OR] + m;
      assert l + [OR] + (m + [OR] + r) == (l + [OR] + m) + [OR] + r;
    }
  }

  lemma {:induction false} SamePrint(x: Expr)
    ensures Print(RightAssociated(x)) == Print(x)
  {
    match x
    case And(l, r) =>
      SamePrint(l); SamePrint(r);
      AppendAndPrint(RightAssociated(l), RightAssociated(r));
    case Or(l, r) =>
      SamePrint(l); SamePrint(r);
      AppendOrPrint(RightAssociated(l), RightAssociated(r));
    case Not(y) => SamePrint(y);
    case _ =>
  }

  // ------------------------------------------------------ parsing what is printed

  lemma AtomBack(x: Expr, rest: seq<Token>)
    requires NoChoices(x)
    requires (x.Leaf? || x.Rel?) && !Head(rest).REL?
    ensures ParseFactor(Print(x) + rest, None) == Some((x, rest))
  {
    if x.Leaf? {
      assert (Print(x) + rest)[1..] == rest;
    } else {
      assert (Print(x) + rest)[3..] == rest;
    }
  }

  lemma {:induction false} FactorBack(x: Expr, rest: seq<Token>)
    requires NoChoices(x)
    requires !x.And? && !x.Or? && !Head(rest).REL?
    ensures ParseFactor(Print(x) + rest, None) == Some((RightAssociated(x), rest))
    decreases x, 0
  {
    hide ParseExpr, ParseAnd;
    if x.Not? {
      var inner := if x.arg.Leaf? then Print(x.arg) else [OPEN] + Print(x.arg) + [CLOSE];
      assert Print(x) == [NOT] + inner;
      assert (Print(x) + rest)[1..] == inner + rest;
      if x.arg.Leaf? { AtomBack(x.arg, rest); } else { ParenthesesBack(x.arg, rest); }
    } else {
      AtomBack(x, rest);
    }
  }

  lemma {:induction false} ParenthesesBack(x: Expr, rest: seq<Token>)
    requires NoChoices(x)
    ensures ParseFactor([OPEN] + Print(x) + [CLOSE] + rest, None) == Some((RightAssociated(x), rest))
    decreases x, 6
  {
    ExprBack(x, [CLOSE] + rest);
    var ts := [OPEN] + Print(x) + [CLOSE] + rest;
    assert ts[1..] == Print(x) + ([CLOSE] + rest);
    assert ([CLOSE] + rest)[1..] == rest;
  }

  /** An operand that is not itself a chain of the operator around it. */
  lemma {:induction false} OperandBack(x: Expr, underAnd: bool, rest: seq<Token>)
    requires NoChoices(x)
    requires (if underAnd then !x.And? else !x.Or?) && !Head(rest).REL?
    ensures ParseFactor(Operand(x, underAnd) + rest, None) == Some((RightAssociated(x), rest))
    decreases x, 7
  {
    if x.And? || x.Or? { ParenthesesBack(x, rest); } else { FactorBack(x, rest); }
  }

  /** An operand before && puts its chain in front of the chain behind. */
  lemma {:induction false} BeforeAnd(x: Expr, behind: seq<Token>, y: Expr, rest: seq<Token>)
    requires NoChoices(x)
    requires ParseAnd(behind, None) == Some((y, rest))
    ensures ParseAnd(Operand(x, true) + [AND] + behind, None) == Some((AppendAnd(RightAssociated(x), y), rest))
    decreases x, 8
  {
    hide ParseFactor;
    var ts := Operand(x, true) + [AND] + behind;
    if x.And? {
      BeforeAnd(x.right, behind, y, rest);
      var z := AppendAnd(RightAssociated(x.right), y);
      BeforeAnd(x.left, Operand(x.right, true) + [AND] + behind, z, rest);
      assert ts == Operand(x.left, true) + [AND] + (Operand(x.right, true) + [AND] + behind);
      AppendAndAssociates(RightAssociated(x.left), RightAssociated(x.right), y);
    } else {
      OperandBack(x, true, [AND] + behind);
      assert ts == Operand(x, true) + ([AND] + behind);
      assert ([AND] + behind)[1..] == behind;
    }
  }

  lemma {:induction false} BeforeOr(x: Expr, behind: seq<Token>, y: Expr, rest: seq<Token>)
    requires NoChoices(x)
    requires ParseExpr(behind, None) == Some((y, rest))
    ensures ParseExpr(Operand(x, false) + [OR] + behind, None) == Some((AppendOr(RightAssociated(x), y), rest))
    decreases x, 8
  {
    hide ParseFactor;
    var ts := Operand(x, false) + [OR] + behind;
    if x.Or? {
      BeforeOr(x.right, behind, y, rest);
      var z := AppendOr(RightAssociated(x.right), y);
      BeforeOr(x.left, Operand(x.right, false) + [OR] + behind, z, rest);
      assert ts == Operand(x.left, false) + [OR] + (Operand(x.right, false) + [OR] + behind);
      AppendOrAssociates(RightAssociated(x.left), RightAssociated(x.right), y);
    } else {
      OperandBack(x, false, [OR] + behind);
      assert ts == Operand(x, false) + ([OR] + behind);
      assert ([OR] + behind)[1..] == behind;
    }
  }

  /** The last operand of an && chain. */
  lemma {:induction false} AndBack(x: Expr, rest: seq<Token>)
    requires NoChoices(x)
    requires !Head(rest).REL? && Head(rest) != AND
    ensures ParseAnd(Operand(x, true) + rest, None) == Some((RightAssociated(x), rest))
    decreases x, 8
  {
    hide ParseFactor;
    if x.And? {
      AndBack(x.right, rest);
      BeforeAnd(x.left, Operand(x.right, true) + rest, RightAssociated(x.right), rest);
      assert Operand(x, true) + rest == Operand(x.left, true) + [AND] + (Operand(x.right, true) + rest);
    } else {
      OperandBack(x, true, rest);
    }
  }

  lemma {:induction false} OrBack(x: Expr, rest: seq<Token>)
    requires NoChoices(x)
    requires !Head(rest).REL? && Head(rest) != AND && Head(rest) != OR
    ensures ParseExpr(Operand(x, false) + rest, None) == Some((RightAssociated(x), rest))
    decreases x, 8
  {
    hide ParseFactor;
    if x.Or? {
      OrBack(x.right, rest);
      BeforeOr(x.left, Operand(x.right, false) + rest, RightAssociated(x.right), rest);
      assert Operand(x, false) + rest == Operand(x.left, false) + [OR] + (Operand(x.right, false) + rest);
    } else {
      OperandBack(x, false, rest);
    }
  }

  lemma {:induction false} ExprBack(x: Expr, rest: seq<Token>)
    requires NoChoices(x)
    requires !Head(rest).REL? && Head(rest) != AND && Head(rest) != OR
    ensures ParseExpr(Print(x) + rest, None) == Some((RightAssociated(x), rest))
    decreases x, 5
  {
    match x
    case And(l, r) =>
      AndBack(r, rest);
      BeforeAnd(l, Operand(r, true) + rest, RightAssociated(r), rest);
      assert Print(x) + rest == Operand(l, true) + [AND] + (Operand(r, true) + rest);
    case Or(l, r) =>
      OrBack(r, rest);
      BeforeOr(l, Operand(r, false) + rest, RightAssociated(r), rest);
      assert Print(x) + rest == Operand(l, false) + [OR] + (Operand(r, false) + rest);
    case _ => FactorBack(x, rest);
  }

  /** Parsing the tokens of a printed expression gives back its right-associated
      form, which means the same, and which prints as the same tokens. */
  lemma PrintParse(x: Expr, rest: seq<Token>)
    requires NoChoices(x)
    requires !Head(rest).REL? && Head(rest) != AND && Head(rest) != OR
    ensures var r := ParseExpr(Print(x) + rest, None);
            && r.Some? && r.value.1 == rest
            && (forall e :: Eval(e, r.value.0) == Eval(e, x))
            && Print(r.value.0) == Print(x)
  {
    ExprBack(x, rest);
    SamePrint(x);
    forall e ensures Eval(e, RightAssociated(x)) == Eval(e, x) { SameMeaning(e, x); }
  }

  // ------------------------------------------------- parsing any token list

  /** The effect of transform_m on an expression. */
  function Transformed(x: Expr, modules: Item): Expr {
    match x
    case Leaf(i) => Plain(i, Some(modules))
    case And(l, r) => And(Transformed(l, modules), Transformed(r, modules))
    case Or(l, r) => Or(Transformed(l, modules), Transformed(r, modules))
    case Not(y) => Not(Transformed(y, modules))
    case Rel(_, _, _) => x
  }

  function TransformedParse(p: Parsed, modules: Item): Parsed {
    match p case None => None case Some((x, rest)) => Some((Transformed(x, modules), rest))
  }

  lemma {:induction false} TransformFactor(ts: seq<Token>, m: Item)
    ensures ParseFactor(ts, Some(m)) == TransformedParse(ParseFactor(ts, None), m)
    decreases |ts|, 0
  {
    hide ParseAnd, ParseExpr;
    if ts != [] {
      match ts[0]
      case NOT => TransformFactor(ts[1..], m);
      case OPEN => TransformAfterwards(ts[1..], m);
      case _ =>
    }
  }

  lemma {:induction false} TransformAnd(ts: seq<Token>, m: Item)
    ensures ParseAnd(ts, Some(m)) == TransformedParse(ParseAnd(ts, None), m)
    decreases |ts|, 1
  {
    hide ParseFactor, ParseExpr, Plain;
    TransformFactor(ts, m);
    var p := ParseFactor(ts, None);
    if p.Some? && Head(p.value.1) == AND { TransformAnd(p.value.1[1..], m); }
  }

  /** Rewriting m while parsing is the same as rewriting it afterwards, on every
      token list: it never changes what is accepted or how it nests. */
  lemma {:induction false} TransformAfterwards(ts: seq<Token>, m: Item)
    ensures ParseExpr(ts, Some(m)) == TransformedParse(ParseExpr(ts, None), m)
    decreases |ts|, 2
  {
    hide ParseFactor, ParseAnd, Plain;
    TransformAnd(ts, m);
    var p := ParseAnd(ts, None);
    if p.Some? && Head(p.value.1) == OR { TransformAfterwards(p.value.1[1..], m); }
  }

  function Weakened(x: Expr): Expr {
    match x
    case Leaf(i) => if i == Lit(1) then NO else x
    case And(l, r) => And(Weakened(l), Weakened(r))
    case Or(l, r) => Or(Weakened(l), Weakened(r))
    case Not(y) => Not(Weakened(y))
    case Rel(_, _, _) => x
  }

  /** A transformed m is n while MODULES is n, and m otherwise. */
  lemma {:induction false} TransformedValue(e: Env, x: Expr, modules: Item)
    ensures Eval(e, Transformed(x, modules)).val ==
            Eval(e, if ItemTri(e, modules).val == 0 then Weakened(x) else x).val
  {
    match x
    case Leaf(_) =>
    case And(l, r) => TransformedValue(e, l, modules); TransformedValue(e, r, modules);
    case Or(l, r) => TransformedValue(e, l, modules); TransformedValue(e, r, modules);
    case Not(y) => TransformedValue(e, y, modules);
    case Rel(_, _, _) =>
  }

  function Bare(ts: seq<Token>): seq<Token> {
    if ts == [] then []
    else (if ts[0] == OPEN || ts[0] == CLOSE then [] else [ts[0]]) + Bare(ts[1..])
  }

  lemma BareFront(ts: seq<Token>)
    requires ts != []
    ensures Bare(ts) == (if ts[0] == OPEN || ts[0] == CLOSE then [] else [ts[0]]) + Bare(ts[1..])
  {
  }

  lemma {:induction false} BareConcat(a: seq<Token>, b: seq<Token>)
    ensures Bare(a + b) == Bare(a) + Bare(b)
  {
    if a == [] {
      assert a + b == b;
    } else {
      hide Bare;
      var c := a + b;
      assert c[0] == a[0] && c[1..] == a[1..] + b;
      BareFront(a);
      BareFront(c);
      BareConcat(a[1..], b);
      var f, x, y := (if a[0] == OPEN || a[0] == CLOSE then [] else [a[0]]), Bare(a[1..]), Bare(b);
      assert f + (x + y) == (f + x) + y;
    }
  }

  lemma BareJoin(a: seq<Token>, op: Token, b: seq<Token>)
    requires op != OPEN && op != CLOSE
    ensures Bare(a + [op] + b) == Bare(a) + [op] + Bare(b)
  {
    BareConcat(a + [op], b);
    BareConcat(a, [op]);
    assert [op][1..] == [];
  }

  lemma BareParentheses(a: seq<Token>)
    ensures Bare([OPEN] + a + [CLOSE]) == Bare(a)
  {
    BareConcat([OPEN] + a, [CLOSE]);
    BareConcat([OPEN], a);
    assert [OPEN][1..] == [] && [CLOSE][1..] == [];
  }

  lemma BareOperand(x: Expr, underAnd: bool)
    ensures Bare(Operand(x, underAnd)) == Bare(Print(x))
  {
    hide Bare, Print;
    BareParentheses(Print(x));
  }

  /** What a parse took from the front of `ts` reads, parentheses aside, exactly
      like the expression it made of it. */
  ghost predicate Keeps(ts: seq<Token>, p: Parsed) {
    p.Some? ==> Bare(ts) == Bare(Print(p.value.0)) + Bare(p.value.1)
  }

  lemma BareBinary(x: Expr, y: Expr)
    ensures Bare(Print(And(x, y))) == Bare(Print(x)) + [AND] + Bare(Print(y))
    ensures Bare(Print(Or(x, y))) == Bare(Print(x)) + [OR] + Bare(Print(y))
  {
    hide Operand, Bare;
    BareJoin(Operand(x, true), AND, Operand(y, true));
    BareJoin(Operand(x, false), OR, Operand(y, false));
    BareOperand(x, true);
    BareOperand(x, false);
    BareOperand(y, true);
    BareOperand(y, false);
  }

  lemma BareNot(x: Expr)
    ensures Bare(Print(Not(x))) == [NOT] + Bare(Print(x))
  {
    assert Bare([]) == [];
    hide Bare, Operand;
    if x.Leaf? {
      BareJoin([], NOT, Print(x));
      assert Print(Not(x)) == [] + [NOT] + Print(x);
    } else {
      BareJoin([], NOT, [OPEN] + Print(x) + [CLOSE]);
      BareParentheses(Print(x));
      assert Print(Not(x)) == [] + [NOT] + ([OPEN] + Print(x) + [CLOSE]);
    }
  }

  lemma BareAtom(ts: seq<Token>)
    requires ts != [] && ts[0].Item?
    ensures Keeps(ts, Some((Leaf(ts[0].item), ts[1..])))
    ensures |ts| > 2 && ts[1].REL? && ts[2].Item? ==>
              Keeps(ts, Some((Rel(ts[1].rel, ts[0].item, ts[2].item), ts[3..])))
  {
    BareConcat(ts[..1], ts[1..]);
    assert ts == ts[..1] + ts[1..] && ts[..1] == Print(Leaf(ts[0].item));
    if |ts| > 2 && ts[1].REL? && ts[2].Item? {
      BareConcat(ts[..3], ts[3..]);
      assert ts == ts[..3] + ts[3..] && ts[..3] == Print(Rel(ts[1].rel, ts[0].item, ts[2].item));
    }
  }

  lemma {:induction false} NotKeeps(ts: seq<Token>)
    requires ts != [] && ts[0] == NOT
    ensures Keeps(ts, ParseFactor(ts, None))
    decreases |ts|, 0
  {
    hide Print, ParseAnd, ParseExpr, Bare;
    FactorKeeps(ts[1..]);
    var p := ParseFactor(ts[1..], None);
    if p.Some? {
      BareNot(p.value.0);
      BareFront(ts);
    }
  }

  lemma {:induction false} ParenthesesKeep(ts: seq<Token>)
    requires ts != [] && ts[0] == OPEN
    ensures Keeps(ts, ParseFactor(ts, None))
    decreases |ts|, 0
  {
    hide Print, ParseAnd, ParseExpr, Bare;
    ExprKeeps(ts[1..]);
    var p := ParseExpr(ts[1..], None);
    if p.Some? && Head(p.value.1) == CLOSE {
      BareFront(ts);
      BareFront(p.value.1);
    }
  }

  lemma {:induction false} FactorKeeps(ts: seq<Token>)
    ensures Keeps(ts, ParseFactor(ts, None))
    decreases |ts|, 1
  {
    hide Print, ParseAnd, ParseExpr, Bare;
    if ts != [] {
      match ts[0]
      case Item(_) => BareAtom(ts);
      case NOT => NotKeeps(ts);
      case OPEN => ParenthesesKeep(ts);
      case _ =>
    }
  }

  lemma {:induction false} AndKeeps(ts: seq<Token>)
    ensures Keeps(ts, ParseAnd(ts, None))
    decreases |ts|, 2
  {
    hide Print, ParseFactor, ParseExpr, Bare;
    FactorKeeps(ts);
    var p := ParseFactor(ts, None);
    if p.Some? && Head(p.value.1) == AND {
      AndKeeps(p.value.1[1..]);
      var q := ParseAnd(p.value.1[1..], None);
      if q.Some? { BareFront(p.value.1); BareBinary(p.value.0, q.value.0); }
    }
  }

  /** Parsing drops nothing but parentheses, reorders nothing and invents
      nothing, on every token list. */
  lemma {:induction false} ExprKeeps(ts: seq<Token>)
    ensures Keeps(ts, ParseExpr(ts, None))
    decreases |ts|, 3
  {
    hide Print, ParseFactor, ParseAnd, Bare;
    AndKeeps(ts);
    var p := ParseAnd(ts, None);
    if p.Some? && Head(p.value.1) == OR {
      ExprKeeps(p.value.1[1..]);
      var q := ParseExpr(p.value.1[1..], None);
      if q.Some? { BareFront(p.value.1); BareBinary(p.value.0, q.value.0); }
    }
  }

  // --------------------------------------------------------------- the parser

  datatype Result = Ok(expr: Expr) | Malformed

  /** The position in the token list is shared by the mutually recursive parse
      methods, which advance it in place. */
  class Parser {
    const tokens: seq<Token>
    const modules: Option<Item>
    var i: nat

    ghost predicate Valid() reads this { tokens != [] && tokens[|tokens| - 1] == END && i < |tokens| }

    ghost function Ahead(): seq<Token> reads this requires Valid() { tokens[i..] }

    /** A method did what the grammar function says: it has the expression and
        stands behind it, or it raised an error where there is none. */
    ghost predicate Did(p: Parsed, r: Result)
      reads this
    {
      match p
      case Some((x, rest)) => r == Ok(x) && Valid() && Ahead() == rest
      case None => r == Malformed
    }

    constructor (ts: seq<Token>, modules: Option<Item>)
      requires ts != [] && ts[|ts| - 1] == END
      ensures Valid() && Ahead() == ts && this.modules == modules
    {
      tokens, i := ts, 0;
      this.modules := modules;
    }

    method CheckToken(t: Token) returns (found: bool)
      requires Valid() && t != END
      modifies this
      ensures Valid() && found == (old(Ahead())[0] == t)
      ensures Ahead() == if found then old(Ahead())[1..] else old(Ahead())
    {
      found := tokens[i] == t;
      if found { i := i + 1; }
    }

    method Factor() returns (r: Result)
      requires Valid()
      modifies this
      ensures Did(ParseFactor(old(Ahead()), modules), r)
      decreases |tokens| - i, 0
    {
      hide ParseExpr;
      var token := tokens[i];
      if token == END { return Malformed; }
      i := i + 1;
      assert Ahead() == old(Ahead())[1..];
      match token {
        case Item(item) =>
          if !tokens[i].REL? { return Ok(Plain(item, modules)); }
          i := i + 1;
          assert Ahead() == old(Ahead())[2..];
          if !tokens[i].Item? { return Malformed; }
          i := i + 1;
          return Ok(Rel(tokens[i - 2].rel, item, tokens[i - 1].item));
        case NOT =>
          r := Factor();
          if r.Ok? { r := Ok(Not(r.expr)); }
          return;
        case OPEN =>
          r := Expression();
          if r.Ok? {
            var closed := CheckToken(CLOSE);
            if closed { return; }
          }
        case _ =>
      }
      r := Malformed;
    }

    method AndExpr() returns (r: Result)
      requires Valid()
      modifies this
      ensures Did(ParseAnd(old(Ahead()), modules), r)
      decreases |tokens| - i, 1
    {
      hide ParseFactor;
      r := Factor();
      if r.Ok? {
        var more := CheckToken(AND);
        if more {
          var rest := AndExpr();
          r := if rest.Ok? then Ok(And(r.expr, rest.expr)) else Malformed;
        }
      }
    }

    method Expression() returns (r: Result)
      requires Valid()
      modifies this
      ensures Did(ParseExpr(old(Ahead()), modules), r)
      decreases |tokens| - i, 2
    {
      hide ParseAnd;
      r := AndExpr();
      if r.Ok? {
        var more := CheckToken(OR);
        if more {
          var rest := Expression();
          r := if rest.Ok? then Ok(Or(r.expr, rest.expr)) else Malformed;
        }
      }
    }
  }
}
