/** What expressions mean, apart from how far they are evaluated. */
module KconfigExpr {
  import opened Wrappers
  import opened KconfigModel
  import opened KconfigChoice
  import opened KconfigLaws
  import opened KconfigValues

  /** What stands alone: constants are themselves, unknown names are n, symbols have
      their tristate value and choices their mode. */
  lemma Alone(e: Env, t: Tri, name: string, s: nat, c: nat)
    ensures Eval(e, Leaf(Lit(t))).val == t && Eval(e, Leaf(Name(name))).val == 0
    ensures Eval(e, Leaf(Sym(s))).val == TriOf(e, s) && Eval(e, Leaf(Ch(c))).val == Mode(e, c).val
  {
    hide Mode;
  }

  /** Conjunction is the minimum, disjunction the maximum, and negation turns n and y
      round; whether the right operand is looked at makes no difference. */
  lemma Connectives(e: Env, x: Expr, y: Expr)
    ensures Eval(e, And(x, y)).val == if Eval(e, x).val <= Eval(e, y).val then Eval(e, x).val else Eval(e, y).val
    ensures Eval(e, Or(x, y)).val == if Eval(e, x).val <= Eval(e, y).val then Eval(e, y).val else Eval(e, x).val
    ensures Eval(e, Not(x)).val == 2 - Eval(e, x).val
    ensures Eval(e, Not(Not(x))).val == Eval(e, x).val
    ensures Eval(e, Not(And(x, y))).val == Eval(e, Or(Not(x), Not(y))).val
  {
  }

  // ------------------------------------------------------------ the order of strings

  /** The strings agree up to `i`, where the first ends or has the smaller character. */
  predicate SmallerAt(a: string, b: string, i: nat) {
    i <= |a| && i < |b| && a[..i] == b[..i] && (i == |a| || a[i] < b[i])
  }

  /** Strings are ordered by their first difference, and a prefix comes first. */
  lemma {:induction false} FirstDifference(a: string, b: string, i: nat)
    requires SmallerAt(a, b, i)
    ensures StrCmp(a, b) < 0 < StrCmp(b, a)
  {
    if i > 0 {
      assert a[0] == a[..i][0] == b[..i][0] == b[0];
      assert a[1..][..i - 1] == a[..i][1..] && b[1..][..i - 1] == b[..i][1..];
      FirstDifference(a[1..], b[1..], i - 1);
    }
  }

  /** Either the strings are equal or one of them is smaller. */
  lemma {:induction false} Difference(a: string, b: string) returns (i: nat)
    ensures a == b || SmallerAt(a, b, i) || SmallerAt(b, a, i)
  {
    i := 0;
    if a != [] && b != [] && a[0] == b[0] {
      i := Difference(a[1..], b[1..]);
      assert a == [a[0]] + a[1..] && b == [b[0]] + b[1..];
      if a[1..] != b[1..] {
        assert a[..i + 1] == [a[0]] + a[1..][..i] && b[..i + 1] == [b[0]] + b[1..][..i];
        i := i + 1;
      }
    }
  }

  /** The comparison of strings is a total order, and 0 exactly for equal strings. */
  lemma StringOrder(a: string, b: string)
    ensures StrCmp(a, b) == 0 <==> a == b
    ensures StrCmp(a, b) < 0 <==> StrCmp(b, a) > 0
    ensures StrCmp(a, b) < 0 <==> exists i: nat :: SmallerAt(a, b, i)
  {
    hide SmallerAt;
    var i := Difference(a, b);
    if SmallerAt(a, b, i) { FirstDifference(a, b, i); }
    if SmallerAt(b, a, i) { FirstDifference(b, a, i); }
    forall j: nat | SmallerAt(a, b, j) ensures StrCmp(a, b) < 0 { FirstDifference(a, b, j); }
  }

  // ------------------------------------------------------------------- relations

  /** What an operand counts as: its tristate if it is bool or tristate, otherwise its
      text as a number in the base of its type. */
  function AsNumber(e: Env, i: Item): Option<int> {
    match i
    case Lit(t) => Some(t)
    case Name(name) => e.k.parse(name, 0)
    case Sym(s) =>
      if e.k.S(s).origType == BOOL || e.k.S(s).origType == TRISTATE then Some(TriOf(e, s))
      else e.k.parse(StrOf(e, s), if e.k.S(s).origType == HEX then 16 else if e.k.S(s).origType == INT then 10 else 0)
    case Ch(c) =>
      if e.k.C(c).origType == BOOL || e.k.C(c).origType == TRISTATE then Some(Mode(e, c).val)
      else e.k.parse(Text(e, i), if e.k.C(c).origType == HEX then 16 else if e.k.C(c).origType == INT then 10 else 0)
  }

  /** Two string symbols are compared as strings, and so is everything of which one
      side is not a number. */
  predicate ByText(e: Env, a: Item, b: Item) {
    || (a.Sym? && b.Sym? && e.k.S(a.sym).origType == STRING && e.k.S(b.sym).origType == STRING)
    || AsNumber(e, a).None? || AsNumber(e, b).None?
  }

  /** Choices are bool or tristate, if anything. */
  predicate NotStringChoice(k: Config, i: Item) { i.Ch? ==> k.C(i.choice).origType != STRING }

  lemma OperandReads(e: Env, i: Item)
    ensures ItemStr(e, i).val == Text(e, i) && ItemNum(e, i).val == AsNumber(e, i)
  {
    hide Mode;
  }

  /** What decides a comparison. */
  lemma ComparedBy(e: Env, a: Item, b: Item)
    requires NotStringChoice(e.k, a) && NotStringChoice(e.k, b)
    ensures Compare(e, a, b).val ==
            if ByText(e, a, b) then StrCmp(Text(e, a), Text(e, b)) else AsNumber(e, a).value - AsNumber(e, b).value
  {
    OperandReads(e, a);
    OperandReads(e, b);
    hide ItemStr, ItemNum, Text, AsNumber, StrCmp;
  }

  /** The relations, by numbers where both sides are numbers and otherwise by text. */
  lemma RelationLaw(e: Env, a: Item, b: Item)
    requires NotStringChoice(e.k, a) && NotStringChoice(e.k, b)
    ensures var x, y := Text(e, a), Text(e, b);
            var less := if ByText(e, a, b) then exists i: nat :: SmallerAt(x, y, i)
                        else AsNumber(e, a).value < AsNumber(e, b).value;
            var same := if ByText(e, a, b) then x == y else AsNumber(e, a).value == AsNumber(e, b).value;
            && Eval(e, Rel(EQUAL, a, b)).val == (if same then 2 else 0)
            && Eval(e, Rel(UNEQUAL, a, b)).val == (if same then 0 else 2)
            && Eval(e, Rel(LESS, a, b)).val == (if less then 2 else 0)
            && Eval(e, Rel(LESS_EQUAL, a, b)).val == (if less || same then 2 else 0)
            && Eval(e, Rel(GREATER, a, b)).val == (if less || same then 0 else 2)
            && Eval(e, Rel(GREATER_EQUAL, a, b)).val == (if less then 0 else 2)
  {
    hide Compare, Text, AsNumber, StrCmp, SmallerAt, ByText;
    ComparedBy(e, a, b);
    StringOrder(Text(e, a), Text(e, b));
  }

  lemma SameKind(e: Env, a: Item, b: Item)
    ensures ByText(e, a, b) == ByText(e, b, a)
  {
  }

  /** Turning a relation round turns its operands round. */
  lemma Turned(e: Env, a: Item, b: Item)
    requires NotStringChoice(e.k, a) && NotStringChoice(e.k, b)
    ensures Eval(e, Rel(LESS, a, b)).val == Eval(e, Rel(GREATER, b, a)).val
    ensures Eval(e, Rel(EQUAL, a, b)).val == Eval(e, Rel(EQUAL, b, a)).val
    ensures Eval(e, Rel(EQUAL, a, a)).val == 2
  {
    hide Compare, Text, AsNumber, StrCmp, ByText;
    ComparedBy(e, a, b);
    ComparedBy(e, b, a);
    ComparedBy(e, a, a);
    SameKind(e, a, b);
    StringOrder(Text(e, a), Text(e, b));
    StringOrder(Text(e, b), Text(e, a));
    StringOrder(Text(e, a), Text(e, a));
  }
}
