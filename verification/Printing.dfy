/** Writing a tree down with only the parentheses its operators require. */
module Printing {
  import opened ExprGrammar

  /** Trees the grammar has: real operators in their places. */
  predicate IsTree(g: Table, e: Expr) {
    match e
    case Atom(_) => true
    case Unary(k, o) => IsPrefix(k) && IsTree(g, o)
    case Binary(k, l, r) => g(k) > 0 && IsTree(g, l) && IsTree(g, r)
    case Ternary(c, y, n) => IsTree(g, c) && IsTree(g, y) && IsTree(g, n)
  }

  function Prec(g: Table, e: Expr): nat {
    match e
    case Binary(k, _, _) => g(k)
    case Ternary(_, _, _) => 3
    case Unary(_, _) => UNARY
    case Atom(_) => OPERAND
  }

  /** How tightly an operator's left operand must bind to stand without parentheses: as tightly as
      the operator, except that an assignment's must not end in a ternary or an assignment. */
  function LeftLevel(g: Table, k: Kind): nat { if g(k) == 2 then 4 else g(k) }

  /** Its right operand: more tightly, except that assignments group to the right. */
  function RightLevel(g: Table, k: Kind): nat { if g(k) == 2 then 2 else g(k) + 1 }

  // ----- the text and its length -----

  function Size(g: Table, e: Expr, level: nat): (n: nat)
    ensures n > 0
    decreases e, 1
  {
    if Prec(g, e) < level then BareSize(g, e) + 2 else BareSize(g, e)
  }

  function BareSize(g: Table, e: Expr): (n: nat)
    ensures n > 0
    decreases e, 0
  {
    match e
    case Atom(_) => 1
    case Unary(_, o) => 1 + Size(g, o, UNARY)
    case Binary(k, l, r) => Size(g, l, LeftLevel(g, k)) + 1 + Size(g, r, RightLevel(g, k))
    case Ternary(c, y, n) => Size(g, c, 4) + 2 + Size(g, y, 2) + Size(g, n, 2)
  }

  function Print(g: Table, e: Expr, level: nat): (ts: seq<Token>)
    ensures |ts| == Size(g, e, level)
    decreases e, 1
  {
    if Prec(g, e) < level then [Sym(LeftParen)] + (Bare(g, e) + [Sym(RightParen)]) else Bare(g, e)
  }

  function Bare(g: Table, e: Expr): (ts: seq<Token>)
    ensures |ts| == BareSize(g, e)
    decreases e, 0
  {
    match e
    case Atom(x) => [Operand(x)]
    case Unary(k, o) => [Sym(k)] + Print(g, o, UNARY)
    case Binary(k, l, r) => Print(g, l, LeftLevel(g, k)) + ([Sym(k)] + Print(g, r, RightLevel(g, k)))
    case Ternary(c, y, n) =>
      Print(g, c, 4) + ([Sym(Question)] + (Print(g, y, 2) + ([Sym(Colon)] + Print(g, n, 2))))
  }

  // ----- the caps -----

  function Max(a: nat, b: nat): nat { if a < b then b else a }

  /** How much of the depth budget reading the text of e takes. */
  function Need(g: Table, e: Expr, level: nat): (n: nat)
    ensures n > 0
    decreases e, 1
  {
    if Prec(g, e) < level then 1 + BareNeed(g, e) else BareNeed(g, e)
  }

  function BareNeed(g: Table, e: Expr): (n: nat)
    ensures n > 0
    decreases e, 0
  {
    match e
    case Atom(_) => 1
    case Unary(_, o) => 1 + Need(g, o, UNARY)
    case Binary(k, l, r) => Max(Need(g, l, LeftLevel(g, k)), 1 + Need(g, r, RightLevel(g, k)))
    case Ternary(c, y, n) => Max(Need(g, c, 4), 1 + Max(Need(g, y, 2), Need(g, n, 2)))
  }

  /** Operators in a row that one call of the operator loop takes for the text of e. */
  function Steps(g: Table, e: Expr, level: nat): nat
    decreases e, 1
  {
    if Prec(g, e) < level then 0 else BareSteps(g, e)
  }

  function BareSteps(g: Table, e: Expr): nat
    decreases e, 0
  {
    match e
    case Binary(k, l, _) => Steps(g, l, LeftLevel(g, k)) + 1
    case Ternary(c, _, _) => Steps(g, c, 4) + 1
    case _ => 0
  }

  /** No row of operators is too long. */
  predicate RowsFit(g: Table, e: Expr) {
    BareSteps(g, e) < MAX_CHAIN &&
    match e
    case Atom(_) => true
    case Unary(_, o) => RowsFit(g, o)
    case Binary(_, l, r) => RowsFit(g, l) && RowsFit(g, r)
    case Ternary(c, y, n) => RowsFit(g, c) && RowsFit(g, y) && RowsFit(g, n)
  }

  // The nodes of a tree, as a measure.
  function Weigh(e: Expr): nat {
    match e
    case Atom(_) => 1
    case Unary(_, o) => Weigh(o) + 1
    case Binary(_, l, r) => Weigh(l) + Weigh(r) + 1
    case Ternary(c, y, n) => Weigh(c) + Weigh(y) + Weigh(n) + 1
  }
}
