/** How the source's operators group, said by their classes instead of by numbers. */
module Grouping {
  import opened ExprGrammar
  import opened Printing
  import opened SpelledText
  import opened ParseRoundTrip

  /** The classes of binary operators, loosest first; those of one class group alike. */
  predicate OfClass(op: Kind, i: nat) {
    match i
    case 0 => op.Comma?
    case 1 =>
      op.Assign? || op.PlusAssign? || op.MinusAssign? || op.StarAssign? || op.SlashAssign? || op.PercentAssign? ||
      op.AndAssign? || op.OrAssign? || op.XorAssign? || op.ShlAssign? || op.ShrAssign?
    case 2 => op.OrOr?
    case 3 => op.AndAnd?
    case 4 => op.Pipe?
    case 5 => op.Caret?
    case 6 => op.Amp?
    case 7 => op.Equal? || op.NotEqual?
    case 8 => op.Less? || op.Greater? || op.LessEqual? || op.GreaterEqual?
    case 9 => op.ShiftLeft? || op.ShiftRight?
    case 10 => op.Plus? || op.Minus?
    case 11 => op.Star? || op.Slash? || op.Percent?
    case _ => false
  }

  const ASSIGNMENTS: nat := 1

  /** The whole text, an expression and its end, is read as e. */
  predicate ReadsAs(text: seq<Token>, e: Expr) {
    ParseBinary(BinaryPrec, text + [Sym(Eof)], 0, 0, 1) == Parsed(e, |text|, true)
  }

  lemma {:induction false} PrintedReadsAs(g: Table, e: Expr)
    requires g == BinaryPrec && Fits(g, e) && Need(g, e, 1) <= MAX_DEPTH
    ensures ReadsAs(Print(g, e, 1), e)
  {
    var text := Print(g, e, 1);
    var ts: Tokens := text + [Sym(Eof)];
    assert ts[0..|text|] == text;
    ParsingUndoesPrinting(g, ts, 0, 0, e, 1);
  }

  // ----- small trees, printed -----

  /** The tree prints as this text where that much is asked of it, within these caps. */
  predicate Prints(g: Table, e: Expr, level: nat, text: seq<Token>) {
    Fits(g, e) && Print(g, e, level) == text && Need(g, e, level) <= 8 && Steps(g, e, level) <= 8
  }

  lemma {:induction false} AtomPrints(g: Table, x: int, level: nat)
    requires level <= OPERAND
    ensures Prints(g, Atom(x), level, [Operand(x)]) && Need(g, Atom(x), level) == 1 && Steps(g, Atom(x), level) == 0
  {
  }

  lemma {:induction false} BinaryPrints(g: Table, k: Kind, l: Expr, r: Expr, level: nat, left: seq<Token>, right: seq<Token>)
    requires 0 < g(k) && level <= g(k) && Prints(g, l, LeftLevel(g, k), left) && Prints(g, r, RightLevel(g, k), right)
    requires Need(g, l, LeftLevel(g, k)) <= 7 && Need(g, r, RightLevel(g, k)) <= 6 && Steps(g, l, LeftLevel(g, k)) <= 6
    ensures Prints(g, Binary(k, l, r), level, left + ([Sym(k)] + right))
    ensures Need(g, Binary(k, l, r), level) == Max(Need(g, l, LeftLevel(g, k)), 1 + Need(g, r, RightLevel(g, k)))
    ensures Steps(g, Binary(k, l, r), level) == Steps(g, l, LeftLevel(g, k)) + 1
  {
  }

  lemma {:induction false} PairPrints(g: Table, k: Kind, a: int, b: int, level: nat)
    requires 0 < g(k) && level <= g(k)
    ensures Prints(g, Binary(k, Atom(a), Atom(b)), level, [Operand(a), Sym(k), Operand(b)])
    ensures Need(g, Binary(k, Atom(a), Atom(b)), level) == 2 && Steps(g, Binary(k, Atom(a), Atom(b)), level) == 1
  {
    AtomPrints(g, a, LeftLevel(g, k));
    AtomPrints(g, b, RightLevel(g, k));
    BinaryPrints(g, k, Atom(a), Atom(b), level, [Operand(a)], [Operand(b)]);
    assert [Operand(a)] + ([Sym(k)] + [Operand(b)]) == [Operand(a), Sym(k), Operand(b)];
  }

  lemma {:induction false} PrefixPrints(g: Table, p: Kind, a: int, level: nat)
    requires IsPrefix(p) && level <= UNARY
    ensures Prints(g, Unary(p, Atom(a)), level, [Sym(p), Operand(a)])
    ensures Need(g, Unary(p, Atom(a)), level) == 2 && Steps(g, Unary(p, Atom(a)), level) == 0
  {
    AtomPrints(g, a, UNARY);
  }

  lemma {:induction false} TernaryPrints(g: Table, cond: Expr, c: int, d: int, level: nat, text: seq<Token>)
    requires level <= 3 && Prints(g, cond, 4, text) && Need(g, cond, 4) <= 6 && Steps(g, cond, 4) <= 6
    ensures Prints(g, Ternary(cond, Atom(c), Atom(d)), level, text + [Sym(Question), Operand(c), Sym(Colon), Operand(d)])
    ensures Need(g, Ternary(cond, Atom(c), Atom(d)), level) == Max(Need(g, cond, 4), 2)
    ensures Steps(g, Ternary(cond, Atom(c), Atom(d)), level) == Steps(g, cond, 4) + 1
  {
    AtomPrints(g, c, 2);
    AtomPrints(g, d, 2);
    assert [Sym(Question)] + ([Operand(c)] + ([Sym(Colon)] + [Operand(d)])) == [Sym(Question), Operand(c), Sym(Colon), Operand(d)];
  }

  lemma {:induction false} TextReadsAs(g: Table, text: seq<Token>, e: Expr)
    requires g == BinaryPrec && Prints(g, e, 1, text)
    ensures ReadsAs(text, e)
  {
    PrintedReadsAs(g, e);
  }

  // ----- how operators group -----

  /** Of two operators the one of the tighter class takes the operand between them; of one class the first
      does, except that assignments group to the right. */
  lemma {:induction false} OperatorsGroup(a: int, op: Kind, b: int, op': Kind, c: int, i: nat, j: nat)
    requires OfClass(op, i) && OfClass(op', j)
    ensures ReadsAs([Operand(a), Sym(op), Operand(b), Sym(op'), Operand(c)],
                    if i > j || (i == j && i != ASSIGNMENTS) then Binary(op', Binary(op, Atom(a), Atom(b)), Atom(c))
                    else Binary(op, Atom(a), Binary(op', Atom(b), Atom(c))))
  {
    LevelOf(op, i);
    LevelOf(op', j);
    if i > j || (i == j && i != ASSIGNMENTS) {
      FirstTakes(BinaryPrec, a, op, b, op', c);
    } else {
      SecondTakes(BinaryPrec, a, op, b, op', c);
    }
  }

  lemma {:induction false} FirstTakes(g: Table, a: int, op: Kind, b: int, op': Kind, c: int)
    requires g == BinaryPrec && g(op') > 0 && LeftLevel(g, op') <= g(op)
    ensures ReadsAs([Operand(a), Sym(op), Operand(b), Sym(op'), Operand(c)], Binary(op', Binary(op, Atom(a), Atom(b)), Atom(c)))
  {
    GroupsLeft(g, a, op, b, op', c);
    TextReadsAs(g, [Operand(a), Sym(op), Operand(b), Sym(op'), Operand(c)], Binary(op', Binary(op, Atom(a), Atom(b)), Atom(c)));
  }

  lemma {:induction false} SecondTakes(g: Table, a: int, op: Kind, b: int, op': Kind, c: int)
    requires g == BinaryPrec && g(op) > 0 && RightLevel(g, op) <= g(op')
    ensures ReadsAs([Operand(a), Sym(op), Operand(b), Sym(op'), Operand(c)], Binary(op, Atom(a), Binary(op', Atom(b), Atom(c))))
  {
    GroupsRight(g, a, op, b, op', c);
    TextReadsAs(g, [Operand(a), Sym(op), Operand(b), Sym(op'), Operand(c)], Binary(op, Atom(a), Binary(op', Atom(b), Atom(c))));
  }

  lemma {:induction false} GroupsLeft(g: Table, a: int, op: Kind, b: int, op': Kind, c: int)
    requires g(op') > 0 && LeftLevel(g, op') <= g(op)
    ensures Prints(g, Binary(op', Binary(op, Atom(a), Atom(b)), Atom(c)), 1, [Operand(a), Sym(op), Operand(b), Sym(op'), Operand(c)])
  {
    PairPrints(g, op, a, b, LeftLevel(g, op'));
    AtomPrints(g, c, RightLevel(g, op'));
    var left := [Operand(a), Sym(op), Operand(b)];
    BinaryPrints(g, op', Binary(op, Atom(a), Atom(b)), Atom(c), 1, left, [Operand(c)]);
    assert left + ([Sym(op')] + [Operand(c)]) == [Operand(a), Sym(op), Operand(b), Sym(op'), Operand(c)];
  }

  lemma {:induction false} GroupsRight(g: Table, a: int, op: Kind, b: int, op': Kind, c: int)
    requires g(op) > 0 && RightLevel(g, op) <= g(op')
    ensures Prints(g, Binary(op, Atom(a), Binary(op', Atom(b), Atom(c))), 1, [Operand(a), Sym(op), Operand(b), Sym(op'), Operand(c)])
  {
    PairPrints(g, op', b, c, RightLevel(g, op));
    AtomPrints(g, a, LeftLevel(g, op));
    var right := [Operand(b), Sym(op'), Operand(c)];
    BinaryPrints(g, op, Atom(a), Binary(op', Atom(b), Atom(c)), 1, [Operand(a)], right);
    assert [Operand(a)] + ([Sym(op)] + right) == [Operand(a), Sym(op), Operand(b), Sym(op'), Operand(c)];
  }

  lemma {:induction false} LevelOf(op: Kind, i: nat)
    requires OfClass(op, i)
    ensures i < 12 && BinaryPrec(op) == if i < 2 then i + 1 else i + 2
  {
  }

  /** Exactly these are binary operators. */
  lemma {:induction false} AllClasses(op: Kind)
    ensures BinaryPrec(op) > 0 <==> exists i: nat :: i < 12 && OfClass(op, i)
  {
    if BinaryPrec(op) > 0 {
      var i := if BinaryPrec(op) < 3 then BinaryPrec(op) - 1 else BinaryPrec(op) - 2;
      assert OfClass(op, i);
    }
  }

  /** A prefix operator takes the operand behind it and nothing more. */
  lemma {:induction false} PrefixTakesOne(p: Kind, a: int, op: Kind, b: int, i: nat)
    requires (p.Minus? || p.Plus? || p.Not? || p.Tilde? || p.PlusPlus? || p.MinusMinus?) && OfClass(op, i)
    ensures ReadsAs([Sym(p), Operand(a), Sym(op), Operand(b)], Binary(op, Unary(p, Atom(a)), Atom(b)))
  {
    LevelOf(op, i);
    PrefixFirst(BinaryPrec, p, a, op, b);
    TextReadsAs(BinaryPrec, [Sym(p), Operand(a), Sym(op), Operand(b)], Binary(op, Unary(p, Atom(a)), Atom(b)));
  }

  lemma {:induction false} PrefixFirst(g: Table, p: Kind, a: int, op: Kind, b: int)
    requires IsPrefix(p) && g(op) > 0
    ensures Prints(g, Binary(op, Unary(p, Atom(a)), Atom(b)), 1, [Sym(p), Operand(a), Sym(op), Operand(b)])
  {
    PrefixPrints(g, p, a, LeftLevel(g, op));
    AtomPrints(g, b, RightLevel(g, op));
    BinaryPrints(g, op, Unary(p, Atom(a)), Atom(b), 1, [Sym(p), Operand(a)], [Operand(b)]);
    assert [Sym(p), Operand(a)] + ([Sym(op)] + [Operand(b)]) == [Sym(p), Operand(a), Sym(op), Operand(b)];
  }

  /** The condition of a ternary takes every operator but assignments and the comma. */
  lemma {:induction false} ConditionGroups(a: int, op: Kind, b: int, c: int, d: int, i: nat)
    requires OfClass(op, i)
    ensures ReadsAs([Operand(a), Sym(op), Operand(b)] + [Sym(Question), Operand(c), Sym(Colon), Operand(d)],
                    if i > ASSIGNMENTS then Ternary(Binary(op, Atom(a), Atom(b)), Atom(c), Atom(d))
                    else Binary(op, Atom(a), Ternary(Atom(b), Atom(c), Atom(d))))
  {
    LevelOf(op, i);
    var text := [Operand(a), Sym(op), Operand(b)] + [Sym(Question), Operand(c), Sym(Colon), Operand(d)];
    if i > ASSIGNMENTS {
      ConditionTakes(BinaryPrec, a, op, b, c, d);
      TextReadsAs(BinaryPrec, text, Ternary(Binary(op, Atom(a), Atom(b)), Atom(c), Atom(d)));
    } else {
      ConditionLeaves(BinaryPrec, a, op, b, c, d);
      TextReadsAs(BinaryPrec, text, Binary(op, Atom(a), Ternary(Atom(b), Atom(c), Atom(d))));
    }
  }

  lemma {:induction false} ConditionTakes(g: Table, a: int, op: Kind, b: int, c: int, d: int)
    requires g(op) >= 4
    ensures Prints(g, Ternary(Binary(op, Atom(a), Atom(b)), Atom(c), Atom(d)), 1,
                   [Operand(a), Sym(op), Operand(b)] + [Sym(Question), Operand(c), Sym(Colon), Operand(d)])
  {
    PairPrints(g, op, a, b, 4);
    TernaryPrints(g, Binary(op, Atom(a), Atom(b)), c, d, 1, [Operand(a), Sym(op), Operand(b)]);
  }

  lemma {:induction false} ConditionLeaves(g: Table, a: int, op: Kind, b: int, c: int, d: int)
    requires 0 < g(op) < 3
    ensures Prints(g, Binary(op, Atom(a), Ternary(Atom(b), Atom(c), Atom(d))), 1,
                   [Operand(a), Sym(op), Operand(b)] + [Sym(Question), Operand(c), Sym(Colon), Operand(d)])
  {
    var cond, arms := [Operand(a), Sym(op), Operand(b)], [Sym(Question), Operand(c), Sym(Colon), Operand(d)];
    AtomPrints(g, b, 4);
    TernaryPrints(g, Atom(b), c, d, RightLevel(g, op), [Operand(b)]);
    AtomPrints(g, a, LeftLevel(g, op));
    BinaryPrints(g, op, Atom(a), Ternary(Atom(b), Atom(c), Atom(d)), 1, [Operand(a)], [Operand(b)] + arms);
    assert [Operand(a)] + ([Sym(op)] + ([Operand(b)] + arms)) == cond + arms;
  }
}
