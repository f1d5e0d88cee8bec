/** Parsing undoes printing. */
module ParseRoundTrip {
  import opened ExprGrammar
  import opened Printing
  import opened SpelledText

  // ----- when a text is over -----

  /** Token t ends an expression read at `min`: no operator of that level starts with it. */
  predicate Stops(g: Table, min: nat, t: Token) {
    !(t == Sym(Question) && min <= 3) && (PrecOf(g, t) == 0 || PrecOf(g, t) < min)
  }

  /** Token t does not belong to the last operand of e's bare text. */
  predicate EndsBefore(g: Table, e: Expr, t: Token) {
    match e
    case Binary(k, _, _) => Stops(g, RightLevel(g, k), t)
    case Ternary(_, _, _) => Stops(g, 2, t)
    case _ => true
  }

  predicate TextEnds(g: Table, e: Expr, level: nat, t: Token) {
    Prec(g, e) < level || EndsBefore(g, e, t)
  }

  /** What stops an expression at its level also ends its text. */
  lemma {:induction false} StopsEnds(g: Table, e: Expr, min: nat, t: Token)
    requires Stops(g, min, t) && min != 3
    ensures TextEnds(g, e, min, t)
  {
  }

  /** An operator ends the text of its left operand. */
  lemma {:induction false} OperatorEndsLeft(g: Table, l: Expr, k: Kind)
    requires g(k) > 0
    ensures TextEnds(g, l, LeftLevel(g, k), Sym(k))
  {
  }

  /** What closes or separates ends every expression before it. */
  lemma {:induction false} SeparatorsStop(g: Table, min: nat, t: Token)
    requires t == Sym(Colon) || t == Sym(RightParen) || t == Sym(RightBracket) || (t == Sym(Comma) && min == 2)
    ensures Stops(g, min, t)
  {
  }

  lemma {:induction false} QuestionEndsCondition(g: Table, ts: Tokens, c: Expr, level: nat, q: nat)
    requires At(ts, q, Question) && level > 3
    ensures TextEnds(g, c, level, ts[q])
  {
  }

  // ----- what reading comes to -----

  /** Reading at p yields e, up to q. */
  ghost predicate Reads(g: Table, ts: Tokens, p: nat, depth: nat, min: nat, e: Expr, q: nat) {
    p < |ts| && q < |ts| && depth <= MAX_DEPTH && ParseBinary(g, ts, p, depth, min) == Parsed(e, q, true)
  }

  ghost predicate ReadsRight(g: Table, ts: Tokens, p: nat, depth: nat, min: nat, e: Expr, q: nat) {
    p < |ts| && q < |ts| && depth <= MAX_DEPTH && ParseRhs(g, ts, p, depth, min) == Parsed(e, q, true)
  }

  /** Reading at p gets to q with e as the operator loop's left operand. */
  ghost predicate ReadsLeft(g: Table, ts: Tokens, p: nat, depth: nat, min: nat, e: Expr, q: nat, steps: nat) {
    p < |ts| && q < |ts| && depth <= MAX_DEPTH &&
    ParseBinary(g, ts, p, depth, min) == BinaryLoop(g, ts, Parsed(e, q, true), depth, min, steps)
  }

  ghost predicate ReadsTight(g: Table, ts: Tokens, p: nat, depth: nat, e: Expr, q: nat) {
    p < |ts| && q < |ts| && depth < MAX_DEPTH && ParseUnary(g, ts, p, depth) == Parsed(e, q, true)
  }

  /** Reading the arms of e, whose condition ends at q, gets to `end`. */
  ghost predicate ReadsArmsTo(g: Table, ts: Tokens, q: nat, depth: nat, e: Expr, end: nat) {
    && e.Ternary? && At(ts, q, Question) && end < |ts| && depth <= MAX_DEPTH
    && TernaryArms(g, ts, Parsed(e.cond, q, true), depth) == Parsed(e, end, true)
  }

  // ----- reading texts -----

  /** An expression at its level is read back, up to the token that stops it. */
  lemma {:induction false} ReadsBack(g: Table, ts: Tokens, p: nat, depth: nat, min: nat, e: Expr)
    requires Readable(g, ts, p, depth, e, min) && min != 3 && Stops(g, min, ts[p + Size(g, e, min)])
    ensures Reads(g, ts, p, depth, min, e, p + Size(g, e, min))
    decreases 20 * Weigh(e) + 10
  {
    var end := p + Size(g, e, min);
    StopsEnds(g, e, min, ts[end]);
    RowFits(g, ts, p, depth, e, min);
    ReadsRow(g, ts, p, depth, min, e, min, end, Steps(g, e, min));
    LoopStops(g, ts, p, depth, min, e, end, Steps(g, e, min));
  }

  /** The operator loop is over where nothing continues the expression. */
  lemma {:induction false} LoopStops(g: Table, ts: Tokens, p: nat, depth: nat, min: nat, e: Expr, end: nat, steps: nat)
    requires ReadsLeft(g, ts, p, depth, min, e, end, steps) && steps < MAX_CHAIN && Stops(g, min, ts[end])
    ensures Reads(g, ts, p, depth, min, e, end)
  {
  }

  lemma {:induction false} RowFits(g: Table, ts: Tokens, p: nat, depth: nat, e: Expr, level: nat)
    requires Readable(g, ts, p, depth, e, level)
    ensures Steps(g, e, level) < MAX_CHAIN
  {
  }

  lemma {:induction false} ReadsRhs(g: Table, ts: Tokens, p: nat, depth: nat, min: nat, e: Expr)
    requires Readable(g, ts, p, depth + 1, e, min) && min != 3 && Stops(g, min, ts[p + Size(g, e, min)])
    ensures ReadsRight(g, ts, p, depth, min, e, p + Size(g, e, min))
    decreases 20 * Weigh(e) + 11
  {
    ReadsBack(g, ts, p, depth + 1, min, e);
  }

  /** The text of e is read first, as the operator loop's left operand so far. */
  lemma {:induction false} ReadsRow(g: Table, ts: Tokens, p: nat, depth: nat, min: nat, e: Expr, level: nat, end: nat, steps: nat)
    requires min <= level && Readable(g, ts, p, depth, e, level)
    requires end == p + Size(g, e, level) && steps == Steps(g, e, level) && TextEnds(g, e, level, ts[end])
    ensures ReadsLeft(g, ts, p, depth, min, e, end, steps)
    decreases 20 * Weigh(e) + 9
  {
    if Prec(g, e) < level {
      ReadsParenthesized(g, ts, p, depth, e, end - 1);
      TightIsLeft(g, ts, p, depth, min, e, end);
    } else {
      BareRow(g, ts, p, depth, min, e);
    }
  }

  /** What the unary parser reads is a left operand without an operator yet. */
  lemma {:induction false} TightIsLeft(g: Table, ts: Tokens, p: nat, depth: nat, min: nat, e: Expr, q: nat)
    requires ReadsTight(g, ts, p, depth, e, q)
    ensures ReadsLeft(g, ts, p, depth, min, e, q, 0)
  {
  }

  lemma {:induction false} BareRow(g: Table, ts: Tokens, p: nat, depth: nat, min: nat, e: Expr)
    requires min <= Prec(g, e) && BareReadable(g, ts, p, depth, e) && EndsBefore(g, e, ts[p + BareSize(g, e)])
    ensures ReadsLeft(g, ts, p, depth, min, e, p + BareSize(g, e), BareSteps(g, e))
    decreases 20 * Weigh(e) + 5
  {
    var end := p + BareSize(g, e);
    match e
    case Binary(k, l, _) => ReadsBinary(g, ts, p, depth, min, e, p + Size(g, l, LeftLevel(g, k)), end);
    case Ternary(c, y, _) =>
      var q := p + Size(g, c, 4);
      ReadsTernary(g, ts, p, depth, min, e, q, q + 1 + Size(g, y, 2), end);
    case _ => BareUnary(g, ts, p, depth, e);
  }

  lemma {:induction false} ReadsBinary(g: Table, ts: Tokens, p: nat, depth: nat, min: nat, e: Expr, q: nat, end: nat)
    requires e.Binary? && min <= g(e.op) && g(e.op) > 0 && BareSteps(g, e) < MAX_CHAIN
    requires Readable(g, ts, p, depth, e.lhs, LeftLevel(g, e.op)) && q == p + Size(g, e.lhs, LeftLevel(g, e.op))
    requires At(ts, q, e.op) && Readable(g, ts, q + 1, depth + 1, e.rhs, RightLevel(g, e.op))
    requires end == q + 1 + Size(g, e.rhs, RightLevel(g, e.op)) && Stops(g, RightLevel(g, e.op), ts[end])
    ensures ReadsLeft(g, ts, p, depth, min, e, end, BareSteps(g, e))
    decreases 20 * Weigh(e) + 4
  {
    OperatorEndsLeft(g, e.lhs, e.op);
    ReadsRow(g, ts, p, depth, min, e.lhs, LeftLevel(g, e.op), q, Steps(g, e.lhs, LeftLevel(g, e.op)));
    ReadsRhs(g, ts, q + 1, depth, RightLevel(g, e.op), e.rhs);
    EndsBinary(g, ts, p, depth, min, e, q, end);
  }

  lemma {:induction false} EndsBinary(g: Table, ts: Tokens, p: nat, depth: nat, min: nat, e: Expr, q: nat, end: nat)
    requires e.Binary? && g(e.op) > 0 && min <= g(e.op) && BareSteps(g, e) < MAX_CHAIN && At(ts, q, e.op) && q + 1 < |ts|
    requires ReadsLeft(g, ts, p, depth, min, e.lhs, q, Steps(g, e.lhs, LeftLevel(g, e.op)))
    requires ReadsRight(g, ts, q + 1, depth, RightLevel(g, e.op), e.rhs, end)
    ensures ReadsLeft(g, ts, p, depth, min, e, end, BareSteps(g, e))
  {
    TakesOperator(g, ts, e, q, end, depth, min, Steps(g, e.lhs, LeftLevel(g, e.op)));
  }

  /** One pass of the operator loop. */
  lemma {:induction false} TakesOperator(g: Table, ts: Tokens, e: Expr, q: nat, end: nat, depth: nat, min: nat, chain: nat)
    requires e.Binary? && At(ts, q, e.op) && g(e.op) >= min && g(e.op) > 0
    requires chain + 1 <= MAX_CHAIN && q + 1 < |ts| && ReadsRight(g, ts, q + 1, depth, RightLevel(g, e.op), e.rhs, end)
    ensures BinaryLoop(g, ts, Parsed(e.lhs, q, true), depth, min, chain) ==
            BinaryLoop(g, ts, Parsed(e, end, true), depth, min, chain + 1)
  {
  }

  lemma {:induction false} ReadsTernary(g: Table, ts: Tokens, p: nat, depth: nat, min: nat, e: Expr, q: nat, m: nat, end: nat)
    requires e.Ternary? && min <= 3 && BareSteps(g, e) < MAX_CHAIN
    requires Readable(g, ts, p, depth, e.cond, 4) && q == p + Size(g, e.cond, 4) && At(ts, q, Question)
    requires Readable(g, ts, q + 1, depth + 1, e.yes, 2) && m == q + 1 + Size(g, e.yes, 2) && At(ts, m, Colon)
    requires Readable(g, ts, m + 1, depth + 1, e.no, 2) && end == m + 1 + Size(g, e.no, 2) && Stops(g, 2, ts[end])
    ensures ReadsLeft(g, ts, p, depth, min, e, end, BareSteps(g, e))
    decreases 20 * Weigh(e) + 4
  {
    ReadsArms(g, ts, q, m, end, depth, e);
    ReadsCondition(g, ts, p, depth, min, e.cond, 4, q);
    EndsTernary(g, ts, p, depth, min, e, q, end, Steps(g, e.cond, 4));
  }

  lemma {:induction false} ReadsCondition(g: Table, ts: Tokens, p: nat, depth: nat, min: nat, c: Expr, level: nat, q: nat)
    requires min <= level && level > 3 && Readable(g, ts, p, depth, c, level)
    requires q == p + Size(g, c, level) && At(ts, q, Question)
    ensures ReadsLeft(g, ts, p, depth, min, c, q, Steps(g, c, level))
    decreases 20 * Weigh(c) + 10
  {
    QuestionEndsCondition(g, ts, c, level, q);
    ReadsRow(g, ts, p, depth, min, c, level, q, Steps(g, c, level));
  }

  lemma {:induction false} EndsTernary(g: Table, ts: Tokens, p: nat, depth: nat, min: nat, e: Expr, q: nat, end: nat, steps: nat)
    requires e.Ternary? && min <= 3 && steps + 1 < MAX_CHAIN && steps == Steps(g, e.cond, 4)
    requires ReadsLeft(g, ts, p, depth, min, e.cond, q, steps) && ReadsArmsTo(g, ts, q, depth, e, end)
    ensures ReadsLeft(g, ts, p, depth, min, e, end, BareSteps(g, e))
  {
    TakesTernary(g, ts, e, q, end, depth, min, steps);
  }

  lemma {:induction false} ReadsArms(g: Table, ts: Tokens, q: nat, m: nat, end: nat, depth: nat, e: Expr)
    requires e.Ternary? && At(ts, q, Question) && Readable(g, ts, q + 1, depth + 1, e.yes, 2)
    requires m == q + 1 + Size(g, e.yes, 2) && At(ts, m, Colon) && Readable(g, ts, m + 1, depth + 1, e.no, 2)
    requires end == m + 1 + Size(g, e.no, 2) && Stops(g, 2, ts[end])
    ensures ReadsArmsTo(g, ts, q, depth, e, end)
    decreases 20 * Weigh(e) + 3
  {
    SeparatorsStop(g, 2, ts[m]);
    ReadsRhs(g, ts, q + 1, depth, 2, e.yes);
    ReadsRhs(g, ts, m + 1, depth, 2, e.no);
    TakesArms(g, ts, e, q, m, end, depth);
  }

  lemma {:induction false} TakesArms(g: Table, ts: Tokens, e: Expr, q: nat, m: nat, end: nat, depth: nat)
    requires e.Ternary? && At(ts, q, Question) && q + 1 < |ts| && ReadsRight(g, ts, q + 1, depth, 2, e.yes, m)
    requires At(ts, m, Colon) && m + 1 < |ts| && ReadsRight(g, ts, m + 1, depth, 2, e.no, end)
    ensures ReadsArmsTo(g, ts, q, depth, e, end)
  {
  }

  lemma {:induction false} TakesTernary(g: Table, ts: Tokens, e: Expr, q: nat, end: nat, depth: nat, min: nat, chain: nat)
    requires e.Ternary? && min <= 3 && chain + 1 <= MAX_CHAIN && ReadsArmsTo(g, ts, q, depth, e, end)
    ensures BinaryLoop(g, ts, Parsed(e.cond, q, true), depth, min, chain) ==
            BinaryLoop(g, ts, Parsed(e, end, true), depth, min, chain + 1)
  {
  }

  /** Texts that one call of the unary parser takes: parenthesized, or bare and tight. */
  lemma {:induction false} ReadsUnary(g: Table, ts: Tokens, p: nat, depth: nat, e: Expr)
    requires Readable(g, ts, p, depth, e, UNARY)
    ensures ReadsTight(g, ts, p, depth, e, p + Size(g, e, UNARY))
    decreases 20 * Weigh(e) + 8
  {
    if Prec(g, e) < UNARY {
      ReadsParenthesized(g, ts, p, depth, e, p + 1 + BareSize(g, e));
    } else {
      BareUnary(g, ts, p, depth, e);
    }
  }

  lemma {:induction false} BareUnary(g: Table, ts: Tokens, p: nat, depth: nat, e: Expr)
    requires (e.Unary? || e.Atom?) && BareReadable(g, ts, p, depth, e)
    ensures ReadsTight(g, ts, p, depth, e, p + BareSize(g, e))
    decreases 20 * Weigh(e) + 4
  {
    if e.Unary? {
      ReadsUnary(g, ts, p + 1, depth + 1, e.operand);
      TakesPrefix(g, ts, e, p, depth, p + 1 + Size(g, e.operand, UNARY));
    }
  }

  lemma {:induction false} TakesPrefix(g: Table, ts: Tokens, e: Expr, p: nat, depth: nat, end: nat)
    requires e.Unary? && IsPrefix(e.op) && At(ts, p, e.op) && p + 1 < |ts| && depth < MAX_DEPTH
    requires ReadsTight(g, ts, p + 1, depth + 1, e.operand, end)
    ensures ReadsTight(g, ts, p, depth, e, end)
  {
  }

  /** A text in parentheses is read by the primary parser, whatever follows it. */
  lemma {:induction false} ReadsParenthesized(g: Table, ts: Tokens, p: nat, depth: nat, e: Expr, end: nat)
    requires At(ts, p, LeftParen) && BareReadable(g, ts, p + 1, depth + 1, e)
    requires end == p + 1 + BareSize(g, e) && At(ts, end, RightParen) && end + 1 < |ts|
    ensures ReadsTight(g, ts, p, depth, e, end + 1)
    decreases 20 * Weigh(e) + 6
  {
    BareReadsBack(g, ts, p + 1, depth + 1, e, end);
    TakesParens(g, ts, e, p, end, depth, BareSteps(g, e));
  }

  lemma {:induction false} BareReadsBack(g: Table, ts: Tokens, p: nat, depth: nat, e: Expr, end: nat)
    requires BareReadable(g, ts, p, depth, e) && end == p + BareSize(g, e) && At(ts, end, RightParen)
    ensures ReadsLeft(g, ts, p, depth, 1, e, end, BareSteps(g, e)) && BareSteps(g, e) < MAX_CHAIN
    decreases 20 * Weigh(e) + 6, 0
  {
    SeparatorsStop(g, 1, ts[end]);
    BareStopsEnds(g, ts, p, depth, e, ts[end]);
    BareRow(g, ts, p, depth, 1, e);
    BareRowFits(g, ts, p, depth, e);
  }

  lemma {:induction false} BareStopsEnds(g: Table, ts: Tokens, p: nat, depth: nat, e: Expr, t: Token)
    requires BareReadable(g, ts, p, depth, e) && Stops(g, 1, t)
    ensures EndsBefore(g, e, t) && Prec(g, e) >= 1
  {
  }

  lemma {:induction false} BareRowFits(g: Table, ts: Tokens, p: nat, depth: nat, e: Expr)
    requires BareReadable(g, ts, p, depth, e)
    ensures BareSteps(g, e) < MAX_CHAIN
  {
  }

  lemma {:induction false} TakesParens(g: Table, ts: Tokens, e: Expr, p: nat, end: nat, depth: nat, steps: nat)
    requires At(ts, p, LeftParen) && p + 1 < |ts| && ReadsLeft(g, ts, p + 1, depth + 1, 1, e, end, steps)
    requires steps < MAX_CHAIN && At(ts, end, RightParen) && end + 1 < |ts|
    ensures ReadsTight(g, ts, p, depth, e, end + 1)
  {
    assert BinaryLoop(g, ts, Parsed(e, end, true), depth + 1, 1, steps) == Parsed(e, end, true);
  }

  // ----- whole expressions -----

  /** Any tree within the caps, printed where an expression of level min is expected and followed by
      a token that ends it, is read back unchanged, with nothing reported. */
  lemma {:induction false} ParsingUndoesPrinting(g: Table, ts: Tokens, p: nat, depth: nat, e: Expr, min: nat)
    requires (min == 1 || min == 2) && Stands(ts, p, Print(g, e, min)) && Fits(g, e)
    requires depth + Need(g, e, min) <= MAX_DEPTH && Stops(g, min, ts[p + |Print(g, e, min)|])
    ensures ParseBinary(g, ts, p, depth, min) == Parsed(e, p + |Print(g, e, min)|, true)
  {
    PrintedIsReadable(g, ts, p, depth, e, min);
    ReadsBack(g, ts, p, depth, min, e);
  }
}
