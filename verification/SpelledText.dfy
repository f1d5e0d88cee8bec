/** Where the parts of a printed tree stand in the tokens. */
module SpelledText {
  import opened ExprGrammar
  import opened Printing

  /** A tree whose rows of operators are not too long. */
  predicate Fits(g: Table, e: Expr) {
    IsTree(g, e) && RowsFit(g, e)
  }

  // ----- places -----

  /** The text of e stands at p, something follows it, and reading it with the depth budget partly
      used goes over no cap. */
  predicate Readable(g: Table, ts: Tokens, p: nat, depth: nat, e: Expr, level: nat): (b: bool)
    ensures b ==> p + Size(g, e, level) < |ts| && depth < MAX_DEPTH
    decreases e, 1
  {
    if Prec(g, e) < level then
      At(ts, p, LeftParen) && BareReadable(g, ts, p + 1, depth + 1, e) && At(ts, p + 1 + BareSize(g, e), RightParen) &&
      p + 2 + BareSize(g, e) < |ts|
    else BareReadable(g, ts, p, depth, e)
  }

  predicate BareReadable(g: Table, ts: Tokens, p: nat, depth: nat, e: Expr): (b: bool)
    ensures b ==> p + BareSize(g, e) < |ts| && depth < MAX_DEPTH
    decreases e, 0
  {
    p + BareSize(g, e) < |ts| && BareSteps(g, e) < MAX_CHAIN && depth < MAX_DEPTH &&
    match e
    case Atom(x) => ts[p] == Operand(x)
    case Unary(k, o) => IsPrefix(k) && At(ts, p, k) && Readable(g, ts, p + 1, depth + 1, o, UNARY)
    case Binary(k, l, r) =>
      var q := p + Size(g, l, LeftLevel(g, k));
      g(k) > 0 && Readable(g, ts, p, depth, l, LeftLevel(g, k)) && At(ts, q, k) &&
      Readable(g, ts, q + 1, depth + 1, r, RightLevel(g, k))
    case Ternary(c, y, n) =>
      var q := p + Size(g, c, 4);
      var m := q + 1 + Size(g, y, 2);
      Readable(g, ts, p, depth, c, 4) && At(ts, q, Question) && Readable(g, ts, q + 1, depth + 1, y, 2) &&
      At(ts, m, Colon) && Readable(g, ts, m + 1, depth + 1, n, 2)
  }

  // ----- printed text is readable where it stands -----

  ghost predicate Stands(ts: Tokens, p: nat, text: seq<Token>) {
    p + |text| < |ts| && ts[p..p + |text|] == text
  }

  lemma {:induction false} StandsParts(ts: Tokens, p: nat, a: seq<Token>, b: seq<Token>)
    requires Stands(ts, p, a + b)
    ensures Stands(ts, p, a) && Stands(ts, p + |a|, b)
  {
    var all := ts[p..p + |a + b|];
    assert all[..|a|] == a && all[|a|..] == b;
    assert all[..|a|] == ts[p..p + |a|] && all[|a|..] == ts[p + |a|..p + |a| + |b|];
  }

  lemma {:induction false} StandsHead(ts: Tokens, p: nat, t: Token, b: seq<Token>)
    requires Stands(ts, p, [t] + b)
    ensures p + 1 < |ts| && ts[p] == t && Stands(ts, p + 1, b)
  {
    StandsParts(ts, p, [t], b);
    assert ts[p..p + 1][0] == t;
  }

  lemma {:induction false} StandsOne(ts: Tokens, p: nat, t: Token)
    requires Stands(ts, p, [t])
    ensures p + 1 < |ts| && ts[p] == t
  {
    assert ts[p..p + 1][0] == t;
  }

  lemma {:induction false} PrintedIsReadable(g: Table, ts: Tokens, p: nat, depth: nat, e: Expr, level: nat)
    requires Stands(ts, p, Print(g, e, level)) && Fits(g, e) && depth + Need(g, e, level) <= MAX_DEPTH
    ensures Readable(g, ts, p, depth, e, level)
    decreases 20 * Weigh(e) + 5
  {
    if Prec(g, e) < level {
      ParensAreReadable(g, ts, p, depth, e);
    } else {
      BareIsReadable(g, ts, p, depth, e);
    }
  }

  lemma {:induction false} ParensAreReadable(g: Table, ts: Tokens, p: nat, depth: nat, e: Expr)
    requires Stands(ts, p, [Sym(LeftParen)] + (Bare(g, e) + [Sym(RightParen)]))
    requires Fits(g, e) && depth + 1 + BareNeed(g, e) <= MAX_DEPTH
    ensures At(ts, p, LeftParen) && BareReadable(g, ts, p + 1, depth + 1, e)
    ensures At(ts, p + 1 + BareSize(g, e), RightParen) && p + 2 + BareSize(g, e) < |ts|
    decreases 20 * Weigh(e) + 4
  {
    ParensLaidOut(ts, p, Bare(g, e));
    BareIsReadable(g, ts, p + 1, depth + 1, e);
  }

  lemma {:induction false} ParensLaidOut(ts: Tokens, p: nat, b: seq<Token>)
    requires Stands(ts, p, [Sym(LeftParen)] + (b + [Sym(RightParen)]))
    ensures At(ts, p, LeftParen) && Stands(ts, p + 1, b) && At(ts, p + 1 + |b|, RightParen) && p + 2 + |b| < |ts|
  {
    StandsHead(ts, p, Sym(LeftParen), b + [Sym(RightParen)]);
    StandsParts(ts, p + 1, b, [Sym(RightParen)]);
    StandsOne(ts, p + 1 + |b|, Sym(RightParen));
  }

  lemma {:induction false} BareIsReadable(g: Table, ts: Tokens, p: nat, depth: nat, e: Expr)
    requires Stands(ts, p, Bare(g, e)) && Fits(g, e) && depth + BareNeed(g, e) <= MAX_DEPTH
    ensures BareReadable(g, ts, p, depth, e)
    decreases 20 * Weigh(e) + 3
  {
    match e
    case Atom(_) => AtomIsReadable(g, ts, p, depth, e);
    case Unary(_, _) => UnaryIsReadable(g, ts, p, depth, e);
    case Binary(_, _, _) => BinaryIsReadable(g, ts, p, depth, e);
    case Ternary(_, _, _) => TernaryIsReadable(g, ts, p, depth, e);
  }

  lemma {:induction false} AtomIsReadable(g: Table, ts: Tokens, p: nat, depth: nat, e: Expr)
    requires e.Atom? && Stands(ts, p, Bare(g, e)) && depth < MAX_DEPTH
    ensures BareReadable(g, ts, p, depth, e)
  {
    StandsOne(ts, p, Operand(e.id));
  }

  lemma {:induction false} UnaryIsReadable(g: Table, ts: Tokens, p: nat, depth: nat, e: Expr)
    requires e.Unary? && Stands(ts, p, Bare(g, e)) && Fits(g, e) && depth + BareNeed(g, e) <= MAX_DEPTH
    ensures BareReadable(g, ts, p, depth, e)
    decreases 20 * Weigh(e) + 1
  {
    StandsHead(ts, p, Sym(e.op), Print(g, e.operand, UNARY));
    PrintedIsReadable(g, ts, p + 1, depth + 1, e.operand, UNARY);
  }

  lemma {:induction false} BinaryIsReadable(g: Table, ts: Tokens, p: nat, depth: nat, e: Expr)
    requires e.Binary? && Stands(ts, p, Bare(g, e)) && Fits(g, e) && depth + BareNeed(g, e) <= MAX_DEPTH
    ensures BareReadable(g, ts, p, depth, e)
    decreases 20 * Weigh(e) + 1
  {
    var q := p + Size(g, e.lhs, LeftLevel(g, e.op));
    BinaryLaidOut(g, ts, p, e);
    PrintedIsReadable(g, ts, p, depth, e.lhs, LeftLevel(g, e.op));
    PrintedIsReadable(g, ts, q + 1, depth + 1, e.rhs, RightLevel(g, e.op));
    MakesBinary(g, ts, p, depth, e, q);
  }

  lemma {:induction false} BinaryLaidOut(g: Table, ts: Tokens, p: nat, e: Expr)
    requires e.Binary? && Stands(ts, p, Bare(g, e))
    ensures var q := p + Size(g, e.lhs, LeftLevel(g, e.op));
            && Stands(ts, p, Print(g, e.lhs, LeftLevel(g, e.op))) && At(ts, q, e.op)
            && Stands(ts, q + 1, Print(g, e.rhs, RightLevel(g, e.op)))
  {
    var l, r := Print(g, e.lhs, LeftLevel(g, e.op)), Print(g, e.rhs, RightLevel(g, e.op));
    StandsParts(ts, p, l, [Sym(e.op)] + r);
    StandsHead(ts, p + |l|, Sym(e.op), r);
  }

  lemma {:induction false} MakesBinary(g: Table, ts: Tokens, p: nat, depth: nat, e: Expr, q: nat)
    requires e.Binary? && BareSteps(g, e) < MAX_CHAIN && g(e.op) > 0
    requires Readable(g, ts, p, depth, e.lhs, LeftLevel(g, e.op)) && q == p + Size(g, e.lhs, LeftLevel(g, e.op))
    requires At(ts, q, e.op) && Readable(g, ts, q + 1, depth + 1, e.rhs, RightLevel(g, e.op))
    ensures BareReadable(g, ts, p, depth, e)
  {
  }

  lemma {:induction false} TernaryIsReadable(g: Table, ts: Tokens, p: nat, depth: nat, e: Expr)
    requires e.Ternary? && Stands(ts, p, Bare(g, e)) && Fits(g, e) && depth + BareNeed(g, e) <= MAX_DEPTH
    ensures BareReadable(g, ts, p, depth, e)
    decreases 20 * Weigh(e) + 2
  {
    var q := p + Size(g, e.cond, 4);
    var m := q + 1 + Size(g, e.yes, 2);
    TernaryLaidOut(g, ts, p, e, q, m);
    TernaryFits(g, e);
    PartsAreReadable(g, ts, p, depth, e, q, m);
    MakesTernary(g, ts, p, depth, e, q, m);
  }

  lemma {:induction false} PartsAreReadable(g: Table, ts: Tokens, p: nat, depth: nat, e: Expr, q: nat, m: nat)
    requires e.Ternary? && Fits(g, e.cond) && Fits(g, e.yes) && Fits(g, e.no)
    requires depth + Need(g, e.cond, 4) <= MAX_DEPTH
    requires depth + 1 + Need(g, e.yes, 2) <= MAX_DEPTH && depth + 1 + Need(g, e.no, 2) <= MAX_DEPTH
    requires Stands(ts, p, Print(g, e.cond, 4)) && Stands(ts, q + 1, Print(g, e.yes, 2)) && Stands(ts, m + 1, Print(g, e.no, 2))
    ensures Readable(g, ts, p, depth, e.cond, 4)
    ensures Readable(g, ts, q + 1, depth + 1, e.yes, 2) && Readable(g, ts, m + 1, depth + 1, e.no, 2)
    decreases 20 * Weigh(e) + 1
  {
    PartIsReadable(g, ts, p, depth, e, e.cond, 4);
    PartIsReadable(g, ts, q + 1, depth + 1, e, e.yes, 2);
    PartIsReadable(g, ts, m + 1, depth + 1, e, e.no, 2);
  }

  lemma {:induction false} TernaryFits(g: Table, e: Expr)
    requires e.Ternary? && Fits(g, e)
    ensures Fits(g, e.cond) && Fits(g, e.yes) && Fits(g, e.no) && BareSteps(g, e) < MAX_CHAIN
    ensures Need(g, e.cond, 4) <= BareNeed(g, e)
    ensures 1 + Need(g, e.yes, 2) <= BareNeed(g, e) && 1 + Need(g, e.no, 2) <= BareNeed(g, e)
  {
  }

  lemma {:induction false} PartIsReadable(g: Table, ts: Tokens, p: nat, depth: nat, whole: Expr, e: Expr, level: nat)
    requires Weigh(e) < Weigh(whole) && Stands(ts, p, Print(g, e, level)) && Fits(g, e)
    requires depth + Need(g, e, level) <= MAX_DEPTH
    ensures Readable(g, ts, p, depth, e, level)
    decreases 20 * Weigh(whole)
  {
    PrintedIsReadable(g, ts, p, depth, e, level);
  }

  lemma {:induction false} TernaryLaidOut(g: Table, ts: Tokens, p: nat, e: Expr, q: nat, m: nat)
    requires e.Ternary? && Stands(ts, p, Bare(g, e))
    requires q == p + Size(g, e.cond, 4) && m == q + 1 + Size(g, e.yes, 2)
    ensures Stands(ts, p, Print(g, e.cond, 4)) && At(ts, q, Question) && Stands(ts, q + 1, Print(g, e.yes, 2))
    ensures At(ts, m, Colon) && Stands(ts, m + 1, Print(g, e.no, 2))
  {
    FiveStand(ts, p, Print(g, e.cond, 4), Print(g, e.yes, 2), Print(g, e.no, 2));
  }

  lemma {:induction false} FiveStand(ts: Tokens, p: nat, c: seq<Token>, y: seq<Token>, n: seq<Token>)
    requires Stands(ts, p, c + ([Sym(Question)] + (y + ([Sym(Colon)] + n))))
    ensures Stands(ts, p, c) && At(ts, p + |c|, Question) && Stands(ts, p + |c| + 1, y)
    ensures At(ts, p + |c| + 1 + |y|, Colon) && Stands(ts, p + |c| + 1 + |y| + 1, n)
  {
    StandsParts(ts, p, c, [Sym(Question)] + (y + ([Sym(Colon)] + n)));
    StandsHead(ts, p + |c|, Sym(Question), y + ([Sym(Colon)] + n));
    StandsParts(ts, p + |c| + 1, y, [Sym(Colon)] + n);
    StandsHead(ts, p + |c| + 1 + |y|, Sym(Colon), n);
  }

  lemma {:induction false} MakesTernary(g: Table, ts: Tokens, p: nat, depth: nat, e: Expr, q: nat, m: nat)
    requires e.Ternary? && BareSteps(g, e) < MAX_CHAIN
    requires Readable(g, ts, p, depth, e.cond, 4) && q == p + Size(g, e.cond, 4) && At(ts, q, Question)
    requires Readable(g, ts, q + 1, depth + 1, e.yes, 2) && m == q + 1 + Size(g, e.yes, 2) && At(ts, m, Colon)
    requires Readable(g, ts, m + 1, depth + 1, e.no, 2)
    ensures BareReadable(g, ts, p, depth, e)
  {
  }
}
