/** The printed text is the shortest that is read as its tree: each pair of parentheses is needed. */
module ShortestText {
  import opened ExprGrammar
  import opened Printing
  import opened SpelledText
  import opened ParseRoundTrip

  lemma {:induction false} SizeGrows(g: Table, e: Expr, level: nat, higher: nat)
    requires level <= higher
    ensures Size(g, e, level) <= Size(g, e, higher) <= BareSize(g, e) + 2
  {
  }

  /** As the operator loop's left operand, e was read from n tokens, and t follows. */
  ghost predicate Left(g: Table, e: Expr, n: int, min: nat, t: Token) {
    n >= Size(g, e, UNARY) || (Prec(g, e) >= min && n >= BareSize(g, e) && EndsBefore(g, e, t))
  }

  /** The left operand of the operator that follows it was not read from less than its text. */
  lemma {:induction false} LeftOfOperator(g: Table, e: Expr, n: int, min: nat, k: Kind)
    requires Left(g, e, n, min, Sym(k)) && g(k) > 0
    ensures n >= Size(g, e, LeftLevel(g, k))
  {
    if n >= Size(g, e, UNARY) {
      SizeGrows(g, e, LeftLevel(g, k), UNARY);
    }
  }

  lemma {:induction false} LeftOfQuestion(g: Table, e: Expr, n: int, min: nat)
    requires Left(g, e, n, min, Sym(Question))
    ensures n >= Size(g, e, 4)
  {
    if n >= Size(g, e, UNARY) {
      SizeGrows(g, e, 4, UNARY);
    }
  }

  lemma {:induction false} LeftAtLevel(g: Table, e: Expr, n: int, min: nat, t: Token)
    requires Left(g, e, n, min, t) && min <= UNARY
    ensures n >= Size(g, e, min)
  {
    if n >= Size(g, e, UNARY) {
      SizeGrows(g, e, min, UNARY);
    }
  }

  /** Reading without a report takes at least the tree's text, up to a token that stops it. */
  lemma {:induction false} BinarySpan(g: Table, ts: Tokens, pos: nat, depth: nat, min: nat)
    requires pos < |ts| && depth <= MAX_DEPTH && min <= UNARY
    ensures var r := ParseBinary(g, ts, pos, depth, min);
            r.ok ==> r.pos - pos >= Size(g, r.e, min) && Stops(g, min, ts[r.pos])
    decreases |ts| - pos, MAX_DEPTH - depth, 9
  {
    var lhs := ParseUnary(g, ts, pos, depth);
    UnarySpan(g, ts, pos, depth);
    LoopSpan(g, ts, pos, lhs, depth, min, 0);
  }

  lemma {:induction false} LoopSpan(g: Table, ts: Tokens, start: nat, lhs: Parsed, depth: nat, min: nat, chain: nat)
    requires start <= lhs.pos < |ts| && depth <= MAX_DEPTH && min <= UNARY
    requires lhs.ok ==> Left(g, lhs.e, lhs.pos - start, min, ts[lhs.pos])
    ensures var r := BinaryLoop(g, ts, lhs, depth, min, chain);
            r.ok ==> r.pos - start >= Size(g, r.e, min) && Stops(g, min, ts[r.pos])
    decreases |ts| - lhs.pos, MAX_DEPTH - depth, 8
  {
    var t := ts[lhs.pos];
    if chain + 1 > MAX_CHAIN {
    } else if t == Sym(Question) && min <= 3 {
      ArmsSpan(g, ts, start, lhs, depth, min);
      LoopSpan(g, ts, start, TernaryArms(g, ts, lhs, depth), depth, min, chain + 1);
    } else if PrecOf(g, t) == 0 || PrecOf(g, t) < min {
      if lhs.ok {
        LeftAtLevel(g, lhs.e, lhs.pos - start, min, t);
      }
    } else {
      var rhs := ParseRhs(g, ts, lhs.pos + 1, depth, RightLevel(g, t.kind));
      RightSpan(g, ts, start, lhs, depth, min, t.kind);
      LoopSpan(g, ts, start, Parsed(Binary(t.kind, lhs.e, rhs.e), rhs.pos, lhs.ok && rhs.ok), depth, min, chain + 1);
    }
  }

  lemma {:induction false} RightSpan(g: Table, ts: Tokens, start: nat, lhs: Parsed, depth: nat, min: nat, k: Kind)
    requires start <= lhs.pos < |ts| && depth <= MAX_DEPTH && ts[lhs.pos] == Sym(k)
    requires g(k) > 0 && g(k) >= min && RightLevel(g, k) <= UNARY
    requires lhs.ok ==> Left(g, lhs.e, lhs.pos - start, min, Sym(k))
    ensures var rhs := ParseRhs(g, ts, lhs.pos + 1, depth, RightLevel(g, k));
            lhs.ok && rhs.ok ==> Left(g, Binary(k, lhs.e, rhs.e), rhs.pos - start, min, ts[rhs.pos])
    decreases |ts| - lhs.pos, MAX_DEPTH - depth, 7
  {
    var rhs := ParseRhs(g, ts, lhs.pos + 1, depth, RightLevel(g, k));
    RhsSpan(g, ts, lhs.pos + 1, depth, RightLevel(g, k));
    if lhs.ok && rhs.ok {
      OperatorSpan(g, lhs.e, rhs.e, k, lhs.pos - start, rhs.pos - (lhs.pos + 1), min, ts[rhs.pos]);
    }
  }

  lemma {:induction false} OperatorSpan(g: Table, l: Expr, r: Expr, k: Kind, m: int, n: int, min: nat, next: Token)
    requires g(k) > 0 && g(k) >= min && Left(g, l, m, min, Sym(k))
    requires n >= Size(g, r, RightLevel(g, k)) && Stops(g, RightLevel(g, k), next)
    ensures Left(g, Binary(k, l, r), m + 1 + n, min, next)
  {
    LeftOfOperator(g, l, m, min, k);
  }

  lemma {:induction false} ArmsSpan(g: Table, ts: Tokens, start: nat, cond: Parsed, depth: nat, min: nat)
    requires start <= cond.pos < |ts| && ts[cond.pos] == Sym(Question) && depth <= MAX_DEPTH && min <= 3
    requires cond.ok ==> Left(g, cond.e, cond.pos - start, min, Sym(Question))
    ensures var r := TernaryArms(g, ts, cond, depth);
            r.ok ==> Left(g, r.e, r.pos - start, min, ts[r.pos])
    decreases |ts| - cond.pos, MAX_DEPTH - depth, 7
  {
    RhsSpan(g, ts, cond.pos + 1, depth, 2);
    var yes := ParseRhs(g, ts, cond.pos + 1, depth, 2);
    RhsSpan(g, ts, Expect(ts, yes.pos, Colon), depth, 2);
    if cond.ok {
      LeftOfQuestion(g, cond.e, cond.pos - start, min);
    }
  }

  lemma {:induction false} RhsSpan(g: Table, ts: Tokens, pos: nat, depth: nat, min: nat)
    requires pos < |ts| && depth <= MAX_DEPTH && min <= UNARY
    ensures var r := ParseRhs(g, ts, pos, depth, min);
            r.ok ==> r.pos - pos >= Size(g, r.e, min) && Stops(g, min, ts[r.pos])
    decreases |ts| - pos, MAX_DEPTH - depth, 10
  {
    if depth < MAX_DEPTH {
      BinarySpan(g, ts, pos, depth + 1, min);
    }
  }

  lemma {:induction false} UnarySpan(g: Table, ts: Tokens, pos: nat, depth: nat)
    requires pos < |ts| && depth <= MAX_DEPTH
    ensures var r := ParseUnary(g, ts, pos, depth);
            r.ok ==> r.pos - pos >= Size(g, r.e, UNARY)
    decreases |ts| - pos, MAX_DEPTH - depth, 6
  {
    if depth < MAX_DEPTH {
      if ts[pos].Sym? && IsPrefix(ts[pos].kind) {
        UnarySpan(g, ts, pos + 1, depth + 1);
      } else {
        PrimarySpan(g, ts, pos, depth + 1);
      }
    }
  }

  lemma {:induction false} PrimarySpan(g: Table, ts: Tokens, pos: nat, depth: nat)
    requires pos < |ts| && depth <= MAX_DEPTH
    ensures var r := ParsePrimary(g, ts, pos, depth);
            r.ok ==> r.pos - pos >= Size(g, r.e, UNARY)
    decreases |ts| - pos, MAX_DEPTH - depth, 3
  {
    if At(ts, pos, LeftParen) {
      BinarySpan(g, ts, pos + 1, depth, 1);
      var e := ParseBinary(g, ts, pos + 1, depth, 1);
      SizeGrows(g, e.e, 1, UNARY);
    }
  }

  /** Whatever is read as e without a report is at least as long as the printed text of e. */
  lemma {:induction false} NothingShorterReads(g: Table, ts: Tokens, p: nat, depth: nat, min: nat, e: Expr, q: nat)
    requires p < |ts| && depth <= MAX_DEPTH && min <= UNARY && ParseBinary(g, ts, p, depth, min) == Parsed(e, q, true)
    ensures q - p >= |Print(g, e, min)|
  {
    BinarySpan(g, ts, p, depth, min);
  }

  /** A text without its i-th and j-th tokens. */
  function Without(text: seq<Token>, i: nat, j: nat): (rest: seq<Token>)
    requires i < j < |text|
    ensures |rest| == |text| - 2
  {
    text[..i] + text[i + 1..j] + text[j + 1..]
  }

  /** Dropping any two tokens of the printed text, a pair of parentheses above all, leaves a text that is
      not read as the same tree. */
  lemma {:induction false} NoParensToSpare(g: Table, ts: Tokens, p: nat, depth: nat, min: nat, e: Expr, i: nat, j: nat)
    requires depth <= MAX_DEPTH && min <= UNARY && i < j < |Print(g, e, min)|
    requires Stands(ts, p, Without(Print(g, e, min), i, j))
    ensures ParseBinary(g, ts, p, depth, min) != Parsed(e, p + |Without(Print(g, e, min), i, j)|, true)
  {
    BinarySpan(g, ts, p, depth, min);
  }
}
