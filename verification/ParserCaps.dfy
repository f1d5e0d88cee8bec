/** How deep expressions may nest and how long rows of operators may be, in numbers. */
module ParserCaps {
  import opened ExprGrammar

  /** n minus signs and an operand. */
  function Minuses(n: nat, x: int): (ts: seq<Token>)
    ensures |ts| == n + 2 && ts[n] == Operand(x) && ts[n + 1] == Sym(Eof) && forall k :: 0 <= k < n ==> ts[k] == Sym(Minus)
  {
    seq(n, _ => Sym(Minus)) + [Operand(x), Sym(Eof)]
  }

  lemma {:induction false} MinusesRead(g: Table, n: nat, x: int, k: nat)
    requires k <= n && k <= 256
    ensures var ts: Tokens := Minuses(n, x); ParseUnary(g, ts, k, k).ok <==> n <= 255
    ensures var ts: Tokens := Minuses(n, x); n <= 255 ==> ParseUnary(g, ts, k, k).pos == n + 1
    decreases n - k
  {
    if k < n && k < 256 {
      MinusesRead(g, n, x, k + 1);
    }
  }

  /** 255 prefix operators in a row are read, one more is reported. */
  lemma {:induction false} PrefixesNest(g: Table, n: nat, x: int)
    ensures var ts: Tokens := Minuses(n, x); ParseBinary(g, ts, 0, 0, 1).ok <==> n <= 255
  {
    var ts: Tokens := Minuses(n, x);
    MinusesRead(g, n, x, 0);
    var lhs := ParseUnary(g, ts, 0, 0);
    if n > 255 {
      StaysReported(g, ts, lhs, 0, 1, 0);
    }
  }

  /** What was reported stays so. */
  lemma {:induction false} StaysReported(g: Table, ts: Tokens, lhs: Parsed, depth: nat, min: nat, chain: nat)
    requires lhs.pos < |ts| && depth <= MAX_DEPTH && !lhs.ok
    ensures !BinaryLoop(g, ts, lhs, depth, min, chain).ok
    decreases |ts| - lhs.pos
  {
    var t := ts[lhs.pos];
    if chain + 1 > MAX_CHAIN {
    } else if t == Sym(Question) && min <= 3 {
      StaysReported(g, ts, TernaryArms(g, ts, lhs, depth), depth, min, chain + 1);
    } else if PrecOf(g, t) == 0 || PrecOf(g, t) < min {
    } else {
      var rhs := ParseRhs(g, ts, lhs.pos + 1, depth, if PrecOf(g, t) == 2 then 2 else PrecOf(g, t) + 1);
      StaysReported(g, ts, Parsed(Binary(t.kind, lhs.e, rhs.e), rhs.pos, lhs.ok && rhs.ok), depth, min, chain + 1);
    }
  }

  /** n sums in a row. */
  function Sums(n: nat, x: int): (ts: seq<Token>)
    ensures |ts| == 2 * n + 2 && ts[2 * n + 1] == Sym(Eof)
    ensures forall k :: 0 <= k <= n ==> ts[2 * k] == Operand(x)
    ensures forall k :: 0 <= k < n ==> ts[2 * k + 1] == Sym(Plus)
  {
    seq(2 * n + 1, k => if k % 2 == 0 then Operand(x) else Sym(Plus)) + [Sym(Eof)]
  }

  lemma {:induction false} OperandRead(g: Table, ts: Tokens, pos: nat, depth: nat, x: int)
    requires pos + 1 < |ts| && ts[pos] == Operand(x) && depth < MAX_DEPTH
    ensures ParseUnary(g, ts, pos, depth) == Parsed(Atom(x), pos + 1, true)
  {
    assert ParsePrimary(g, ts, pos, depth + 1) == Parsed(Atom(x), pos + 1, true);
  }

  lemma {:induction false} OneOperand(g: Table, ts: Tokens, pos: nat, x: int, level: nat)
    requires pos + 1 < |ts| && ts[pos] == Operand(x) && level > 3 && PrecOf(g, ts[pos + 1]) < level
    ensures ParseRhs(g, ts, pos, 0, level) == Parsed(Atom(x), pos + 1, true)
  {
    OperandRead(g, ts, pos, 1, x);
    assert BinaryLoop(g, ts, Parsed(Atom(x), pos + 1, true), 1, level, 0) == Parsed(Atom(x), pos + 1, true);
  }

  lemma {:induction false} SumsRead(g: Table, n: nat, x: int, lhs: Parsed, k: nat)
    requires 4 <= g(Plus) && k <= n && k <= 512 && lhs.ok && lhs.pos == 2 * k + 1
    ensures var ts: Tokens := Sums(n, x); BinaryLoop(g, ts, lhs, 0, 1, k).ok <==> n <= 511
    decreases n - k
  {
    var ts: Tokens := Sums(n, x);
    if k < n && k < 512 {
      assert ts[2 * (k + 1)] == Operand(x);
      assert k + 1 < n ==> ts[2 * (k + 1) + 1] == Sym(Plus);
      OneOperand(g, ts, 2 * (k + 1), x, g(Plus) + 1);
      SumsRead(g, n, x, Parsed(Binary(Plus, lhs.e, Atom(x)), 2 * (k + 1) + 1, true), k + 1);
      assert ts[2 * k + 1] == Sym(Plus);
    }
  }

  /** 511 operators in a row are read, one more is reported. */
  lemma {:induction false} RowsEnd(g: Table, n: nat, x: int)
    requires 4 <= g(Plus)
    ensures var ts: Tokens := Sums(n, x); ParseBinary(g, ts, 0, 0, 1).ok <==> n <= 511
  {
    var ts: Tokens := Sums(n, x);
    assert ts[2 * 0] == Operand(x);
    OperandRead(g, ts, 0, 0, x);
    SumsRead(g, n, x, Parsed(Atom(x), 1, true), 0);
  }
}
