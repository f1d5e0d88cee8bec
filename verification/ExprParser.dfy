/** The parser as it runs: one position that moves on, one depth that goes up and down, and a left
    operand that grows in a loop. */
module ExprParser {
  import opened ExprGrammar

  class Parser {
    const g: Table
    const ts: Tokens
    var pos: nat
    var depth: nat
    var reported: bool

    ghost predicate Valid()
      reads this
    {
      pos < |ts| && depth <= MAX_DEPTH
    }

    constructor (g: Table, ts: Tokens)
      ensures Valid() && this.g == g && this.ts == ts && pos == 0 && depth == 0 && !reported
    {
      this.g, this.ts, pos, depth, reported := g, ts, 0, 0, false;
    }

    /** Everything a call does to the parser, given what it is specified to return. */
    twostate predicate Did(r: Parsed, e: Expr)
      reads this
    {
      Valid() && depth == old(depth) && e == r.e && pos == r.pos && reported == (old(reported) || !r.ok)
    }

    method Next()
      requires Valid()
      modifies this`pos
      ensures Valid() && pos == Advance(ts, old(pos))
    {
      if pos < |ts| - 1 {
        pos := pos + 1;
      }
    }

    method Expect(k: Kind)
      requires Valid()
      modifies this`pos, this`reported
      ensures Valid() && pos == ExprGrammar.Expect(ts, old(pos), k)
      ensures reported == (old(reported) || !At(ts, old(pos), k))
    {
      if At(ts, pos, k) {
        Next();
      } else {
        reported := true;
      }
    }

    method TooDeep() returns (e: Expr)
      requires Valid()
      modifies this`pos, this`reported
      ensures Did(ExprGrammar.TooDeep(ts, old(pos)), e)
    {
      reported := true;
      Next();
      e := Atom(0);
    }

    method Binary(min: nat) returns (e: Expr)
      requires Valid()
      modifies this
      ensures Did(ParseBinary(g, ts, old(pos), old(depth), min), e)
      decreases |ts| - pos, MAX_DEPTH - depth, 9
    {
      ghost var start, d, was := pos, depth, reported;
      ghost var result := ParseBinary(g, ts, start, d, min);
      e := Prefixed();
      var chain := 0;
      while true
        invariant Valid() && depth == d && start <= pos && (was ==> reported)
        invariant chain > 0 ==> start < pos
        invariant exists ok: bool :: reported == (was || !ok) &&
                    BinaryLoop(g, ts, Parsed(e, pos, ok), d, min, chain) == result
        decreases |ts| - pos
      {
        ghost var ok: bool :| reported == (was || !ok) && BinaryLoop(g, ts, Parsed(e, pos, ok), d, min, chain) == result;
        chain := chain + 1;
        if chain > MAX_CHAIN {
          reported := true;
          return;
        }
        var t := ts[pos];
        if t == Sym(Question) && min <= 3 {
          e := Arms(e, ok);
          continue;
        }
        if PrecOf(g, t) == 0 || PrecOf(g, t) < min {
          return;
        }
        Next();
        var rhs := Rhs(if PrecOf(g, t) == 2 then 2 else PrecOf(g, t) + 1);
        e := Expr.Binary(t.kind, e, rhs);
      }
    }

    method Arms(cond: Expr, ghost ok: bool) returns (e: Expr)
      requires Valid() && ts[pos] == Sym(Question)
      modifies this
      ensures Valid() && depth == old(depth)
      ensures var r := TernaryArms(g, ts, Parsed(cond, old(pos), ok), depth);
              e == r.e && pos == r.pos && (ok ==> (reported == (old(reported) || !r.ok))) && (!ok ==> !r.ok)
      ensures old(reported) ==> reported
      decreases |ts| - pos, MAX_DEPTH - depth, 7
    {
      Next();
      var yes := Rhs(2);
      Expect(Colon);
      var no := Rhs(2);
      e := Ternary(cond, yes, no);
    }

    method Rhs(min: nat) returns (e: Expr)
      requires Valid()
      modifies this
      ensures Did(ParseRhs(g, ts, old(pos), old(depth), min), e)
      decreases |ts| - pos, MAX_DEPTH - depth, 10
    {
      if depth >= MAX_DEPTH {
        e := TooDeep();
        return;
      }
      depth := depth + 1;
      e := Binary(min);
      depth := depth - 1;
    }

    method Prefixed() returns (e: Expr)
      requires Valid()
      modifies this
      ensures Did(ParseUnary(g, ts, old(pos), old(depth)), e)
      decreases |ts| - pos, MAX_DEPTH - depth, 6
    {
      if depth >= MAX_DEPTH {
        e := TooDeep();
        return;
      }
      depth := depth + 1;
      var t := ts[pos];
      if t.Sym? && IsPrefix(t.kind) {
        Next();
        var operand := Prefixed();
        e := Unary(t.kind, operand);
      } else {
        e := Primary();
      }
      depth := depth - 1;
    }

    method Primary() returns (e: Expr)
      requires Valid()
      modifies this
      ensures Did(ParsePrimary(g, ts, old(pos), old(depth)), e)
      decreases |ts| - pos, MAX_DEPTH - depth, 3
    {
      match ts[pos]
      case Operand(x) =>
        Next();
        e := Atom(x);
      case Sym(k) =>
        if k == LeftParen {
          Next();
          e := Binary(1);
          Expect(RightParen);
        } else {
          reported := true;
          Next();
          e := Atom(0);
        }
    }
  }
}
