/** Expressions: tokens, trees, and how the parser reads one from the other. */
module ExprGrammar {

  datatype Kind =
    | Comma
    | Assign | PlusAssign | MinusAssign | StarAssign | SlashAssign | PercentAssign
    | AndAssign | OrAssign | XorAssign | ShlAssign | ShrAssign
    | Question | Colon
    | OrOr | AndAnd | Pipe | Caret | Amp
    | Equal | NotEqual | Less | Greater | LessEqual | GreaterEqual
    | ShiftLeft | ShiftRight | Plus | Minus | Star | Slash | Percent
    | Not | Tilde | PlusPlus | MinusMinus
    | LeftParen | RightParen | RightBracket | Semicolon | Eof

  /** An operator or punctuation, or an operand: a whole postfix expression counts as one. */
  datatype Token = Operand(id: int) | Sym(kind: Kind)

  datatype Expr =
    | Atom(id: int)
    | Unary(op: Kind, operand: Expr)
    | Binary(op: Kind, lhs: Expr, rhs: Expr)
    | Ternary(cond: Expr, yes: Expr, no: Expr)

  /** How tightly a binary operator binds; 0 for what is none. */
  function BinaryPrec(k: Kind): nat {
    match k
    case Comma => 1
    case Assign | PlusAssign | MinusAssign | StarAssign | SlashAssign | PercentAssign
       | AndAssign | OrAssign | XorAssign | ShlAssign | ShrAssign => 2
    case OrOr => 4
    case AndAnd => 5
    case Pipe => 6
    case Caret => 7
    case Amp => 8
    case Equal | NotEqual => 9
    case Less | Greater | LessEqual | GreaterEqual => 10
    case ShiftLeft | ShiftRight => 11
    case Plus | Minus => 12
    case Star | Slash | Percent => 13
    case _ => 0
  }

  // Above all binary operators: prefix operators, then operands.
  const UNARY: nat := 14
  const OPERAND: nat := 15

  /** What the parser needs of a table of precedences: no operator at the ternary's level or above
      the unary ones, and none among the tokens that have a part of their own. */
  ghost predicate IsTable(g: Kind -> nat) {
    && (forall k: Kind :: g(k) != 3 && g(k) < UNARY)
    && g(Question) == g(Colon) == g(LeftParen) == g(RightParen) == g(RightBracket) == g(Eof) == 0
    && g(Comma) == 1
  }

  /** A table of precedences; the parser's own is BinaryPrec. */
  type Table = g: Kind -> nat | IsTable(g) witness BinaryPrec

  /** A token list ends in its end-of-file token. */
  type Tokens = ts: seq<Token> | ts != [] && ts[|ts| - 1] == Sym(Eof) witness [Sym(Eof)]

  function PrecOf(g: Table, t: Token): nat { if t.Sym? then g(t.kind) else 0 }

  predicate IsPrefix(k: Kind) {
    k == Minus || k == Plus || k == Not || k == Tilde || k == PlusPlus || k == MinusMinus
  }

  // ----- the parser -----

  const MAX_DEPTH: nat := 256
  const MAX_CHAIN: nat := 512

  /** What parsing came to: a tree, where it stopped, and whether nothing was reported. */
  datatype Parsed = Parsed(e: Expr, pos: nat, ok: bool)

  predicate At(ts: Tokens, pos: nat, k: Kind) {
    pos < |ts| && ts[pos] == Sym(k)
  }

  function Advance(ts: Tokens, pos: nat): (r: nat)
    requires pos < |ts|
    ensures pos <= r < |ts|
  {
    if pos < |ts| - 1 then pos + 1 else pos
  }

  function Expect(ts: Tokens, pos: nat, k: Kind): (r: nat)
    requires pos < |ts|
    ensures pos <= r < |ts|
  {
    if At(ts, pos, k) then Advance(ts, pos) else pos
  }

  function TooDeep(ts: Tokens, pos: nat): (r: Parsed)
    requires pos < |ts|
    ensures pos <= r.pos < |ts|
  {
    Parsed(Atom(0), Advance(ts, pos), false)
  }

  function ParseBinary(g: Table, ts: Tokens, pos: nat, depth: nat, min: nat): (r: Parsed)
    requires pos < |ts| && depth <= MAX_DEPTH
    ensures pos <= r.pos < |ts|
    decreases |ts| - pos, MAX_DEPTH - depth, 9
  {
    var lhs := ParseUnary(g, ts, pos, depth);
    BinaryLoop(g, ts, lhs, depth, min, 0)
  }

  /** The operators behind `lhs` that bind at least as tightly as min; `chain` counts them. */
  function BinaryLoop(g: Table, ts: Tokens, lhs: Parsed, depth: nat, min: nat, chain: nat): (r: Parsed)
    requires lhs.pos < |ts| && depth <= MAX_DEPTH
    ensures lhs.pos <= r.pos < |ts|
    decreases |ts| - lhs.pos, MAX_DEPTH - depth, 8
  {
    var t := ts[lhs.pos];
    if chain + 1 > MAX_CHAIN then lhs.(ok := false)
    else if t == Sym(Question) && min <= 3 then
      BinaryLoop(g, ts, TernaryArms(g, ts, lhs, depth), depth, min, chain + 1)
    else if PrecOf(g, t) == 0 || PrecOf(g, t) < min then lhs
    else
      var rhs := ParseRhs(g, ts, lhs.pos + 1, depth, if PrecOf(g, t) == 2 then 2 else PrecOf(g, t) + 1);
      BinaryLoop(g, ts, Parsed(Binary(t.kind, lhs.e, rhs.e), rhs.pos, lhs.ok && rhs.ok), depth, min, chain + 1)
  }

  function TernaryArms(g: Table, ts: Tokens, cond: Parsed, depth: nat): (r: Parsed)
    requires cond.pos < |ts| && ts[cond.pos] == Sym(Question) && depth <= MAX_DEPTH
    ensures cond.pos < r.pos < |ts|
    decreases |ts| - cond.pos, MAX_DEPTH - depth, 7
  {
    var yes := ParseRhs(g, ts, cond.pos + 1, depth, 2);
    var no := ParseRhs(g, ts, Expect(ts, yes.pos, Colon), depth, 2);
    Parsed(Ternary(cond.e, yes.e, no.e), no.pos, cond.ok && yes.ok && At(ts, yes.pos, Colon) && no.ok)
  }

  function ParseRhs(g: Table, ts: Tokens, pos: nat, depth: nat, min: nat): (r: Parsed)
    requires pos < |ts| && depth <= MAX_DEPTH
    ensures pos <= r.pos < |ts|
    decreases |ts| - pos, MAX_DEPTH - depth, 10
  {
    if depth >= MAX_DEPTH then TooDeep(ts, pos) else ParseBinary(g, ts, pos, depth + 1, min)
  }

  function ParseUnary(g: Table, ts: Tokens, pos: nat, depth: nat): (r: Parsed)
    requires pos < |ts| && depth <= MAX_DEPTH
    ensures pos <= r.pos < |ts|
    decreases |ts| - pos, MAX_DEPTH - depth, 6
  {
    if depth >= MAX_DEPTH then TooDeep(ts, pos)
    else if ts[pos].Sym? && IsPrefix(ts[pos].kind) then
      var e := ParseUnary(g, ts, pos + 1, depth + 1);
      Parsed(Unary(ts[pos].kind, e.e), e.pos, e.ok)
    else ParsePrimary(g, ts, pos, depth + 1)
  }

  function ParsePrimary(g: Table, ts: Tokens, pos: nat, depth: nat): (r: Parsed)
    requires pos < |ts| && depth <= MAX_DEPTH
    ensures pos <= r.pos < |ts|
    decreases |ts| - pos, MAX_DEPTH - depth, 3
  {
    match ts[pos]
    case Operand(x) => Parsed(Atom(x), Advance(ts, pos), true)
    case Sym(k) =>
      if k == LeftParen then
        var e := ParseBinary(g, ts, pos + 1, depth, 1);
        Parsed(e.e, Expect(ts, e.pos, RightParen), e.ok && At(ts, e.pos, RightParen))
      else
        Parsed(Atom(0), Advance(ts, pos), false)
  }
}
