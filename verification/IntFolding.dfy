/** Constant evaluation of integer and boolean lanes, on 64-bit patterns. */
module IntFolding {
  import opened Ir
  import opened Residues
  import opened IntBits

  /** The kind of a lane; floats are folded elsewhere. */
  datatype Lane = IntLane(kind: IntKind) | BoolLane

  predicate IsLane(l: Lane) { l.IntLane? ==> IsKind(l.kind) }

  predicate IsCompare(op: Op) { op.Eq? || op.Ne? || op.Lt? || op.Le? || op.Gt? || op.Ge? }

  predicate IsCommutative(op: Op) {
    op.Add? || op.Mul? || op.BitAnd? || op.BitOr? || op.BitXor? || op.Eq? || op.Ne? || op.LogAnd? || op.LogOr?
  }

  /** The compare relating (b, a) as op relates (a, b). */
  function Mirror(op: Op): Op {
    match op
    case Lt => Gt
    case Gt => Lt
    case Le => Ge
    case Ge => Le
    case _ => op
  }

  predicate Compares(op: Op, x: int, y: int) {
    match op
    case Eq => x == y
    case Ne => x != y
    case Lt => x < y
    case Le => x <= y
    case Gt => x > y
    case _ => x >= y
  }

  function Bit(b: bool): U64 { if b then 1 else 0 }

  /** C's division of integers, toward zero, and its remainder. */
  function TruncDiv(x: int, y: int): int
    requires y != 0
  {
    var q := (if x < 0 then -x else x) / (if y < 0 then -y else y);
    if (x < 0) == (y < 0) then q else -q
  }

  function TruncRem(x: int, y: int): int
    requires y != 0
  {
    x - y * TruncDiv(x, y)
  }

  // ----- the evaluator -----

  function EvalBinary(op: Op, l: Lane, a: U64, b: U64): Option<U64>
    requires IsLane(l)
  {
    if IsCompare(op) then EvalCompare(op, l, a, b)
    else match l
      case BoolLane =>
        if op.LogAnd? then Some(Bit(a % 2 == 1 && b % 2 == 1))
        else if op.LogOr? then Some(Bit(a % 2 == 1 || b % 2 == 1))
        else None
      case IntLane(k) => EvalInt(op, k, a, b)
  }

  function EvalCompare(op: Op, l: Lane, a: U64, b: U64): Option<U64>
    requires IsLane(l) && IsCompare(op)
  {
    match l
    case BoolLane => if op.Eq? || op.Ne? then Some(Bit(Compares(op, a % 2, b % 2))) else None
    case IntLane(k) =>
      if k.sgn then Some(Bit(Compares(op, AsSigned64(IntCanon(a, k)), AsSigned64(IntCanon(b, k)))))
      else Some(Bit(Compares(op, IntCanon(a, k), IntCanon(b, k))))
  }

  function EvalInt(op: Op, k: IntKind, a: U64, b: U64): Option<U64>
    requires IsKind(k)
  {
    match op
    case Add => Some(IntCanon(Cast(a + b), k))
    case Sub => Some(IntCanon(Cast(a as int - b as int), k))
    case Mul => Some(IntCanon(Cast(a * b), k))
    case BitAnd => Some(IntCanon(Bitwise(op, a, b), k))
    case BitOr => Some(IntCanon(Bitwise(op, a, b), k))
    case BitXor => Some(IntCanon(Bitwise(op, a, b), k))
    case Div => EvalDivision(op, k, a, b)
    case Rem => EvalDivision(op, k, a, b)
    case _ => None
  }

  function Bitwise(op: Op, a: U64, b: U64): U64 {
    Cast(if op.BitAnd? then And(a, b) else if op.BitOr? then Or(a, b) else Xor(a, b))
  }

  function EvalDivision(op: Op, k: IntKind, a: U64, b: U64): Option<U64>
    requires IsKind(k)
  {
    if k.sgn then SignedDivision(op, k, a, b) else UnsignedDivision(op, k, a, b)
  }

  function SignedDivision(op: Op, k: IntKind, a: U64, b: U64): Option<U64>
    requires IsKind(k)
  {
    var x, y := SignExt(a, k.width), SignExt(b, k.width);
    if y == 0 || (y == -1 && x == SignExt(TopBit(k.width), k.width)) then None
    else Some(IntCanon(Cast(if op.Div? then TruncDiv(x, y) else TruncRem(x, y)), k))
  }

  function TopBit(w: nat): U64
    requires 1 <= w <= 64
  {
    Pow2Grows(w - 1, 63);
    HalfOf64();
    Pow2(w - 1)
  }

  function UnsignedDivision(op: Op, k: IntKind, a: U64, b: U64): Option<U64>
    requires IsKind(k)
  {
    var x, y := And(a, WidthMask(k.width)), And(b, WidthMask(k.width));
    if y == 0 then None else Some(IntCanon(Cast(if op.Div? then x / y else x % y), k))
  }

  function Amount(amount: IntKind, b: U64): int
    requires IsKind(amount)
  {
    if amount.sgn then SignExt(b, amount.width)
    else
      AndStays(b, WidthMask(amount.width));
      AsSigned64(And(b, WidthMask(amount.width)))
  }

  function EvalShift(op: Op, k: IntKind, amount: IntKind, a: U64, b: U64): Option<U64>
    requires IsKind(k) && IsKind(amount)
  {
    var s := Amount(amount, b);
    if s < 0 || s >= k.width then None else Some(ShiftBy(op, k, a, s))
  }

  function ShiftBy(op: Op, k: IntKind, a: U64, s: nat): U64
    requires IsKind(k)
  {
    if op.Shl? then IntCanon(Cast(a * Pow2(s)), k)
    else if k.sgn then IntCanon(Cast(SignExt(a, k.width) / Pow2(s)), k)
    else IntCanon(Cast(And(a, WidthMask(k.width)) / Pow2(s)), k)
  }

  function EvalUnary(op: Op, l: Lane, a: U64): Option<U64>
    requires IsLane(l)
  {
    match l
    case BoolLane => if op.LogNot? then Some(Bit(a % 2 == 0)) else None
    case IntLane(k) =>
      if op.Neg? then Some(IntCanon(Cast(-(a as int)), k))
      else if op.BitNot? then Some(IntCanon(TWO64 - 1 - a, k))
      else None
  }

  function ConvertBits(bits: U64, from: IntKind, to: IntKind): U64
    requires IsKind(from) && IsKind(to)
  {
    IntCanon(IntCanon(bits, from), to)
  }

  /** Conversion between lanes; truth values are not converted to truth values. */
  function EvalConvert(from: Lane, to: Lane, a: U64): Option<U64>
    requires IsLane(from) && IsLane(to)
  {
    match from
    case BoolLane => if to.IntLane? then Some(a % 2) else None
    case IntLane(k) => if to.IntLane? then Some(ConvertBits(a, k, to.kind)) else Some(Bit(IntCanon(a, k) != 0))
  }

  // ----- what folding computes -----

  /** Whether a division is undefined: by zero, or the one whose quotient does not fit. */
  predicate DivisionUndefined(k: IntKind, x: int, y: int)
    requires IsKind(k)
  {
    y == 0 || (k.sgn && y == -1 && x == Least(k))
  }

  /** Wrapping at 64 bits and then at the width is wrapping at the width. */
  lemma {:induction false} CanonOfCast(k: IntKind, v: int)
    requires IsKind(k)
    ensures IntCanon(Cast(v), k) == Cast(Wrap(k, v))
  {
    CanonIs(Cast(v), k);
    CastKeepsLowBits(k, v);
  }

  /** Addition, subtraction and multiplication are exact modulo the width. */
  lemma {:induction false} SumsAreExact(k: IntKind, a: U64, b: U64)
    requires IsKind(k)
    ensures EvalInt(Add, k, a, b) == Some(Cast(Wrap(k, Value(k, a) + Value(k, b))))
    ensures EvalInt(Sub, k, a, b) == Some(Cast(Wrap(k, Value(k, a) - Value(k, b))))
  {
    SumsWrap(k, a, b);
    CanonOfCast(k, a + b);
    CanonOfCast(k, a as int - b as int);
  }

  lemma {:induction false} SumsWrap(k: IntKind, a: int, b: int)
    requires IsKind(k)
    ensures Wrap(k, a + b) == Wrap(k, Wrap(k, a) + Wrap(k, b))
    ensures Wrap(k, a - b) == Wrap(k, Wrap(k, a) - Wrap(k, b))
  {
    var m, x, y := Pow2(k.width), Wrap(k, a), Wrap(k, b);
    WrapInRange(k, a);
    WrapInRange(k, b);
    SumsAreCongruent(a, b, x, y, m);
    DifferencesAreCongruent(a, b, x, y, m);
    WrapOfResidue(k, a + b, x + y);
    WrapOfResidue(k, a - b, x - y);
  }

  lemma {:induction false} ProductsAreExact(k: IntKind, a: U64, b: U64)
    requires IsKind(k)
    ensures EvalInt(Mul, k, a, b) == Some(Cast(Wrap(k, Value(k, a) * Value(k, b))))
  {
    var m, x, y := Pow2(k.width), Value(k, a), Value(k, b);
    WrapInRange(k, a);
    WrapInRange(k, b);
    ResiduesMultiply(a, b, m);
    ResiduesMultiply(x, y, m);
    WrapOfResidue(k, a * b, x * y);
    CanonOfCast(k, a * b);
  }

  /** Division folds exactly when it is defined, truncating toward zero, and never wraps. */
  lemma {:induction false} DivisionIsExact(k: IntKind, a: U64, b: U64)
    requires IsKind(k)
    ensures var x, y := Value(k, a), Value(k, b);
            if DivisionUndefined(k, x, y) then
              EvalInt(Div, k, a, b) == EvalInt(Rem, k, a, b) == None
            else
              && EvalInt(Div, k, a, b) == Some(Cast(TruncDiv(x, y))) && InRange(k, TruncDiv(x, y))
              && EvalInt(Rem, k, a, b) == Some(Cast(TruncRem(x, y))) && InRange(k, TruncRem(x, y))
  {
    WrapInRange(k, a);
    WrapInRange(k, b);
    DivisionReads(Div, k, a, b);
    DivisionReads(Rem, k, a, b);
    if !DivisionUndefined(k, Value(k, a), Value(k, b)) {
      DivisionEncodes(k, Value(k, a), Value(k, b));
    }
  }

  /** The evaluator's two branches divide the operands' values. */
  lemma {:induction false} DivisionReads(op: Op, k: IntKind, a: U64, b: U64)
    requires IsKind(k)
    ensures var x, y := Value(k, a), Value(k, b);
            EvalDivision(op, k, a, b) ==
            if DivisionUndefined(k, x, y) then None
            else Some(IntCanon(Cast(if op.Div? then TruncDiv(x, y) else TruncRem(x, y)), k))
  {
    if k.sgn {
      SignedOperands(k, a, b);
    } else {
      UnsignedReads(op, k, a, b);
    }
  }

  lemma {:induction false} UnsignedReads(op: Op, k: IntKind, a: U64, b: U64)
    requires IsKind(k) && !k.sgn
    ensures var x, y := Value(k, a), Value(k, b);
            UnsignedDivision(op, k, a, b) ==
            if y == 0 then None else Some(IntCanon(Cast(if op.Div? then TruncDiv(x, y) else TruncRem(x, y)), k))
  {
    MaskReads(k, a);
    MaskReads(k, b);
    if Value(k, b) != 0 {
      TruncOfNatural(Value(k, a), Value(k, b));
    }
  }

  lemma {:induction false} MaskReads(k: IntKind, a: U64)
    requires IsKind(k) && !k.sgn
    ensures And(a, WidthMask(k.width)) == Value(k, a) >= 0
  {
    AndMask(a, k.width);
  }

  lemma {:induction false} TruncOfNatural(x: int, y: int)
    requires x >= 0 && y > 0
    ensures TruncDiv(x, y) == x / y && TruncRem(x, y) == x % y
  {
    TruncBounds(x, y);
  }

  lemma {:induction false} DivisionEncodes(k: IntKind, x: int, y: int)
    requires IsKind(k) && InRange(k, x) && InRange(k, y) && !DivisionUndefined(k, x, y)
    ensures InRange(k, TruncDiv(x, y)) && IntCanon(Cast(TruncDiv(x, y)), k) == Cast(TruncDiv(x, y))
    ensures InRange(k, TruncRem(x, y)) && IntCanon(Cast(TruncRem(x, y)), k) == Cast(TruncRem(x, y))
    ensures !k.sgn ==> TruncDiv(x, y) == x / y && TruncRem(x, y) == x % y
  {
    QuotientFits(k, x, y);
    CanonicalEncodesValue(k, TruncDiv(x, y));
    CanonicalEncodesValue(k, TruncRem(x, y));
  }

  lemma {:induction false} SignedOperands(k: IntKind, a: U64, b: U64)
    requires IsKind(k) && k.sgn
    ensures SignExt(a, k.width) == Value(k, a) && SignExt(b, k.width) == Value(k, b)
    ensures SignExt(TopBit(k.width), k.width) == Least(k)
  {
    SignExtIs(a, k.width);
    SignExtIs(b, k.width);
    TopBitIsLeast(k.width);
  }

  lemma {:induction false} TopBitIsLeast(w: nat)
    requires 1 <= w <= 64
    ensures SignExt(TopBit(w), w) == -(Pow2(w - 1) as int)
  {
    SignExtIs(TopBit(w), w);
    DivModIs(Pow2(w - 1), Pow2(w), 0, Pow2(w - 1));
  }

  lemma {:induction false} QuotientFits(k: IntKind, x: int, y: int)
    requires IsKind(k) && InRange(k, x) && InRange(k, y) && !DivisionUndefined(k, x, y)
    ensures InRange(k, TruncDiv(x, y)) && InRange(k, TruncRem(x, y))
    ensures !k.sgn ==> TruncDiv(x, y) == x / y && TruncRem(x, y) == x % y
  {
    TruncBounds(x, y);
  }

  function Abs(x: int): int { if x < 0 then -x else x }

  lemma {:induction false} TruncBounds(x: int, y: int)
    requires y != 0
    ensures Abs(TruncDiv(x, y)) <= Abs(x) && Abs(TruncRem(x, y)) <= Abs(x) && Abs(TruncRem(x, y)) < Abs(y)
    ensures y == 1 ==> TruncDiv(x, y) == x
    ensures y == -1 ==> TruncDiv(x, y) == -x
    ensures Abs(y) >= 2 && x != 0 ==> Abs(TruncDiv(x, y)) < Abs(x)
    ensures TruncRem(x, y) == 0 || (TruncRem(x, y) < 0 <==> x < 0)
    ensures x >= 0 && y > 0 ==> TruncDiv(x, y) == x / y && TruncRem(x, y) == x % y
  {
    QuotientBounds(Abs(x), Abs(y));
    TruncSigns(x, y);
  }

  lemma {:induction false} TruncSigns(x: int, y: int)
    requires y != 0
    ensures var p, q := Abs(x), Abs(y);
            && TruncDiv(x, y) == (if (x < 0) == (y < 0) then p / q else -(p / q))
            && TruncRem(x, y) == (if x < 0 then -(p - q * (p / q)) else p - q * (p / q))
  {
    SignsOut(y, Abs(x) / Abs(y));
  }

  lemma {:induction false} SignsOut(y: int, d: int)
    ensures y * d == (if y < 0 then -(Abs(y) * d) else Abs(y) * d)
    ensures y * -d == -(y * d)
  {
  }

  lemma {:induction false} QuotientBounds(p: nat, q: nat)
    requires q > 0
    ensures 0 <= p / q <= p && 0 <= q * (p / q) <= p && p - q * (p / q) < q && p % q == p - q * (p / q)
    ensures q == 1 ==> p / q == p
    ensures q >= 2 && p > 0 ==> p / q < p
  {
    var d := p / q;
    assert p == q * d + p % q;
    SplitOne(q, d);
    if q >= 2 && d > 0 {
      AtLeast(q - 1, d);
    }
  }

  lemma {:induction false} SplitOne(q: int, d: int)
    requires q > 0 && d >= 0
    ensures q * d == d + (q - 1) * d && (q - 1) * d >= 0
  {
  }

  // The evaluator's two branches compare the operands' values.
  lemma {:induction false} CompareReads(op: Op, k: IntKind, a: U64, b: U64)
    requires IsKind(k) && IsCompare(op)
    ensures EvalBinary(op, IntLane(k), a, b) == Some(Bit(Compares(op, Value(k, a), Value(k, b))))
  {
    CanonReads(k, a);
    CanonReads(k, b);
  }

  /** Each compare of integers folds, to what it says about the values. */
  lemma {:induction false} ComparesAreExact(op: Op, k: IntKind, a: U64, b: U64) returns (holds: bool)
    requires IsKind(k) && (op.Eq? || op.Ne? || op.Lt? || op.Le? || op.Gt? || op.Ge?)
    ensures EvalBinary(op, IntLane(k), a, b) == Some(if holds then 1 else 0)
    ensures op.Eq? ==> holds == (Value(k, a) == Value(k, b))
    ensures op.Ne? ==> holds == (Value(k, a) != Value(k, b))
    ensures op.Lt? ==> holds == (Value(k, a) < Value(k, b))
    ensures op.Le? ==> holds == (Value(k, a) <= Value(k, b))
    ensures op.Gt? ==> holds == (Value(k, a) > Value(k, b))
    ensures op.Ge? ==> holds == (Value(k, a) >= Value(k, b))
  {
    holds := CompareSays(op, Value(k, a), Value(k, b));
    CompareReads(op, k, a, b);
  }

  lemma {:induction false} CompareSays(op: Op, x: int, y: int) returns (holds: bool)
    requires op.Eq? || op.Ne? || op.Lt? || op.Le? || op.Gt? || op.Ge?
    ensures IsCompare(op) && holds == Compares(op, x, y)
    ensures (op.Eq? ==> holds == (x == y)) && (op.Ne? ==> holds == (x != y)) && (op.Lt? ==> holds == (x < y))
    ensures (op.Le? ==> holds == (x <= y)) && (op.Gt? ==> holds == (x > y)) && (op.Ge? ==> holds == (x >= y))
  {
    holds := Compares(op, x, y);
  }

  /** Truth values: only the lowest bit counts, and nothing else folds. */
  lemma {:induction false} TruthIsExact(op: Op, a: U64, b: U64)
    ensures var p, q := a % 2 == 1, b % 2 == 1;
            EvalBinary(op, BoolLane, a, b) ==
              match op
              case LogAnd => Some(if p && q then 1 else 0)
              case LogOr => Some(if p || q then 1 else 0)
              case Eq => Some(if p <==> q then 1 else 0)
              case Ne => Some(if p <==> q then 0 else 1)
              case _ => None
    ensures EvalUnary(op, BoolLane, a) == if op == LogNot then Some(if a % 2 == 1 then 0 else 1) else None
  {
    assert a % 2 == 0 || a % 2 == 1;
  }

  /** Reading a canonical pattern as a 64-bit integer of its signedness gives its value. */
  lemma {:induction false} CanonReads(k: IntKind, a: U64)
    requires IsKind(k)
    ensures if k.sgn then AsSigned64(IntCanon(a, k)) == Value(k, a) else IntCanon(a, k) == Value(k, a)
  {
    CanonIs(a, k);
    WrapInRange(k, a);
    HalfOf64();
    Pow2Of64();
    if k.sgn {
      Pow2Grows(k.width - 1, 63);
      CastBack(Value(k, a));
    } else {
      Pow2Grows(k.width, 64);
      DivModIs(Value(k, a), TWO64, 0, Value(k, a));
    }
  }

  // ----- bitwise operators -----

  function BitOp(op: Op, a: nat, b: nat): nat {
    if op.BitAnd? then And(a, b) else if op.BitOr? then Or(a, b) else Xor(a, b)
  }

  predicate BitAt(a: nat, n: nat) {
    if n == 0 then a % 2 == 1 else BitAt(a / 2, n - 1)
  }

  /** Each bit of the result comes from the same bits of the operands. */
  lemma {:induction false} BitwiseByBit(a: nat, b: nat, n: nat)
    ensures BitAt(And(a, b), n) <==> BitAt(a, n) && BitAt(b, n)
    ensures BitAt(Or(a, b), n) <==> BitAt(a, n) || BitAt(b, n)
    ensures BitAt(Xor(a, b), n) <==> (BitAt(a, n) != BitAt(b, n))
    decreases n
  {
    if n > 0 {
      BitwiseByBit(a / 2, b / 2, n - 1);
      ZeroBits(n);
      ZeroBits(n - 1);
    }
  }

  lemma {:induction false} ZeroBits(n: nat)
    ensures !BitAt(0, n)
  {
    if n > 0 {
      ZeroBits(n - 1);
    }
  }

  /** So the low bits of the result depend on the low bits alone. */
  lemma {:induction false} BitOpOfResidues(op: Op, a: nat, b: nat, w: nat)
    ensures BitOp(op, a, b) % Pow2(w) == BitOp(op, a % Pow2(w), b % Pow2(w)) % Pow2(w)
  {
    if w > 0 {
      BitOpOfResidues(op, a / 2, b / 2, w - 1);
      var m := Pow2(w - 1);
      HalfResidue(a, m);
      HalfResidue(b, m);
      HalfResidue(BitOp(op, a, b), m);
      var x, y := a % (2 * m), b % (2 * m);
      HalfResidue(BitOp(op, x, y), m);
      assert x / 2 == a / 2 % m && y / 2 == b / 2 % m;
      assert x % 2 == a % 2 && y % 2 == b % 2;
      BitOpHalf(op, a, b);
      BitOpHalf(op, x, y);
    }
  }

  lemma {:induction false} BitOpHalf(op: Op, a: nat, b: nat)
    ensures BitOp(op, a, b) / 2 == BitOp(op, a / 2, b / 2)
    ensures BitOp(op, a, b) % 2 == BitOp(op, a % 2, b % 2) % 2
  {
    assert And(0, 0) == Or(0, 0) == Xor(0, 0) == 0;
  }

  lemma {:induction false} BitwiseIsExact(op: Op, k: IntKind, a: U64, b: U64)
    requires IsKind(k) && (op.BitAnd? || op.BitOr? || op.BitXor?)
    ensures var m := Pow2(k.width); EvalInt(op, k, a, b) == Some(Cast(Wrap(k, BitOp(op, a % m, b % m))))
  {
    CanonOfCast(k, BitOp(op, a, b));
    BitOpOfResidues(op, a, b, k.width);
    WrapOfResidue(k, BitOp(op, a, b), BitOp(op, a % Pow2(k.width), b % Pow2(k.width)));
  }

  // ----- shifts, unary operators, conversions -----

  /** A shift folds exactly when the value of its amount is one SPIR-V defines. */
  lemma {:induction false} ShiftRefusesExactly(op: Op, k: IntKind, amount: IntKind, a: U64, b: U64)
    requires IsKind(k) && IsKind(amount)
    ensures var s := Value(amount, b);
            EvalShift(op, k, amount, a, b) == if 0 <= s < k.width then Some(ShiftBy(op, k, a, s)) else None
  {
    AmountReads(k, amount, b);
  }

  /** It is then exact: to the left modulo the width, to the right rounding down. */
  lemma {:induction false} ShiftByIsExact(op: Op, k: IntKind, a: U64, s: nat)
    requires IsKind(k)
    ensures ShiftBy(op, k, a, s) == if op.Shl? then Cast(Wrap(k, Value(k, a) * Pow2(s))) else Cast(Value(k, a) / Pow2(s))
  {
    if op.Shl? {
      ShiftedLeft(k, a, s);
    } else {
      ShiftedRight(k, a, s);
    }
  }

  /** How the evaluator reads the amount: as its value, or as one that is refused too. */
  lemma {:induction false} AmountReads(k: IntKind, amount: IntKind, b: U64)
    requires IsKind(k) && IsKind(amount)
    ensures var s := Amount(amount, b);
            if 0 <= Value(amount, b) < k.width then s == Value(amount, b) else s < 0 || s >= k.width
  {
    AndStays(b, WidthMask(amount.width));
    WrapInRange(amount, b);
    if amount.sgn {
      SignExtIs(b, amount.width);
    } else {
      MaskReads(amount, b);
    }
  }

  lemma {:induction false} ShiftedLeft(k: IntKind, a: U64, s: nat)
    requires IsKind(k)
    ensures IntCanon(Cast(a * Pow2(s)), k) == Cast(Wrap(k, Value(k, a) * Pow2(s)))
  {
    var m := Pow2(k.width);
    CanonOfCast(k, a * Pow2(s));
    WrapInRange(k, a);
    ResiduesMultiply(a, Pow2(s), m);
    ResiduesMultiply(Value(k, a), Pow2(s), m);
    WrapOfResidue(k, a * Pow2(s), Value(k, a) * Pow2(s));
  }

  lemma {:induction false} ShiftedRight(k: IntKind, a: U64, s: nat)
    requires IsKind(k)
    ensures InRange(k, Value(k, a) / Pow2(s))
    ensures k.sgn ==> IntCanon(Cast(SignExt(a, k.width) / Pow2(s)), k) == Cast(Value(k, a) / Pow2(s))
    ensures !k.sgn ==> IntCanon(Cast(And(a, WidthMask(k.width)) / Pow2(s)), k) == Cast(Value(k, a) / Pow2(s))
  {
    WrapInRange(k, a);
    QuotientRounds(Value(k, a), Pow2(s));
    CanonicalEncodesValue(k, Value(k, a) / Pow2(s));
    if k.sgn {
      SignExtIs(a, k.width);
    } else {
      MaskReads(k, a);
    }
  }

  lemma {:induction false} QuotientRounds(x: int, p: nat)
    requires p > 0
    ensures if x >= 0 then 0 <= x / p <= x else x <= x / p < 0
  {
    if x >= 0 {
      QuotientBounds(x, p);
    } else {
      NegativeQuotient(x, p, x / p, x % p);
    }
  }

  lemma {:induction false} NegativeQuotient(x: int, p: nat, d: int, r: int)
    requires p > 0 && x < 0 && x == d * p + r && 0 <= r < p
    ensures x <= d < 0
  {
    if d >= 0 {
      NotNegative(d, p);
    } else {
      var e := -d - 1;
      assert d * p == -(e * p) - p;
      AtLeastItself(e, p);
    }
  }

  lemma {:induction false} NotNegative(a: int, b: int)
    requires a >= 0 && b >= 0
    ensures a * b >= 0
  {
  }

  lemma {:induction false} AtLeastItself(e: int, p: nat)
    requires e >= 0 && p > 0
    ensures e * p >= e
  {
    SplitOne(p, e);
  }

  lemma {:induction false} UnaryIsExact(k: IntKind, a: U64)
    requires IsKind(k)
    ensures EvalUnary(Neg, IntLane(k), a) == Some(Cast(Wrap(k, -Value(k, a))))
    ensures EvalUnary(BitNot, IntLane(k), a) == Some(Cast(Wrap(k, -1 - Value(k, a))))
  {
    CanonOfCast(k, -(a as int));
    CanonOfCast(k, -1 - a);
    assert TWO64 - 1 - a == Cast(-1 - a) by { DivModIs(-1 - a, TWO64, -1, TWO64 - 1 - a); }
    NegativeWraps(k, 0, a);
    NegativeWraps(k, -1, a);
  }

  lemma {:induction false} NegativeWraps(k: IntKind, c: int, x: int)
    requires IsKind(k)
    ensures Wrap(k, c - x) == Wrap(k, c - Wrap(k, x))
  {
    WrapInRange(k, x);
    DifferencesAreCongruent(c, x, c, Wrap(k, x), Pow2(k.width));
    WrapOfResidue(k, c - x, c - Wrap(k, x));
  }

  /** Conversion re-encodes the value the source kind gives the bits. */
  lemma {:induction false} ConversionIsExact(bits: U64, from: IntKind, to: IntKind)
    requires IsKind(from) && IsKind(to)
    ensures ConvertBits(bits, from, to) == Cast(Wrap(to, Value(from, bits)))
  {
    CanonIs(bits, from);
    CanonOfCast(to, Value(from, bits));
  }

  /** Truth is one, and whatever is not zero is true. */
  lemma {:induction false} TruthConverts(k: IntKind, a: U64)
    requires IsKind(k)
    ensures EvalConvert(BoolLane, IntLane(k), a) == Some(if a % 2 == 1 then 1 else 0) && EvalConvert(BoolLane, BoolLane, a) == None
    ensures EvalConvert(IntLane(k), BoolLane, a) == Some(if Value(k, a) != 0 then 1 else 0)
  {
    CanonIs(a, k);
    WrapInRange(k, a);
    ZeroIsZero(k, Value(k, a));
  }

  lemma {:induction false} ZeroIsZero(k: IntKind, v: int)
    requires IsKind(k) && InRange(k, v)
    ensures Cast(v) == 0 <==> v == 0
  {
    Pow2Grows(k.width, 64);
    Pow2Grows(k.width - 1, 64);
    Pow2Of64();
    if v < 0 {
      DivModIs(v, TWO64, -1, v + TWO64);
    } else {
      DivModIs(v, TWO64, 0, v);
    }
  }

  // ----- what every fold keeps -----

  /** The exact result of an integer operator on values x and y whose low bits are u and v; none
      where it is undefined. */
  function ExactOf(op: Op, k: IntKind, x: int, y: int, u: nat, v: nat): Option<int>
    requires IsKind(k)
  {
    match op
    case Add => Some(Wrap(k, x + y))
    case Sub => Some(Wrap(k, x - y))
    case Mul => Some(Wrap(k, x * y))
    case Div => if DivisionUndefined(k, x, y) then None else Some(TruncDiv(x, y))
    case Rem => if DivisionUndefined(k, x, y) then None else Some(TruncRem(x, y))
    case BitAnd => Some(Wrap(k, And(u, v)))
    case BitOr => Some(Wrap(k, Or(u, v)))
    case BitXor => Some(Wrap(k, Xor(u, v)))
    case _ => None
  }

  function Exact(op: Op, k: IntKind, a: U64, b: U64): Option<int>
    requires IsKind(k)
  {
    ExactOf(op, k, Value(k, a), Value(k, b), a % Pow2(k.width), b % Pow2(k.width))
  }

  ghost predicate FoldsExactly(op: Op, k: IntKind, a: U64, b: U64)
    requires IsKind(k)
  {
    var v := Exact(op, k, a, b);
    && EvalInt(op, k, a, b) == (if v.Some? then Some(Cast(v.value)) else None)
    && (v.Some? ==> InRange(k, v.value))
  }

  /** Every integer fold is the exact result, encoded; it refuses only what is undefined. */
  lemma {:induction false} IntFoldsExactly(op: Op, k: IntKind, a: U64, b: U64)
    requires IsKind(k)
    ensures FoldsExactly(op, k, a, b)
  {
    if op.Add? || op.Sub? || op.Mul? {
      ArithmeticFolds(op, k, a, b);
    } else if op.Div? || op.Rem? {
      DivisionFolds(op, k, a, b);
    } else if op.BitAnd? || op.BitOr? || op.BitXor? {
      BitwiseFolds(op, k, a, b);
    } else {
      NothingElseFolds(op, k, a, b);
    }
  }

  lemma {:induction false} DivisionFolds(op: Op, k: IntKind, a: U64, b: U64)
    requires IsKind(k) && (op.Div? || op.Rem?)
    ensures FoldsExactly(op, k, a, b)
  {
    DivisionIsExact(k, a, b);
  }

  lemma {:induction false} NothingElseFolds(op: Op, k: IntKind, a: U64, b: U64)
    requires IsKind(k) && !op.Add? && !op.Sub? && !op.Mul? && !op.Div? && !op.Rem?
    requires !op.BitAnd? && !op.BitOr? && !op.BitXor?
    ensures FoldsExactly(op, k, a, b)
  {
  }

  lemma {:induction false} ArithmeticFolds(op: Op, k: IntKind, a: U64, b: U64)
    requires IsKind(k) && (op.Add? || op.Sub? || op.Mul?)
    ensures FoldsExactly(op, k, a, b)
  {
    if op.Mul? {
      ProductsAreExact(k, a, b);
    } else {
      SumsAreExact(k, a, b);
    }
    ArithmeticInRange(op, k, a, b);
  }

  lemma {:induction false} ArithmeticInRange(op: Op, k: IntKind, a: U64, b: U64)
    requires IsKind(k) && (op.Add? || op.Sub? || op.Mul?)
    ensures InRange(k, Exact(op, k, a, b).value)
  {
    var x, y := Value(k, a), Value(k, b);
    WrapInRange(k, if op.Add? then x + y else if op.Sub? then x - y else x * y);
  }

  lemma {:induction false} BitwiseFolds(op: Op, k: IntKind, a: U64, b: U64)
    requires IsKind(k) && (op.BitAnd? || op.BitOr? || op.BitXor?)
    ensures FoldsExactly(op, k, a, b)
  {
    BitwiseIsExact(op, k, a, b);
    WrapInRange(k, BitOp(op, a % Pow2(k.width), b % Pow2(k.width)));
  }

  /** Results are canonical: folding them again, or storing them, changes nothing. */
  lemma {:induction false} FoldsAreCanonical(op: Op, k: IntKind, a: U64, b: U64)
    requires IsKind(k)
    ensures EvalInt(op, k, a, b).Some? ==> IntCanon(EvalInt(op, k, a, b).value, k) == EvalInt(op, k, a, b).value
  {
    IntFoldsExactly(op, k, a, b);
    var v := Exact(op, k, a, b);
    if v.Some? {
      CanonicalEncodesValue(k, v.value);
    }
  }

  /** Bits above the width never matter. */
  lemma {:induction false} HighBitsAreIgnored(op: Op, k: IntKind, a: U64, b: U64, a': U64, b': U64)
    requires IsKind(k) && a % Pow2(k.width) == a' % Pow2(k.width) && b % Pow2(k.width) == b' % Pow2(k.width)
    ensures EvalBinary(op, IntLane(k), a, b) == EvalBinary(op, IntLane(k), a', b')
  {
    if IsCompare(op) {
      WrapOfResidue(k, a, a');
      WrapOfResidue(k, b, b');
      CompareReads(op, k, a, b);
      CompareReads(op, k, a', b');
    } else {
      IntFoldsExactly(op, k, a, b);
      IntFoldsExactly(op, k, a', b');
      ExactIgnoresHighBits(op, k, a, b, a', b');
    }
  }

  lemma {:induction false} ExactIgnoresHighBits(op: Op, k: IntKind, a: U64, b: U64, a': U64, b': U64)
    requires IsKind(k) && a % Pow2(k.width) == a' % Pow2(k.width) && b % Pow2(k.width) == b' % Pow2(k.width)
    ensures Exact(op, k, a, b) == Exact(op, k, a', b')
  {
    WrapOfResidue(k, a, a');
    WrapOfResidue(k, b, b');
  }

  /** A mirrored compare, or a commutative operator, folds the same with its operands swapped. */
  lemma {:induction false} SwappedFoldsTheSame(op: Op, l: Lane, a: U64, b: U64)
    requires IsLane(l) && (IsCompare(op) || IsCommutative(op))
    ensures EvalBinary(Mirror(op), l, b, a) == EvalBinary(op, l, a, b)
  {
    if IsCompare(op) {
      SwappedCompares(op, l, a, b);
    } else if l.IntLane? {
      SwappedIntFolds(op, l.kind, a, b);
    }
  }

  /** Of the operators that fold integers, the commutative ones are exactly those whose folds do not
      depend on the order of the operands. */
  lemma {:induction false} CommutesExactly(op: Op, k: IntKind)
    requires IsKind(k)
    requires op in {Add, Sub, Mul, Div, Rem, BitAnd, BitOr, BitXor, Eq, Ne, Lt, Le, Gt, Ge}
    ensures IsCommutative(op) <==> forall a: U64, b: U64 :: EvalBinary(op, IntLane(k), b, a) == EvalBinary(op, IntLane(k), a, b)
  {
    if IsCommutative(op) {
      forall a: U64, b: U64
        ensures EvalBinary(op, IntLane(k), b, a) == EvalBinary(op, IntLane(k), a, b)
      {
        SwappedFoldsTheSame(op, IntLane(k), a, b);
      }
    } else {
      SmallValues(k);
      if IsCompare(op) {
        CompareReads(op, k, 1, 2);
        CompareReads(op, k, 2, 1);
      } else {
        OneAndTwo(op, k);
      }
      assert EvalBinary(op, IntLane(k), 2, 1) != EvalBinary(op, IntLane(k), 1, 2);
    }
  }

  lemma {:induction false} SmallValues(k: IntKind)
    requires IsKind(k)
    ensures Value(k, 1) == 1 && Value(k, 2) == 2 && InRange(k, 1)
  {
    Pow2Grows(6, k.width - 1);
    assert Pow2(6) == 64;
    DivModIs(1, Pow2(k.width), 0, 1);
    DivModIs(2, Pow2(k.width), 0, 2);
  }

  lemma {:induction false} OneAndTwo(op: Op, k: IntKind)
    requires IsKind(k) && (op.Sub? || op.Div? || op.Rem?)
    ensures EvalInt(op, k, 2, 1) != EvalInt(op, k, 1, 2)
  {
    SmallValues(k);
    if op.Sub? {
      SumsAreExact(k, 2, 1);
      SumsAreExact(k, 1, 2);
      EncodesOne(k);
    } else {
      DivideOneAndTwo(op, k);
    }
  }

  lemma {:induction false} DivideOneAndTwo(op: Op, k: IntKind)
    requires IsKind(k) && (op.Div? || op.Rem?)
    ensures EvalInt(op, k, 2, 1) == Some(if op.Div? then 2 else 0)
    ensures EvalInt(op, k, 1, 2) == Some(if op.Div? then 0 else 1)
  {
    SmallValues(k);
    DivisionIsExact(k, 2, 1);
    DivisionIsExact(k, 1, 2);
    SmallQuotients();
  }

  lemma {:induction false} SmallQuotients()
    ensures Cast(TruncDiv(2, 1)) == 2 && Cast(TruncDiv(1, 2)) == 0 && Cast(TruncRem(2, 1)) == 0 && Cast(TruncRem(1, 2)) == 1
  {
    assert TruncDiv(2, 1) == 2 && TruncDiv(1, 2) == 0;
  }

  lemma {:induction false} EncodesOne(k: IntKind)
    requires IsKind(k)
    ensures Cast(Wrap(k, 1)) != Cast(Wrap(k, -1))
  {
    var m := Pow2(k.width);
    SmallValues(k);
    Pow2Grows(6, k.width);
    assert Pow2(6) == 64;
    DivModIs(-1, m, -1, m - 1);
    Pow2Grows(k.width, 64);
    Pow2Of64();
    NotOne(if k.sgn && m - 1 >= Pow2(k.width - 1) then -1 else m - 1);
  }

  lemma {:induction false} NotOne(v: int)
    requires v == -1 || 2 <= v < TWO64
    ensures Cast(v) != 1 && Cast(1) == 1
  {
    assert Cast(-1) == TWO64 - 1;
  }

  lemma {:induction false} SwappedCompares(op: Op, l: Lane, a: U64, b: U64)
    requires IsLane(l) && IsCompare(op)
    ensures EvalCompare(Mirror(op), l, b, a) == EvalCompare(op, l, a, b)
  {
    forall x: int, y: int
      ensures Compares(Mirror(op), y, x) == Compares(op, x, y)
    {
    }
  }

  lemma {:induction false} SwappedIntFolds(op: Op, k: IntKind, a: U64, b: U64)
    requires IsKind(k) && IsCommutative(op) && !IsCompare(op)
    ensures EvalInt(op, k, b, a) == EvalInt(op, k, a, b)
  {
    BitOpsCommute(a, b);
  }

  lemma {:induction false} BitOpsCommute(a: nat, b: nat)
    ensures And(a, b) == And(b, a) && Or(a, b) == Or(b, a) && Xor(a, b) == Xor(b, a)
    decreases a + b
  {
    if a > 0 || b > 0 {
      BitOpsCommute(a / 2, b / 2);
    }
  }
}
