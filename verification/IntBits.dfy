/** 64-bit patterns, and what their low bits mean. */
module IntBits {
  import opened Residues

  const TWO64: nat := 0x1_0000_0000_0000_0000

  type U64 = x: nat | x < TWO64

  /** Conversion to uint64_t. */
  function Cast(x: int): U64 { x % TWO64 }

  /** The same bits as an int64_t. */
  function AsSigned64(u: U64): int { if u >= 0x8000_0000_0000_0000 then u - TWO64 else u }

  // ----- bitwise operators -----

  function And(a: nat, b: nat): nat {
    if a == 0 || b == 0 then 0 else 2 * And(a / 2, b / 2) + (if a % 2 == 1 && b % 2 == 1 then 1 else 0)
  }

  function Or(a: nat, b: nat): nat
    decreases a + b
  {
    if a == 0 && b == 0 then 0 else 2 * Or(a / 2, b / 2) + (if a % 2 == 1 || b % 2 == 1 then 1 else 0)
  }

  function Xor(a: nat, b: nat): nat
    decreases a + b
  {
    if a == 0 && b == 0 then 0 else 2 * Xor(a / 2, b / 2) + (if a % 2 != b % 2 then 1 else 0)
  }

  // ----- the encoding of integers -----

  /** An integer type: its bits, and whether it is signed. */
  datatype IntKind = IntKind(width: nat, sgn: bool)

  predicate IsKind(k: IntKind) {
    k.width == 8 || k.width == 16 || k.width == 32 || k.width == 64
  }

  function WidthMask(w: nat): U64
    requires 1 <= w <= 64
  {
    Pow2Grows(w, 64);
    Pow2Of64();
    Pow2(w) - 1
  }

  function SignExt(bits: U64, w: nat): int
    requires 1 <= w <= 64
  {
    if w >= 64 then AsSigned64(bits)
    else
      var m, v := Pow2(w - 1), And(bits, WidthMask(w));
      AsSigned64(Cast(Xor(v, m) as int - m as int))
  }

  function IntCanon(bits: U64, k: IntKind): U64
    requires IsKind(k)
  {
    if k.sgn then Cast(SignExt(bits, k.width))
    else
      AndStays(bits, WidthMask(k.width));
      And(bits, WidthMask(k.width))
  }

  // ----- meaning -----

  /** The integer of kind k that is congruent to v. */
  function Wrap(k: IntKind, v: int): int {
    var u := v % Pow2(k.width);
    if k.sgn && k.width > 0 && u >= Pow2(k.width - 1) then u - Pow2(k.width) else u
  }

  /** What the low bits of a pattern mean. */
  function Value(k: IntKind, bits: U64): int {
    Wrap(k, bits)
  }

  function Least(k: IntKind): int
    requires IsKind(k)
  {
    if k.sgn then -(Pow2(k.width - 1) as int) else 0
  }

  function Greatest(k: IntKind): int
    requires IsKind(k)
  {
    if k.sgn then Pow2(k.width - 1) - 1 else Pow2(k.width) - 1
  }

  predicate InRange(k: IntKind, v: int)
    requires IsKind(k)
  {
    Least(k) <= v <= Greatest(k)
  }

  // ----- facts -----

  lemma {:induction false} Pow2Of64()
    ensures Pow2(64) == TWO64
  {
    assert Pow2(8) == 0x100;
    Pow2Sum(8, 8);
    Pow2Sum(16, 16);
    Pow2Sum(32, 32);
  }

  lemma {:induction false} AndStays(a: nat, b: nat)
    ensures And(a, b) <= a && And(a, b) <= b
  {
    if a != 0 && b != 0 {
      AndStays(a / 2, b / 2);
    }
  }

  /** Masking keeps the low bits. */
  lemma {:induction false} AndMask(a: nat, w: nat)
    ensures And(a, Pow2(w) - 1) == a % Pow2(w)
  {
    if w > 0 {
      AndMask(a / 2, w - 1);
      AndHalves(a, Pow2(w - 1));
      HalfResidue(a, Pow2(w - 1));
    }
  }

  /** One bit of a mask. */
  lemma {:induction false} AndHalves(a: nat, m: nat)
    requires m > 0
    ensures And(a, 2 * m - 1) == 2 * And(a / 2, m - 1) + a % 2
  {
    assert (2 * m - 1) / 2 == m - 1 && (2 * m - 1) % 2 == 1;
  }

  lemma {:induction false} HalfResidue(a: nat, m: nat)
    requires m > 0
    ensures a % (2 * m) == 2 * (a / 2 % m) + a % 2
  {
    var q, r := a / 2 / m, a / 2 % m;
    assert a / 2 == q * m + r;
    assert a == q * (2 * m) + (2 * r + a % 2) by {
      assert a == 2 * (a / 2) + a % 2;
      assert 2 * (q * m) == q * (2 * m);
    }
    DivModIs(a, 2 * m, q, 2 * r + a % 2);
  }

  /** Flipping the top bit moves by half the range. */
  lemma {:induction false} XorTop(v: nat, n: nat)
    requires v < 2 * Pow2(n)
    ensures Xor(v, Pow2(n)) == if v >= Pow2(n) then v - Pow2(n) else v + Pow2(n)
  {
    if n == 0 {
      assert Xor(0, 0) == 0;
      assert Xor(v, 1) == 2 * Xor(0, 0) + if v == 0 then 1 else 0;
    } else {
      XorTop(v / 2, n - 1);
    }
  }

  lemma {:induction false} CastBack(x: int)
    requires -0x8000_0000_0000_0000 <= x < 0x8000_0000_0000_0000
    ensures AsSigned64(Cast(x)) == x
  {
    if x < 0 {
      DivModIs(x, TWO64, -1, x + TWO64);
    } else {
      DivModIs(x, TWO64, 0, x);
    }
  }

  lemma {:induction false} SignExtIs(bits: U64, w: nat)
    requires 1 <= w <= 64
    ensures SignExt(bits, w) == Wrap(IntKind(w, true), bits)
  {
    Pow2Of64();
    assert Pow2(64) == 2 * Pow2(63);
    if w == 64 {
      DivModIs(bits, TWO64, 0, bits);
    } else {
      NarrowSignExtIs(bits, w);
    }
  }

  lemma {:induction false} NarrowSignExtIs(bits: U64, w: nat)
    requires 1 <= w < 64
    ensures SignExt(bits, w) == Wrap(IntKind(w, true), bits)
  {
    HalfOf64();
    Pow2Grows(w, 63);
    UnsignedCanonIs(bits, w);
    NarrowSignExt(And(bits, WidthMask(w)), w);
  }

  lemma {:induction false} HalfOf64()
    ensures Pow2(63) == 0x8000_0000_0000_0000
  {
    Pow2Of64();
    assert Pow2(64) == 2 * Pow2(63);
  }

  lemma {:induction false} NarrowSignExt(v: nat, w: nat)
    requires 1 <= w && v < Pow2(w) <= 0x8000_0000_0000_0000
    ensures AsSigned64(Cast(Xor(v, Pow2(w - 1)) as int - Pow2(w - 1) as int)) == if v >= Pow2(w - 1) then v - Pow2(w) else v
  {
    XorTop(v, w - 1);
    CastBack(if v >= Pow2(w - 1) then v - Pow2(w) else v);
  }

  /** The canonical encoding of a pattern is that of the value its low bits mean. */
  lemma {:induction false} CanonIs(bits: U64, k: IntKind)
    requires IsKind(k)
    ensures IntCanon(bits, k) == Cast(Value(k, bits))
  {
    if k.sgn {
      SignExtIs(bits, k.width);
    } else {
      UnsignedCanonIs(bits, k.width);
    }
  }

  lemma {:induction false} UnsignedCanonIs(bits: U64, w: nat)
    requires 1 <= w <= 64
    ensures And(bits, WidthMask(w)) == bits % Pow2(w) == Cast(bits % Pow2(w))
  {
    AndMask(bits, w);
    Pow2Of64();
    Pow2Grows(w, 64);
    ResidueInRange(bits % Pow2(w), TWO64);
  }

  /** 64-bit wrap-around does not reach the low bits. */
  lemma {:induction false} CastKeepsLowBits(k: IntKind, v: int)
    requires IsKind(k)
    ensures Cast(v) % Pow2(k.width) == v % Pow2(k.width)
    ensures Value(k, Cast(v)) == Wrap(k, v)
  {
    Pow2Of64();
    Pow2Sum(k.width, 64 - k.width);
    ResidueOfResidue(v, Pow2(k.width), Pow2(64 - k.width));
  }

  lemma {:induction false} WrapInRange(k: IntKind, v: int)
    requires IsKind(k)
    ensures InRange(k, Wrap(k, v)) && Wrap(k, v) % Pow2(k.width) == v % Pow2(k.width)
    ensures InRange(k, v) ==> Wrap(k, v) == v
  {
    var m := Pow2(k.width);
    assert m == 2 * Pow2(k.width - 1);
    LowOrHigh(v, m);
    if InRange(k, v) {
      ResidueInRange(v, m);
    }
  }

  /** Both a residue and the residue less the modulus are congruent to the number. */
  lemma {:induction false} LowOrHigh(v: int, m: int)
    requires m > 0
    ensures 0 <= v % m < m && v % m % m == v % m && (v % m - m) % m == v % m
  {
    DivModIs(v % m, m, 0, v % m);
    SameResidue(v % m - m, v % m, m, -1);
  }

  lemma {:induction false} ResidueInRange(v: int, m: int)
    requires m > 0
    ensures 0 <= v < m ==> v % m == v
    ensures -m <= v < 0 ==> v % m == v + m
  {
    if 0 <= v < m {
      DivModIs(v, m, 0, v);
    } else if -m <= v < 0 {
      DivModIs(v, m, -1, v + m);
    }
  }

  lemma {:induction false} WrapOfResidue(k: IntKind, u: int, v: int)
    requires IsKind(k) && u % Pow2(k.width) == v % Pow2(k.width)
    ensures Wrap(k, u) == Wrap(k, v)
  {
  }

  /** A canonical pattern is one that re-encodes to itself: the encoding of a value in range. */
  lemma {:induction false} CanonicalEncodesValue(k: IntKind, v: int)
    requires IsKind(k) && InRange(k, v)
    ensures IntCanon(Cast(v), k) == Cast(v) && Value(k, Cast(v)) == v
  {
    CanonIs(Cast(v), k);
    CastKeepsLowBits(k, v);
    WrapInRange(k, v);
  }
}
