/** Instructions as the body emitter of the WGSL back end sees them. */
module WgslView {
  import opened Ir
  import opened StraightLine

  // ----- instructions as the emitter classifies them -----

  /** What the types of an instruction decide: a select over whole aggregates and a barrier or clip
      are written as statements; an intrinsic without a result has an effect. */
  datatype Facts = Facts(aggregate: bool, statement: bool, void: bool)

  function KindOf(inst: Inst, t: Facts): Kind {
    match inst.op
    case Const | SpecConst | Undef | Var => Fixed
    case Ptr | Chain => Path
    case Load | Tex | ImageLoad => Read
    case Add | Sub | Mul | Div | Rem | Neg | BitNot | LogNot | BitAnd | BitOr | BitXor | Shl | Shr
       | Eq | Ne | Lt | Le | Gt | Ge | LogAnd | LogOr | Convert | MatMul
       | Construct | Extract | Shuffle | ExtractDynamic | BitfieldExtract | BitfieldInsert => Pure
    case Select => if t.aggregate then Statement else Pure
    case Intrinsic => if t.statement then Statement else Pure
    case _ => Statement
  }

  /** Observable: a marker, a write, or an intrinsic that yields nothing. */
  predicate HasEffect(inst: Inst, t: Facts) {
    IsMarker(inst.op) ||
    inst.op.Store? || inst.op.ImageStore? || inst.op.ImageAtomic? || inst.op.Atomic? || inst.op.SpirvAsm? ||
    (inst.op.Intrinsic? && t.void)
  }

  // A compare-exchange prints an operand more than once.
  function Weight(inst: Inst): nat { if inst.op.Atomic? then 2 else 1 }

  /** The value operands among the first a args. */
  function ArgsTo(f: Func, i: nat, a: nat): seq<nat>
    requires i < |f.insts| && a <= 4
  {
    if a == 0 then []
    else ArgsTo(f, i, a - 1) +
         if a - 1 in ValueArgMask(f.insts[i]) && f.insts[i].args[a - 1] < |f.insts| then [f.insts[i].args[a - 1]] else []
  }

  lemma {:induction false} NextArg(f: Func, i: nat, a: nat)
    requires i < |f.insts| && a < 4
    ensures ArgsTo(f, i, a + 1) == if a in ValueArgMask(f.insts[i]) && f.insts[i].args[a] < |f.insts|
                                   then ArgsTo(f, i, a) + [f.insts[i].args[a]] else ArgsTo(f, i, a)
  {
  }

  /** Those among the first k entries of the aux list. */
  function AuxTo(f: Func, i: nat, k: nat): seq<nat>
    requires i < |f.insts| && k <= f.insts[i].auxCount && AuxInPool(f, f.insts[i])
  {
    if k == 0 then []
    else
      var v := f.aux[f.insts[i].aux + k - 1];
      AuxTo(f, i, k - 1) + if v < |f.insts| then [v] else []
  }

  /** All of them, in the order they are counted. */
  function OperandsOf(f: Func, i: nat): seq<nat>
    requires i < |f.insts| && AuxInPool(f, f.insts[i])
  {
    ArgsTo(f, i, 4) + if AuxHoldsValues(f.insts[i].op) then AuxTo(f, i, f.insts[i].auxCount) else []
  }

  ghost predicate ListsInPool(f: Func) {
    forall i :: 0 <= i < |f.insts| ==> AuxInPool(f, f.insts[i])
  }

  function View(f: Func, facts: seq<Facts>): (p: Program)
    requires |facts| == |f.insts| && ListsInPool(f)
    ensures p.Count() == |f.insts|
    ensures forall i {:trigger p.items[i]} :: 0 <= i < |f.insts| ==>
              p.items[i] == Item(KindOf(f.insts[i], facts[i]), HasEffect(f.insts[i], facts[i]), OperandsOf(f, i), Weight(f.insts[i]))
  {
    Program(seq(|f.insts|, i requires 0 <= i < |f.insts| =>
      Item(KindOf(f.insts[i], facts[i]), HasEffect(f.insts[i], facts[i]), OperandsOf(f, i), Weight(f.insts[i]))))
  }

  /** No instruction has x as an operand. */
  ghost predicate HasNoUser(f: Func, x: nat) {
    forall i {:trigger IsOperand(f, f.insts[i], x)} :: 0 <= i < |f.insts| ==> !IsOperand(f, f.insts[i], x)
  }

  /** Code in operand order, where what an intrinsic without a result yields is not used. */
  ghost predicate IsOrdered(f: Func, facts: seq<Facts>) {
    && |facts| == |f.insts| && ListsInPool(f)
    && forall i {:trigger OrderedAt(f, facts, i)} :: 0 <= i < |f.insts| ==> OrderedAt(f, facts, i)
  }

  /** Straight-line code. */
  predicate NoMarkers(f: Func) {
    forall i :: 0 <= i < |f.insts| ==> !IsMarker(f.insts[i].op)
  }

  ghost predicate OrderedAt(f: Func, facts: seq<Facts>, i: nat)
    requires i < |f.insts| == |facts|
  {
    && (f.insts[i].op.Intrinsic? && facts[i].void ==> HasNoUser(f, i))
    && forall x: nat {:trigger IsOperand(f, f.insts[i], x)} :: IsOperand(f, f.insts[i], x) && x < |f.insts| ==> x < i
  }

  lemma {:induction false} ArgIsOperand(f: Func, i: nat, a: nat, k: nat)
    requires i < |f.insts| && a <= 4 && k < |ArgsTo(f, i, a)|
    ensures IsOperand(f, f.insts[i], ArgsTo(f, i, a)[k]) && ArgsTo(f, i, a)[k] < |f.insts|
  {
    if k < |ArgsTo(f, i, a - 1)| {
      ArgIsOperand(f, i, a - 1, k);
    }
  }

  lemma {:induction false} AuxIsOperand(f: Func, i: nat, n: nat, k: nat)
    requires i < |f.insts| && n <= f.insts[i].auxCount && AuxInPool(f, f.insts[i]) && AuxHoldsValues(f.insts[i].op)
    requires k < |AuxTo(f, i, n)|
    ensures IsOperand(f, f.insts[i], AuxTo(f, i, n)[k]) && AuxTo(f, i, n)[k] < |f.insts|
  {
    if k < |AuxTo(f, i, n - 1)| {
      AuxIsOperand(f, i, n - 1, k);
    } else {
      assert f.aux[f.insts[i].aux + n - 1] == AuxTo(f, i, n)[k];
    }
  }

  lemma {:induction false} FixedHasNone(f: Func, i: nat, t: Facts)
    requires i < |f.insts| && KindOf(f.insts[i], t).Fixed? && AuxInPool(f, f.insts[i])
    ensures OperandsOf(f, i) == []
  {
    assert ArgsTo(f, i, 0) == [] == ArgsTo(f, i, 1);
    assert ArgsTo(f, i, 2) == [] == ArgsTo(f, i, 3);
  }

  lemma {:induction false} EffectsAreStatements(inst: Inst, t: Facts)
    requires HasEffect(inst, t)
    ensures KindOf(inst, t).Statement? || (KindOf(inst, t).Pure? && inst.op.Intrinsic? && t.void)
  {
  }

  lemma {:induction false} NoUserIsUnused(f: Func, facts: seq<Facts>, x: nat)
    requires |facts| == |f.insts| && ListsInPool(f) && HasNoUser(f, x)
    ensures View(f, facts).Unused(x)
  {
    var p := View(f, facts);
    forall j | 0 <= j < p.Count()
      ensures x !in p.items[j].operands
    {
      assert p.items[j].operands == OperandsOf(f, j);
      assert !IsOperand(f, f.insts[j], x);
      if k :| 0 <= k < |OperandsOf(f, j)| && OperandsOf(f, j)[k] == x {
        OperandIsOperand(f, j, k);
      }
    }
  }

  lemma {:induction false} OperandIsOperand(f: Func, i: nat, k: nat)
    requires i < |f.insts| && AuxInPool(f, f.insts[i]) && k < |OperandsOf(f, i)|
    ensures IsOperand(f, f.insts[i], OperandsOf(f, i)[k]) && OperandsOf(f, i)[k] < |f.insts|
  {
    var n := |ArgsTo(f, i, 4)|;
    if k < n { ArgIsOperand(f, i, 4, k); } else { AuxIsOperand(f, i, f.insts[i].auxCount, k - n); }
  }

  lemma {:induction false} ViewIsValid(f: Func, facts: seq<Facts>)
    requires IsOrdered(f, facts)
    ensures View(f, facts).Valid()
  {
    var p := View(f, facts);
    forall i | 0 <= i < p.Count()
      ensures p.ItemOk(i)
    {
      assert OrderedAt(f, facts, i);
      if p.items[i].effect {
        EffectsAreStatements(f.insts[i], facts[i]);
        if !p.items[i].kind.Statement? { NoUserIsUnused(f, facts, i); }
      }
      if p.items[i].kind.Fixed? { FixedHasNone(f, i, facts[i]); }
      forall k | 0 <= k < |OperandsOf(f, i)|
        ensures OperandsOf(f, i)[k] < i
      {
        OperandIsOperand(f, i, k);
      }
    }
  }
}
