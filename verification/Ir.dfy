/** The flat intermediate representation: instructions named by their index, operands that
    are such indices, and structured control flow bracketed by marker instructions. */
module Ir {

  datatype Option<T> = None | Some(value: T)

  // "No instruction": the all-ones 32-bit id.
  const NONE: nat := 0xFFFF_FFFF

  datatype Op =
    | Nop
    | Const | SpecConst | Undef
    | Var | Ptr | Chain | Load | Store
    | Construct | Extract | Insert | Shuffle | ExtractDynamic
    | Add | Sub | Mul | Div | Rem | Neg | BitNot | LogNot
    | BitAnd | BitOr | BitXor | Shl | Shr
    | Eq | Ne | Lt | Le | Gt | Ge | LogAnd | LogOr
    | Select | Convert | MatMul
    | Intrinsic | Tex | ImageLoad | ImageStore | ImageAtomic | Atomic | SpirvAsm
    | BitfieldExtract | BitfieldInsert
    | If | Else | EndIf | Loop | LoopContinue | EndLoop | Break | Continue
    | Switch | Case | EndSwitch | Return | Discard | Demote

  /** One instruction. `typ` is NONE when it yields no value. */
  datatype RawInst = Inst(op: Op, typ: nat, args: seq<nat>, aux: nat, auxCount: nat)

  type Inst = i: RawInst | |i.args| == 4 witness RawInst.Inst(Nop, NONE, [0, 0, 0, 0], 0, 0)

  /** A function: its instructions and the pool of operand lists they index into. */
  datatype Func = Func(insts: seq<Inst>, aux: seq<nat>)

  // ----- operand layout -----

  /** The positions of args[] that hold value ids, as the set of the mask's bits. */
  function ArgMask(op: Op): set<nat> {
    match op
    case Chain | Load | Extract | Shuffle | Neg | BitNot | LogNot | Convert | If | Switch => {0}
    case Store | ExtractDynamic | Add | Sub | Mul | Div | Rem | BitAnd | BitOr | BitXor
       | Shl | Shr | Eq | Ne | Lt | Le | Gt | Ge | LogAnd | LogOr | MatMul => {0, 1}
    case Insert => {0, 2}
    case BitfieldExtract | Select => {0, 1, 2}
    case BitfieldInsert => {0, 1, 2, 3}
    case ImageLoad => {1}
    case ImageStore | ImageAtomic => {1, 2}
    case _ => {}
  }

  /** As ArgMask, with the two ops whose layout depends on the instruction itself. */
  function ValueArgMask(inst: Inst): set<nat> {
    match inst.op
    case Atomic => if inst.args[3] % 0x100 == 8 then {0, 1, 2} else {0, 1}
    case EndLoop => if inst.args[0] != NONE then {0} else {}
    case _ => ArgMask(inst.op)
  }

  /** Whether the aux list holds value ids rather than literals. */
  predicate AuxHoldsValues(op: Op) {
    op.Chain? || op.Construct? || op.Intrinsic? || op.Tex? || op.SpirvAsm?
  }

  /** Structured control flow: ends a straight-line run. */
  predicate IsMarker(op: Op) {
    Opens(op) || Splits(op) || Closes(op) || op.Break? || op.Continue? ||
    op.Return? || op.Discard? || op.Demote?
  }

  // A marker opens a construct, starts its next arm, or closes it.
  predicate Opens(op: Op) { op.If? || op.Loop? || op.Switch? }
  predicate Splits(op: Op) { op.Else? || op.LoopContinue? || op.Case? }
  predicate Closes(op: Op) { op.EndIf? || op.EndLoop? || op.EndSwitch? }

  /** The aux entries an instruction owns, when they lie inside the pool. */
  predicate AuxInPool(f: Func, inst: Inst) {
    inst.auxCount > 0 ==> inst.aux + inst.auxCount <= |f.aux|
  }

  /** x is a value operand of `inst`, through args[] or through its aux list. */
  predicate IsOperand(f: Func, inst: Inst, x: nat) {
    (exists a :: a in ValueArgMask(inst) && a < 4 && inst.args[a] == x) ||
    (AuxHoldsValues(inst.op) &&
     exists k :: inst.aux <= k < inst.aux + inst.auxCount && k < |f.aux| && f.aux[k] == x)
  }
}
