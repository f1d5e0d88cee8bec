/** What each instruction computes, what it does to memory, and where it sends control: opcode by
    opcode, with its operands named as the instruction set names them. */
module Semantics {
  import opened Ir

  type Value(!new)
  type Memory(!new)    // everything reads can see and writes can change, output included

  /** A machine: what its operations do, whatever values and memory are. */
  datatype World = World(
    unset: Value,                                             // of a value that was not computed
    constant: (nat, nat, nat) -> Value,                       // type, low and high bits
    special: (nat, nat) -> Value,
    undefined: nat -> Value,
    global: (nat, nat, nat) -> Value,                         // a pointer to global storage
    element: (nat, Value, seq<Value>) -> Value,               // a pointer into what another points to
    read: (nat, Memory, Value) -> Value,
    write: (Memory, Value, Value) -> Memory,
    compose: (nat, seq<Value>) -> Value,
    part: (nat, Value, nat) -> Value,
    partAt: (nat, Value, Value) -> Value,
    replacePart: (nat, Value, nat, Value) -> Value,
    lanes: (nat, Value, nat, nat) -> Value,
    unary: (Op, nat, Value) -> Value,
    binary: (Op, nat, Value, Value) -> Value,
    choose: (nat, Value, Value, Value) -> Value,
    bits: (nat, Value, Value, Value) -> Value,                // of a value, from an offset, so many
    replaceBits: (nat, Value, Value, Value, Value) -> Value,
    intrinsic: (nat, nat, seq<Value>) -> Value,
    isVoid: nat -> bool,                                      // of types
    barrier: (nat, seq<Value>, Memory) -> Memory,
    sample: (nat, seq<nat>, seq<Value>, Memory) -> Value,
    texel: (nat, nat, Value, Memory) -> Value,
    writeTexel: (nat, Value, Value, Memory) -> Memory,
    oldTexel: (nat, nat, Value, Value, nat, Memory) -> Value,
    updateTexel: (nat, Value, Value, nat, Memory) -> Memory,
    oldWord: (nat, Value, Value, Option<Value>, nat, Memory) -> Value,
    updateWord: (Value, Value, Option<Value>, nat, Memory) -> Memory,
    embedded: (nat, nat, seq<Value>, Memory) -> Value,        // inline assembly
    afterEmbedded: (nat, seq<Value>, Memory) -> Memory,
    demoted: Memory -> Memory,
    isTrue: Value -> bool,
    pattern: Value -> nat)                                    // the bits of an integer

  /** The values of a list. */
  ghost function Each(list: seq<nat>, get: nat -> Value): (vs: seq<Value>)
    ensures |vs| == |list| && forall k :: 0 <= k < |list| ==> vs[k] == get(list[k])
  {
    seq(|list|, k requires 0 <= k < |list| => get(list[k]))
  }

  /** An atomic compares when its low byte says so. */
  ghost function Expected(inst: Inst, get: nat -> Value): Option<Value> {
    if inst.args[3] % 0x100 == 8 then Some(get(inst.args[2])) else None
  }

  predicate Yields(inst: Inst) {
    inst.typ != NONE && !inst.op.Nop?
  }

  /** The value an instruction computes: `get` gives those of other instructions, `list` is its list,
      `home` where its variable lives if it declares one. */
  ghost function ResultOf(w: World, inst: Inst, list: seq<nat>, home: Value, get: nat -> Value, m: Memory): Value {
    var op, typ, args := inst.op, inst.typ, inst.args;
    match op
    case Const => w.constant(typ, args[0], args[1])
    case SpecConst => w.special(typ, args[0])
    case Undef => w.undefined(typ)
    case Var => home
    case Ptr => w.global(args[0], args[1], args[2])
    case Chain => w.element(typ, get(args[0]), Each(list, get))
    case Load => w.read(typ, m, get(args[0]))
    case Construct => w.compose(typ, Each(list, get))
    case Extract => w.part(typ, get(args[0]), args[1])
    case Insert => w.replacePart(typ, get(args[0]), args[1], get(args[2]))
    case Shuffle => w.lanes(typ, get(args[0]), args[1], args[2])
    case ExtractDynamic => w.partAt(typ, get(args[0]), get(args[1]))
    case Neg | BitNot | LogNot | Convert => w.unary(op, typ, get(args[0]))
    case Add | Sub | Mul | Div | Rem | BitAnd | BitOr | BitXor | Shl | Shr
       | Eq | Ne | Lt | Le | Gt | Ge | LogAnd | LogOr | MatMul => w.binary(op, typ, get(args[0]), get(args[1]))
    case Select => w.choose(typ, get(args[0]), get(args[1]), get(args[2]))
    case BitfieldExtract => w.bits(typ, get(args[0]), get(args[1]), get(args[2]))
    case BitfieldInsert => w.replaceBits(typ, get(args[0]), get(args[1]), get(args[2]), get(args[3]))
    case Intrinsic => w.intrinsic(typ, args[0], Each(list, get))
    case Tex => w.sample(typ, args, Each(list, get), m)
    case ImageLoad => w.texel(typ, args[0], get(args[1]), m)
    case ImageAtomic => w.oldTexel(typ, args[0], get(args[1]), get(args[2]), args[3], m)
    case Atomic => w.oldWord(typ, get(args[0]), get(args[1]), Expected(inst, get), args[3], m)
    case SpirvAsm => w.embedded(typ, args[0], Each(list, get), m)
    case _ => w.unset
  }

  /** What it leaves in memory. */
  ghost function MemoryAfter(w: World, inst: Inst, list: seq<nat>, get: nat -> Value, m: Memory): Memory {
    var op, typ, args := inst.op, inst.typ, inst.args;
    match op
    case Store => w.write(m, get(args[0]), get(args[1]))
    case ImageStore => w.writeTexel(args[0], get(args[1]), get(args[2]), m)
    case ImageAtomic => w.updateTexel(args[0], get(args[1]), get(args[2]), args[3], m)
    case Atomic => w.updateWord(get(args[0]), get(args[1]), Expected(inst, get), args[3], m)
    case SpirvAsm => w.afterEmbedded(args[0], Each(list, get), m)
    case Intrinsic => if typ == NONE || w.isVoid(typ) then w.barrier(args[0], Each(list, get), m) else m
    case Demote => w.demoted(m)
    case _ => m
  }

  /** How a marker decides where control goes. */
  datatype Choice = Onward | Test(holds: bool) | Match(key: nat, literals: seq<nat>)

  ghost function ChoiceOf(w: World, inst: Inst, list: seq<nat>, get: nat -> Value): Choice {
    match inst.op
    case If => Test(w.isTrue(get(inst.args[0])))
    case EndLoop => Test(inst.args[0] == NONE || w.isTrue(get(inst.args[0])))
    case Switch => Match(w.pattern(get(inst.args[0])), list)
    case _ => Onward
  }

  // ----- the operand tables say which of these are values -----

  ghost predicate SameArg(inst: Inst, now: Inst, a: nat, get: nat -> Value, get': nat -> Value)
    requires a < 4
  {
    if a in ValueArgMask(inst) then get(inst.args[a]) == get'(now.args[a]) else inst.args[a] == now.args[a]
  }

  ghost predicate SameEntry(op: Op, list: seq<nat>, now: seq<nat>, k: nat, get: nat -> Value, get': nat -> Value)
    requires k < |list| == |now|
  {
    if AuxHoldsValues(op) then get(list[k]) == get'(now[k]) else list[k] == now[k]
  }

  /** The same instruction by other names: where the tables say value, the values are the same, and
      everywhere else the literals. */
  ghost predicate Renamed(inst: Inst, list: seq<nat>, get: nat -> Value, now: Inst, list': seq<nat>, get': nat -> Value) {
    && now.op == inst.op && now.typ == inst.typ && |list'| == |list|
    && (inst.op.EndLoop? ==> (now.args[0] == NONE <==> inst.args[0] == NONE))
    && (forall a: nat {:trigger SameArg(inst, now, a, get, get')} :: a < 4 ==> SameArg(inst, now, a, get, get'))
    && (forall k: nat {:trigger SameEntry(inst.op, list, list', k, get, get')} :: k < |list| ==>
          SameEntry(inst.op, list, list', k, get, get'))
  }

  lemma {:induction false} SameArgs(inst: Inst, list: seq<nat>, get: nat -> Value, now: Inst, list': seq<nat>, get': nat -> Value)
    requires Renamed(inst, list, get, now, list', get')
    ensures SameArg(inst, now, 0, get, get') && SameArg(inst, now, 1, get, get')
    ensures SameArg(inst, now, 2, get, get') && SameArg(inst, now, 3, get, get')
    ensures if AuxHoldsValues(inst.op) then Each(list, get) == Each(list', get') else list == list'
  {
    forall k: nat | k < |list|
      ensures if AuxHoldsValues(inst.op) then get(list[k]) == get'(list'[k]) else list[k] == list'[k]
    {
      assert SameEntry(inst.op, list, list', k, get, get');
    }
  }

  /** Such an instruction does the same: what the tables call a value is used as one, and what they do
      not is not. */
  lemma {:induction false} RenamedDoesTheSame(w: World, inst: Inst, list: seq<nat>, home: Value, get: nat -> Value,
                                              now: Inst, list': seq<nat>, get': nat -> Value, m: Memory)
    requires Renamed(inst, list, get, now, list', get')
    ensures ResultOf(w, now, list', home, get', m) == ResultOf(w, inst, list, home, get, m)
    ensures MemoryAfter(w, now, list', get', m) == MemoryAfter(w, inst, list, get, m)
    ensures ChoiceOf(w, now, list', get') == ChoiceOf(w, inst, list, get)
  {
    SameArgs(inst, list, get, now, list', get');
    SameResult(w, inst, list, home, get, now, list', get', m);
  }

  lemma {:induction false} SameResult(w: World, inst: Inst, list: seq<nat>, home: Value, get: nat -> Value,
                                      now: Inst, list': seq<nat>, get': nat -> Value, m: Memory)
    requires Renamed(inst, list, get, now, list', get')
    ensures ResultOf(w, now, list', home, get', m) == ResultOf(w, inst, list, home, get, m)
  {
    if AuxHoldsValues(inst.op) {
      SameListed(w, inst, list, home, get, now, list', get', m);
    } else {
      SameArgs(inst, list, get, now, list', get');
    }
  }

  lemma {:induction false} SameListed(w: World, inst: Inst, list: seq<nat>, home: Value, get: nat -> Value,
                                      now: Inst, list': seq<nat>, get': nat -> Value, m: Memory)
    requires Renamed(inst, list, get, now, list', get') && AuxHoldsValues(inst.op)
    ensures ResultOf(w, now, list', home, get', m) == ResultOf(w, inst, list, home, get, m)
  {
    SameArgs(inst, list, get, now, list', get');
    if inst.op.Tex? {
      assert inst.args == now.args;
    }
  }

  /** The list an instruction owns. */
  function ListOf(f: Func, inst: Inst): (list: seq<nat>)
    requires AuxInPool(f, inst)
    ensures |list| == inst.auxCount && forall k :: 0 <= k < |list| ==> list[k] == f.aux[inst.aux + k]
  {
    seq(inst.auxCount, k requires 0 <= k < inst.auxCount => f.aux[inst.aux + k])
  }

  /** Nothing but its operands matters to an instruction. */
  lemma {:induction false} OnlyOperandsMatter(w: World, f: Func, inst: Inst, home: Value, get: nat -> Value, get': nat -> Value, m: Memory)
    requires AuxInPool(f, inst) && forall x: nat :: IsOperand(f, inst, x) ==> get(x) == get'(x)
    ensures var list := ListOf(f, inst);
            && ResultOf(w, inst, list, home, get, m) == ResultOf(w, inst, list, home, get', m)
            && MemoryAfter(w, inst, list, get, m) == MemoryAfter(w, inst, list, get', m)
            && ChoiceOf(w, inst, list, get) == ChoiceOf(w, inst, list, get')
  {
    var list := ListOf(f, inst);
    forall a: nat | a < 4
      ensures SameArg(inst, inst, a, get, get')
    {
      if a in ValueArgMask(inst) {
        assert IsOperand(f, inst, inst.args[a]);
      }
    }
    forall k: nat | k < |list|
      ensures SameEntry(inst.op, list, list, k, get, get')
    {
      if AuxHoldsValues(inst.op) {
        assert IsOperand(f, inst, f.aux[inst.aux + k]);
      }
    }
    RenamedDoesTheSame(w, inst, list, home, get, inst, list, get', m);
  }
}
