/** Straight-line programs as the WGSL back end sees them: what each instruction is to it, which
    values it uses, and what running the instructions in order computes. */
module StraightLine {
  import S = Semantics

  type Value = S.Value
  type Memory = S.Memory

  /** How an instruction is written: a name or literal of its own; a pointer path, spelled out
      wherever it is used; an expression; an expression that reads memory; a statement. */
  datatype Kind = Fixed | Path | Pure | Read | Statement

  /** One instruction: how it is written, whether it is observable, the values it uses, and how
      often its text spells each of them. */
  datatype Item = Item(kind: Kind, effect: bool, operands: seq<nat>, weight: nat)

  datatype Program = Program(items: seq<Item>) {
    function Count(): nat { |items| }

    /** Every operand is computed before it is used; effects are statements, or at least have no user. */
    ghost predicate Valid() {
      forall i {:trigger items[i]} :: 0 <= i < Count() ==> ItemOk(i)
    }

    ghost predicate Unused(i: nat) {
      forall j {:trigger items[j]} :: 0 <= j < Count() ==> i !in items[j].operands
    }

    ghost predicate ItemOk(i: nat)
      requires i < Count()
    {
      && items[i].weight > 0
      && (items[i].effect ==> items[i].kind.Statement? || (items[i].kind.Pure? && Unused(i)))
      && (items[i].kind.Fixed? ==> items[i].operands == [])
      && forall k :: 0 <= k < |items[i].operands| ==> items[i].operands[k] < i
    }
  }

  /** The meaning of the instructions: the value each computes from its operands' values and the
      memory, what it leaves in memory, and whether its text looks at its operands again after that. */
  datatype Meaning = Meaning(compute: (nat, seq<Value>, Memory) -> Value,
                             write: (nat, seq<Value>, Memory) -> Memory,
                             again: nat -> bool)

  /** Only reads and effects look at memory, only effects change it, and whatever looks again counts its
      operands more than once. */
  ghost predicate Fits(p: Program, s: Meaning) {
    && (forall i: nat, args, m, n :: i < p.Count() && !p.items[i].kind.Read? && !p.items[i].effect ==>
          s.compute(i, args, m) == s.compute(i, args, n))
    && (forall i: nat, args, m :: i < p.Count() && !p.items[i].effect ==> s.write(i, args, m) == m)
    && (forall i: nat :: i < p.Count() && s.again(i) ==> p.items[i].weight > 1)
  }

  // ----- in order -----

  /** The memory just before instruction k. */
  ghost function MemoryAt(p: Program, s: Meaning, m: Memory, k: nat): Memory
    requires p.Valid() && k <= p.Count()
    decreases k, 0
  {
    if k == 0 then m
    else s.write(k - 1, ValuesOf(p, s, m, k - 1, 0), MemoryAt(p, s, m, k - 1))
  }

  ghost function ValueOf(p: Program, s: Meaning, m: Memory, i: nat): Value
    requires p.Valid() && i < p.Count()
    decreases i, 9
  {
    s.compute(i, ValuesOf(p, s, m, i, 0), MemoryAt(p, s, m, i))
  }

  /** The values of instruction i's operands from the k-th on. */
  ghost function ValuesOf(p: Program, s: Meaning, m: Memory, i: nat, k: nat): (r: seq<Value>)
    requires p.Valid() && i < p.Count() && k <= |p.items[i].operands|
    ensures |r| == |p.items[i].operands| - k
    decreases i, 1, |p.items[i].operands| - k
  {
    if k == |p.items[i].operands| then []
    else [ValueOf(p, s, m, p.items[i].operands[k])] + ValuesOf(p, s, m, i, k + 1)
  }

  /** Memory stands still across instructions without effects. */
  lemma {:induction false} MemoryStays(p: Program, s: Meaning, m: Memory, a: nat, b: nat)
    requires p.Valid() && Fits(p, s) && a <= b <= p.Count()
    requires forall i :: a <= i < b ==> !p.items[i].effect
    ensures MemoryAt(p, s, m, a) == MemoryAt(p, s, m, b)
  {
    if a < b {
      MemoryStays(p, s, m, a, b - 1);
    }
  }
}
