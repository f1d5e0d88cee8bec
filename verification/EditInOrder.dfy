/** The `resolved` promise: a pass that resolves each instruction's operands as it walks, and
    touches only the instruction it is at, leaves nothing for the commit to redirect. */
module EditInOrder {
  import opened Ir
  import opened EditModel
  import opened EditInPlace
  import opened EditBuffer

  /** The canonical id behind x; a killed one stays as it is. */
  ghost function SoftId(e: Edits, x: nat): nat
    requires e.ChainsOk()
  {
    if x < e.Total() && e.Resolve(x) != NONE then e.Resolve(x) else x
  }

  ghost function SoftArgs(e: Edits, inst: Inst): (args: seq<nat>)
    requires e.ChainsOk()
    ensures |args| == 4
    ensures forall a :: 0 <= a < 4 ==>
              args[a] == if a in ValueArgMask(inst) then SoftId(e, inst.args[a]) else inst.args[a]
  {
    seq<nat>(4, a requires 0 <= a < 4 => if a in ValueArgMask(inst) then SoftId(e, inst.args[a]) else inst.args[a])
  }

  predicate InList(inst: Inst, s: nat) {
    AuxHoldsValues(inst.op) && inst.aux <= s < inst.aux + inst.auxCount
  }

  ghost function SoftPool(e: Edits, inst: Inst): (pool: seq<nat>)
    requires e.ChainsOk()
    ensures |pool| == |e.aux|
    ensures forall s :: 0 <= s < |pool| ==> pool[s] == if InList(inst, s) then SoftId(e, e.aux[s]) else e.aux[s]
  {
    seq<nat>(|e.aux|, s requires 0 <= s < |e.aux| => if InList(inst, s) then SoftId(e, e.aux[s]) else e.aux[s])
  }

  /** The edit after instruction i's operands have been resolved. */
  ghost function ResolvedInst(e: Edits, i: nat): Edits
    requires e.ChainsOk() && i < e.Base()
  {
    e.(insts := e.insts[i := e.insts[i].(args := SoftArgs(e, e.insts[i]))], aux := SoftPool(e, e.insts[i]))
  }

  /** Where an operand leads so far: a dead one, or none of an id, stays. */
  method ResolveOne(ed: EditBuffer, x: nat, ghost e: Edits) returns (y: nat)
    requires e.ChainsOk() && e.repl == ed.repl[..] && e.Base() == ed.base && |ed.added| == |e.added|
    ensures y == SoftId(e, x)
  {
    y := x;
    if x < ed.base + |ed.added| {
      var r := ed.Resolve(x, e);
      if r != NONE {
        y := r;
      }
    }
  }

  method ResolveArgs(ed: EditBuffer, inst: Inst, ghost e: Edits) returns (args: seq<nat>)
    requires e.ChainsOk() && e.repl == ed.repl[..] && e.Base() == ed.base && |ed.added| == |e.added|
    ensures args == SoftArgs(e, inst)
  {
    var mask := ValueArgMask(inst);
    args := inst.args;
    for a := 0 to 4
      invariant |args| == 4
      invariant forall b :: 0 <= b < 4 ==>
                  args[b] == if b < a && b in mask then SoftId(e, inst.args[b]) else inst.args[b]
    {
      if a in mask {
        var r := ResolveOne(ed, args[a], e);
        args := args[a := r];
      }
    }
  }

  method ResolveList(ed: EditBuffer, from: nat, n: nat, ghost e: Edits) returns (pool: seq<nat>)
    requires e.ChainsOk() && e.repl == ed.repl[..] && e.Base() == ed.base && |ed.added| == |e.added|
    requires ed.aux == e.aux && (n > 0 ==> from + n <= |e.aux|)
    ensures |pool| == |e.aux|
    ensures forall s :: 0 <= s < |pool| ==>
              pool[s] == if from <= s < from + n then SoftId(e, e.aux[s]) else e.aux[s]
  {
    var limit := ed.base + |ed.added|;
    pool := ed.aux;
    for k := 0 to n
      invariant |pool| == |e.aux|
      invariant forall s :: 0 <= s < |pool| ==>
                  pool[s] == if from <= s < from + k then SoftId(e, e.aux[s]) else e.aux[s]
    {
      if pool[from + k] < limit {
        var r := ed.Resolve(pool[from + k], e);
        if r != NONE {
          pool := pool[from + k := r];
        }
      }
    }
  }

  /** Redirects instruction i's value operands through the replacements recorded so far. */
  method ResolveOperands(ed: EditBuffer, i: nat)
    requires ed.Valid() && i < ed.base && AuxInPool(ed.Value().Fn(), ed.Value().insts[i])
    modifies ed`aux, ed.insts
    ensures ed.Valid() && ed.Value() == ResolvedInst(old(ed.Value()), i)
  {
    ghost var e := ed.Value();
    var inst := ed.insts[i];
    var args := ResolveArgs(ed, inst, e);
    if AuxHoldsValues(inst.op) {
      ed.aux := ResolveList(ed, inst.aux, inst.auxCount, e);
    }
    assert ed.aux == SoftPool(e, inst);
    ed.insts[i] := inst.(args := args);
    assert ed.Value() == ResolvedInst(e, i);
    ChainsKept(e, i);
  }

  lemma {:induction false} ChainsKept(e: Edits, i: nat)
    requires e.ChainsOk() && i < e.Base()
    ensures ResolvedInst(e, i).ChainsOk()
  {
    SameRecords(e, ResolvedInst(e, i));
  }

  /** Chains are a matter of the records alone. */
  lemma {:induction false} SameRecords(e: Edits, f: Edits)
    requires e.ChainsOk() && |f.insts| == |e.insts| && f.repl == e.repl && |f.added| == |e.added| && f.anchor == e.anchor
    ensures f.ChainsOk()
  {
    forall j | 0 <= j < f.Base()
      ensures f.Replaces(j)
    {
      assert e.Replaces(j);
    }
  }

  // ----- the promise -----

  /** Operands come earlier in the committed order, and lists lie in the pool. */
  ghost predicate OrderedAt(e: Edits, j: nat)
    requires e.Shaped() && j < e.Base()
  {
    AuxInPool(e.Fn(), e.insts[j]) && forall x: nat :: IsOperand(e.Fn(), e.insts[j], x) ==> Earlier(e, x, j)
  }

  predicate Earlier(e: Edits, x: nat, j: nat)
    requires e.Shaped() && j < e.Total()
  {
    x < e.Total() && e.Before(x, j)
  }

  ghost predicate Ordered(e: Edits) {
    e.ChainsOk() && forall j {:trigger OrderedAt(e, j)} :: 0 <= j < e.Base() ==> OrderedAt(e, j)
  }

  /** Each operand of instruction j names a kept id, or one that was killed. */
  ghost predicate Settled(e: Edits, j: nat)
    requires e.ChainsOk() && j < e.Base()
  {
    forall x: nat :: IsOperand(e.Fn(), e.insts[j], x) ==> SoftId(e, x) == x
  }

  lemma {:induction false} SoftIsEarlier(e: Edits, x: nat, j: nat)
    requires e.ChainsOk() && j < e.Base() && Earlier(e, x, j)
    ensures Earlier(e, SoftId(e, x), j) && SoftId(e, SoftId(e, x)) == SoftId(e, x) && SoftId(e, x) != NONE
  {
    var r := e.Resolve(x);
    if r != NONE && r != x {
      BeforeIsStrictOrder(e, r, x, j);
    }
  }

  /** Following replacements looks at nothing but the records. */
  lemma {:induction false} SameChains(e: Edits, f: Edits, x: nat)
    requires e.ChainsOk() && f.ChainsOk() && f.repl == e.repl && |f.added| >= |e.added|
    requires x < e.Total()
    ensures SoftId(f, x) == SoftId(e, x) && f.Resolve(x) == e.Resolve(x)
    decreases if x < e.Base() then x + 1 else 0
  {
    if x < e.Base() && e.repl[x] != 0 && e.repl[x] != NONE {
      assert e.Replaces(x) && f.Replaces(x);
      SameChains(e, f, e.repl[x] - 1);
    }
  }

  /** A chain that starts before i stays before it. */
  lemma {:induction false} ChainsBelow(e: Edits, f: Edits, i: nat, r: nat, x: nat)
    requires e.ChainsOk() && f.ChainsOk() && i < e.Base() && Earlier(e, x, i)
    requires f == e.(repl := e.repl[i := r])
    ensures SoftId(f, x) == SoftId(e, x) && f.Resolve(x) == e.Resolve(x)
    decreases if x < e.Base() then x + 1 else 0
  {
    if x < e.Base() && e.repl[x] != 0 && e.repl[x] != NONE {
      assert e.Replaces(x) && f.Replaces(x);
      BeforeIsStrictOrder(e, e.repl[x] - 1, x, i);
      ChainsBelow(e, f, i, r, e.repl[x] - 1);
    }
  }

  /** An operand after resolving i's is an old operand of the same instruction, or its canonical
      id; for i itself, always the latter. */
  lemma {:induction false} OperandAfter(e: Edits, i: nat, j: nat, y: nat) returns (x: nat)
    requires Ordered(e) && i < e.Base() && j < e.Base()
    requires IsOperand(ResolvedInst(e, i).Fn(), ResolvedInst(e, i).insts[j], y)
    ensures IsOperand(e.Fn(), e.insts[j], x) && (y == SoftId(e, x) || (j != i && y == x))
  {
    var f := ResolvedInst(e, i);
    var was, now := e.insts[j], f.insts[j];
    if i == j {
      ResolvingKeepsMask(e, i);
    }
    if a :| a in ValueArgMask(now) && a < 4 && now.args[a] == y {
      x := was.args[a];
    } else {
      var s :| now.aux <= s < now.aux + now.auxCount && s < |f.aux| && f.aux[s] == y;
      x := e.aux[s];
    }
  }

  lemma {:induction false} ThirdStaysForAtomics(e: Edits, inst: Inst)
    requires e.ChainsOk() && inst.op.Atomic?
    ensures ValueArgMask(inst.(args := SoftArgs(e, inst))) == ValueArgMask(inst)
  {
    assert 3 !in ValueArgMask(inst);
  }

  lemma {:induction false} ResolvingKeepsMask(e: Edits, i: nat)
    requires Ordered(e) && i < e.Base()
    ensures ValueArgMask(e.insts[i].(args := SoftArgs(e, e.insts[i]))) == ValueArgMask(e.insts[i])
  {
    var inst := e.insts[i];
    if inst.op.Atomic? {
      ThirdStaysForAtomics(e, inst);
    } else if inst.op.EndLoop? {
      EndLoopKeepsCondition(e, i);
    }
  }

  lemma {:induction false} EndLoopKeepsCondition(e: Edits, i: nat)
    requires Ordered(e) && i < e.Base() && e.insts[i].op.EndLoop?
    ensures ValueArgMask(e.insts[i].(args := SoftArgs(e, e.insts[i]))) == ValueArgMask(e.insts[i])
  {
    var inst := e.insts[i];
    if 0 in ValueArgMask(inst) {
      assert OrderedAt(e, i);
      assert IsOperand(e.Fn(), inst, inst.args[0]);
      SoftIsEarlier(e, inst.args[0], i);
    }
    EndLoopMask(inst, SoftArgs(e, inst));
  }

  /** Of an end_loop only matters whether it has a condition. */
  lemma {:induction false} EndLoopMask(inst: Inst, args: seq<nat>)
    requires inst.op.EndLoop? && |args| == 4 && (args[0] == NONE <==> inst.args[0] == NONE)
    ensures ValueArgMask(inst.(args := args)) == ValueArgMask(inst)
  {
  }

  lemma {:induction false} ResolvingKeepsOrder(e: Edits, i: nat)
    requires Ordered(e) && i < e.Base()
    ensures Ordered(ResolvedInst(e, i))
  {
    ChainsKept(e, i);
    var f := ResolvedInst(e, i);
    forall j | 0 <= j < f.Base()
      ensures OrderedAt(f, j)
    {
      assert OrderedAt(e, j);
      forall y: nat | IsOperand(f.Fn(), f.insts[j], y)
        ensures Earlier(f, y, j)
      {
        var x := OperandAfter(e, i, j, y);
        SoftIsEarlier(e, x, j);
      }
    }
  }

  /** Resolving i's operands settles i, and unsettles no other instruction. */
  lemma {:induction false} ResolvingSettles(e: Edits, i: nat, j: nat)
    requires Ordered(e) && i < e.Base() && j < e.Base() && ResolvedInst(e, i).ChainsOk()
    requires j == i || Settled(e, j)
    ensures Settled(ResolvedInst(e, i), j)
  {
    var f := ResolvedInst(e, i);
    assert OrderedAt(e, j);
    forall y: nat | IsOperand(f.Fn(), f.insts[j], y)
      ensures SoftId(f, y) == y
    {
      var x := OperandAfter(e, i, j, y);
      SoftIsEarlier(e, x, j);
      SameChains(e, f, y);
    }
  }

  /** Deciding about i unsettles nothing up to it. */
  lemma {:induction false} DecidingKeepsSettled(e: Edits, i: nat, r: nat, j: nat)
    requires Ordered(e) && j <= i < e.Base() && Settled(e, j)
    requires e.(repl := e.repl[i := r]).ChainsOk()
    ensures Settled(e.(repl := e.repl[i := r]), j)
  {
    var f := e.(repl := e.repl[i := r]);
    assert OrderedAt(e, j);
    forall x: nat | IsOperand(f.Fn(), f.insts[j], x)
      ensures SoftId(f, x) == x
    {
      assert IsOperand(e.Fn(), e.insts[j], x);
      if j < i {
        BeforeIsStrictOrder(e, x, j, i);
      }
      ChainsBelow(e, f, i, r, x);
    }
  }

  lemma {:induction false} DecidingKeepsOrder(e: Edits, i: nat, r: nat)
    requires Ordered(e) && i < e.Base() && e.(repl := e.repl[i := r]).ChainsOk()
    ensures Ordered(e.(repl := e.repl[i := r]))
  {
    var f := e.(repl := e.repl[i := r]);
    forall j | 0 <= j < f.Base()
      ensures OrderedAt(f, j)
    {
      assert OrderedAt(e, j);
    }
  }

  // ----- inserts -----

  lemma {:induction false} OperandsStay(e: Edits, f: Edits, j: nat, x: nat)
    requires j < e.Base() && f.insts == e.insts && e.aux <= f.aux && AuxInPool(e.Fn(), e.insts[j])
    ensures IsOperand(f.Fn(), f.insts[j], x) <==> IsOperand(e.Fn(), e.insts[j], x)
  {
    var inst := e.insts[j];
    assert forall k :: inst.aux <= k < inst.aux + inst.auxCount ==> f.aux[k] == e.aux[k];
  }

  /** An insert disturbs neither the order nor what is settled. */
  lemma {:induction false} InsertKeeps(e: Edits, before: nat, inst: Inst, list: seq<nat>, j: nat)
    requires Ordered(e) && j < e.Base() && InsertInto(e, before, inst, list).ChainsOk()
    ensures OrderedAt(InsertInto(e, before, inst, list), j)
    ensures Settled(e, j) ==> Settled(InsertInto(e, before, inst, list), j)
  {
    var f := InsertInto(e, before, inst, list);
    assert OrderedAt(e, j);
    forall x: nat | IsOperand(f.Fn(), f.insts[j], x)
      ensures Earlier(f, x, j) && (Settled(e, j) ==> SoftId(f, x) == x)
    {
      OperandsStay(e, f, j, x);
      assert Earlier(e, x, j);
      SameChains(e, f, x);
    }
  }

  datatype New = New(before: nat, inst: Inst, list: seq<nat>)

  datatype Decision = Keep | ReplaceWith(id: nat) | Drop

  /** Order, and everything below n settled. */
  ghost predicate SettledTo(e: Edits, n: nat) {
    Ordered(e) && n <= e.Base() && forall j {:trigger Settled(e, j)} :: 0 <= j < n ==> Settled(e, j)
  }

  /** The inserts of a pass at one instruction, wherever they are anchored. */
  method InsertAll(ed: EditBuffer, news: seq<New>, ghost n: nat)
    requires ed.Valid() && SettledTo(ed.Value(), n)
    modifies ed`aux, ed`added, ed`anchor, ed`changed
    ensures ed.Valid() && SettledTo(ed.Value(), n) && ed.Value().Base() == old(ed.Value()).Base()
  {
    for k := 0 to |news|
      invariant ed.Valid() && SettledTo(ed.Value(), n)
    {
      if news[k].before <= ed.base && ed.base + |ed.added| + 1 < MAX_IDS {
        ghost var e := ed.Value();
        var id := ed.Insert(news[k].before, news[k].inst, news[k].list);
        forall j | 0 <= j < e.Base()
          ensures OrderedAt(ed.Value(), j) && (Settled(e, j) ==> Settled(ed.Value(), j))
        {
          InsertKeeps(e, news[k].before, news[k].inst, news[k].list, j);
        }
      }
    }
  }

  /** Resolving instruction i's operands, in order. */
  method ResolveNext(ed: EditBuffer, i: nat)
    requires ed.Valid() && SettledTo(ed.Value(), i) && i < ed.base
    modifies ed`aux, ed.insts
    ensures ed.Valid() && SettledTo(ed.Value(), i + 1)
  {
    ghost var e := ed.Value();
    assert OrderedAt(e, i);
    ResolveOperands(ed, i);
    ResolvingKeepsOrder(e, i);
    forall j | 0 <= j < i + 1
      ensures Settled(ed.Value(), j)
    {
      ResolvingSettles(e, i, j);
    }
  }

  /** What a pass may decide about instruction i: to replace it by something earlier, or to kill it. */
  method Decide(ed: EditBuffer, i: nat, d: Decision)
    requires ed.Valid() && i < ed.base && SettledTo(ed.Value(), i + 1)
    modifies ed`lowest, ed`dead, ed`changed, ed`replaced, ed.repl
    ensures ed.Valid() && SettledTo(ed.Value(), i + 1)
  {
    ghost var e := ed.Value();
    match d {
      case Keep => return;
      case ReplaceWith(id) =>
        if !(id < ed.base + |ed.added| && if id < ed.base then id < i else ed.anchor[id - ed.base] <= i) {
          return;
        }
        ed.Replace(i, id);
      case Drop => ed.Kill(i);
    }
    ghost var r := ed.Value().repl[i];
    assert ed.Value() == e.(repl := e.repl[i := r]);
    DecidingKeepsOrder(e, i, r);
    forall j | 0 <= j < i + 1
      ensures Settled(ed.Value(), j)
    {
      DecidingKeepsSettled(e, i, r, j);
    }
  }

  /** A whole in-order pass, over any inserts and decisions it may make: the `resolved` mark it sets
      keeps its promise whenever the commit's contract holds. */
  method InOrderPass(ed: EditBuffer, news: seq<seq<New>>, decisions: seq<Decision>)
    requires ed.Valid() && Ordered(ed.Value()) && |decisions| == |news| == ed.base
    modifies ed, ed.insts, ed.repl
    ensures ed.Valid() && ed.resolved
    ensures ed.Value().Contract() ==> AllResolved(ed.Value())
  {
    for i := 0 to ed.base
      invariant ed.Valid() && ed.insts == old(ed.insts) && ed.base == |news|
      invariant SettledTo(ed.Value(), i)
    {
      InsertAll(ed, news[i], i);
      ResolveNext(ed, i);
      Decide(ed, i, decisions[i]);
    }
    ed.resolved := true;
    if ed.Value().Contract() {
      SettledIsResolved(ed.Value());
    }
  }

  lemma {:induction false} SettledIsResolved(e: Edits)
    requires e.Contract() && SettledTo(e, e.Base())
    ensures AllResolved(e)
  {
    forall i, x: nat | 0 <= i < e.Base() && e.Live(i) && IsOperand(e.Fn(), e.insts[i], x) && x < e.Base()
      ensures e.repl[x] == 0
    {
      assert Settled(e, i);
      assert e.Get(i) == e.insts[i] && e.Placed(i) && e.UseOk(i, x);
      assert SoftId(e, x) == x;
    }
  }
}
