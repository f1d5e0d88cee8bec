/** The committed function, and that it means what the edits meant: every value's term, unfolded
    through the replacements, is the term at its new position. */
module EditMeaning {
  import opened Ir
  import opened EditModel

  // ----- where an id ends up -----

  ghost function PosOf(e: Edits, v: nat): (p: nat)
    requires e.Shaped() && e.Placed(v)
    ensures p < |Layout(e)| && Layout(e)[p] == v
  {
    LayoutIsTheOrder(e);
    var p :| 0 <= p < |Layout(e)| && Layout(e)[p] == v;
    p
  }

  lemma {:induction false} PositionsOrdered(e: Edits, u: nat, v: nat)
    requires e.Shaped() && e.Placed(u) && e.Placed(v)
    ensures e.Before(u, v) <==> PosOf(e, u) < PosOf(e, v)
    ensures u == v <==> PosOf(e, u) == PosOf(e, v)
  {
    LayoutIsTheOrder(e);
    BeforeIsStrictOrder(e, u, v, u);
  }

  /** The committed position of any id, through its replacements (NONE when it died); a number
      that is no id stays what it is. */
  ghost function FinalId(e: Edits, v: nat): nat
    requires e.ChainsOk()
  {
    if v >= e.Total() then v
    else if e.Placed(e.Resolve(v)) then PosOf(e, e.Resolve(v)) else NONE
  }

  // ----- the committed function -----

  ghost function MoveArgs(e: Edits, inst: Inst): (args: seq<nat>)
    requires e.ChainsOk()
    ensures |args| == 4
  {
    seq(4, a requires 0 <= a < 4 => if a in ValueArgMask(inst) then FinalId(e, inst.args[a]) else inst.args[a])
  }

  ghost function MoveInst(e: Edits, inst: Inst, auxAt: nat): Inst
    requires e.ChainsOk()
  {
    inst.(args := MoveArgs(e, inst), aux := auxAt)
  }

  ghost function MoveSlot(e: Edits, op: Op, x: nat): nat
    requires e.ChainsOk()
  {
    if AuxHoldsValues(op) then FinalId(e, x) else x
  }

  ghost function MoveAux(e: Edits, inst: Inst): (list: seq<nat>)
    requires e.ChainsOk() && AuxInPool(e.Fn(), inst)
    ensures |list| == inst.auxCount
    ensures forall k :: 0 <= k < inst.auxCount ==> list[k] == MoveSlot(e, inst.op, e.aux[inst.aux + k])
  {
    seq<nat>(inst.auxCount, k requires 0 <= k < inst.auxCount => MoveSlot(e, inst.op, e.aux[inst.aux + k]))
  }

  /** The operand lists of the first p placed instructions, packed one after the other. */
  ghost function PackedAux(e: Edits, p: nat): seq<nat>
    requires e.Contract() && p <= |Layout(e)|
  {
    if p == 0 then []
    else
      LayoutIsTheOrder(e);
      assert Layout(e)[p - 1] in Layout(e);
      PackedAux(e, p - 1) + MoveAux(e, e.Get(Layout(e)[p - 1]))
  }

  ghost function PlacedAt(e: Edits, p: nat): (v: nat)
    requires e.Shaped() && p < |Layout(e)|
    ensures e.Placed(v) && v == Layout(e)[p]
  {
    LayoutIsTheOrder(e);
    assert Layout(e)[p] in Layout(e);
    Layout(e)[p]
  }

  ghost function CommittedInst(e: Edits, p: nat): Inst
    requires e.Contract() && p < |Layout(e)|
  {
    MoveInst(e, e.Get(PlacedAt(e, p)), |PackedAux(e, p)|)
  }

  ghost function Committed(e: Edits): Func
    requires e.Contract()
  {
    Func(seq(|Layout(e)|, p requires 0 <= p < |Layout(e)| => CommittedInst(e, p)),
         PackedAux(e, |Layout(e)|))
  }

  // ----- terms -----

  /** A value unfolded through its operands; literals stay literals. */
  datatype Term = Term(op: Op, typ: nat, args: seq<Arg>, aux: seq<Arg>)
  datatype Arg = Lit(n: nat) | Of(t: Term)

  /** Operands name earlier instructions, and aux lists lie in the pool. */
  ghost predicate Dense(f: Func) {
    forall p :: 0 <= p < |f.insts| ==>
      AuxInPool(f, f.insts[p]) && forall x: nat :: IsOperand(f, f.insts[p], x) ==> x < p
  }

  ghost function FuncTerm(f: Func, p: nat): Term
    requires Dense(f) && p < |f.insts|
    decreases p
  {
    var inst := f.insts[p];
    Term(inst.op, inst.typ,
         seq(4, a requires 0 <= a < 4 =>
           if a in ValueArgMask(inst) then
             assert IsOperand(f, inst, inst.args[a]);
             Of(FuncTerm(f, inst.args[a]))
           else Lit(inst.args[a])),
         seq(inst.auxCount, k requires 0 <= k < inst.auxCount =>
           if AuxHoldsValues(inst.op) then
             assert IsOperand(f, inst, f.aux[inst.aux + k]);
             Of(FuncTerm(f, f.aux[inst.aux + k]))
           else Lit(f.aux[inst.aux + k])))
  }

  /** A used id resolves to something placed earlier. */
  lemma {:induction false} UseResolves(e: Edits, v: nat, x: nat)
    requires e.ChainsOk() && v < e.Total() && e.UseOk(v, x)
    ensures e.Placed(e.Resolve(x)) && e.Before(e.Resolve(x), v)
  {
    BeforeIsStrictOrder(e, e.Resolve(x), x, v);
  }

  /** The term of an id before the commit, with every operand seen through its replacements. */
  ghost function EditTerm(e: Edits, v: nat): Term
    requires e.Contract() && e.Placed(v)
    decreases e.KeyAnchor(v), e.KeyIndex(v)
  {
    var inst := e.Get(v);
    Term(inst.op, inst.typ,
         seq(4, a requires 0 <= a < 4 =>
           if a in ValueArgMask(inst) then
             assert IsOperand(e.Fn(), inst, inst.args[a]);
             UseResolves(e, v, inst.args[a]);
             Of(EditTerm(e, e.Resolve(inst.args[a])))
           else Lit(inst.args[a])),
         seq(inst.auxCount, k requires 0 <= k < inst.auxCount =>
           if AuxHoldsValues(inst.op) then
             assert IsOperand(e.Fn(), inst, e.aux[inst.aux + k]);
             UseResolves(e, v, e.aux[inst.aux + k]);
             Of(EditTerm(e, e.Resolve(e.aux[inst.aux + k])))
           else Lit(e.aux[inst.aux + k])))
  }

  // ----- operand lists, repacked -----

  lemma {:induction false} PackedGrows(e: Edits, p: nat, q: nat)
    requires e.Contract() && p <= q <= |Layout(e)|
    ensures PackedAux(e, p) <= PackedAux(e, q)
  {
    if p < q {
      PackedGrows(e, p, q - 1);
    }
  }

  lemma {:induction false} PackedNext(e: Edits, p: nat)
    requires e.Contract() && p < |Layout(e)|
    ensures PackedAux(e, p + 1) == PackedAux(e, p) + MoveAux(e, e.Get(PlacedAt(e, p)))
  {
  }

  /** Repacked lists are contiguous: each starts where the one before it ends, and the last ends
      at the end of the pool. */
  lemma {:induction false} ListsContiguous(e: Edits, p: nat)
    requires e.Contract() && p < |Layout(e)|
    ensures var c := Committed(e);
            && c.insts[p].auxCount == e.Get(PlacedAt(e, p)).auxCount
            && c.insts[p].aux + c.insts[p].auxCount <= |c.aux|
            && c.insts[p].aux == (if p == 0 then 0 else c.insts[p - 1].aux + c.insts[p - 1].auxCount)
            && (p == |Layout(e)| - 1 ==> c.insts[p].aux + c.insts[p].auxCount == |c.aux|)
  {
    PackedNext(e, p);
    PackedGrows(e, p + 1, |Layout(e)|);
    if p > 0 {
      PackedNext(e, p - 1);
    }
  }

  /** Each repacked list is its instruction's list, renumbered. */
  lemma {:induction false} ListsKept(e: Edits, p: nat)
    requires e.Contract() && p < |Layout(e)|
    ensures var at, inst := |PackedAux(e, p)|, e.Get(PlacedAt(e, p));
            at + inst.auxCount <= |PackedAux(e, |Layout(e)|)| &&
            forall k :: 0 <= k < inst.auxCount ==> PackedAux(e, |Layout(e)|)[at + k] == MoveAux(e, inst)[k]
  {
    PackedNext(e, p);
    PackedGrows(e, p + 1, |Layout(e)|);
    var at, pool, next := |PackedAux(e, p)|, PackedAux(e, |Layout(e)|), PackedAux(e, p + 1);
    assert forall k :: 0 <= k < |next| ==> pool[k] == next[k];
  }

  // ----- the theorem -----

  lemma {:induction false} FinalOfUse(e: Edits, p: nat, x: nat)
    requires e.Contract() && p < |Layout(e)| && IsOperand(e.Fn(), e.Get(PlacedAt(e, p)), x)
    ensures e.Placed(e.Resolve(x)) && FinalId(e, x) == PosOf(e, e.Resolve(x)) < p
  {
    var v := PlacedAt(e, p);
    assert e.UseOk(v, x);
    UseResolves(e, v, x);
    PositionsOrdered(e, e.Resolve(x), v);
    LayoutPosition(e, p);
  }

  lemma {:induction false} LayoutPosition(e: Edits, p: nat)
    requires e.Shaped() && p < |Layout(e)|
    ensures PosOf(e, PlacedAt(e, p)) == p
  {
    LayoutIsTheOrder(e);
    var q := PosOf(e, PlacedAt(e, p));
    BeforeIsStrictOrder(e, Layout(e)[p], Layout(e)[p], Layout(e)[p]);
  }

  lemma {:induction false} ArgMoved(e: Edits, p: nat, a: nat)
    requires e.Contract() && p < |Layout(e)| && a < 4
    ensures var inst, moved := e.Get(PlacedAt(e, p)), CommittedInst(e, p);
            if a in ValueArgMask(inst)
            then moved.args[a] == FinalId(e, inst.args[a]) < p &&
                 e.Placed(e.Resolve(inst.args[a])) && PlacedAt(e, moved.args[a]) == e.Resolve(inst.args[a])
            else moved.args[a] == inst.args[a]
  {
    var inst := e.Get(PlacedAt(e, p));
    if a in ValueArgMask(inst) {
      assert IsOperand(e.Fn(), inst, inst.args[a]);
      FinalOfUse(e, p, inst.args[a]);
    }
  }

  lemma {:induction false} SlotMoved(e: Edits, p: nat, k: nat)
    requires e.Contract() && p < |Layout(e)| && k < e.Get(PlacedAt(e, p)).auxCount
    ensures var c, inst, moved := Committed(e), e.Get(PlacedAt(e, p)), CommittedInst(e, p);
            var x := e.aux[inst.aux + k];
            && moved.aux + k < |c.aux|
            && if AuxHoldsValues(inst.op)
               then c.aux[moved.aux + k] == FinalId(e, x) < p &&
                    e.Placed(e.Resolve(x)) && PlacedAt(e, c.aux[moved.aux + k]) == e.Resolve(x)
               else c.aux[moved.aux + k] == x
  {
    var c, inst, moved := Committed(e), e.Get(PlacedAt(e, p)), CommittedInst(e, p);
    ListsKept(e, p);
    assert c.aux[moved.aux + k] == MoveAux(e, inst)[k];
    if AuxHoldsValues(inst.op) {
      assert IsOperand(e.Fn(), inst, e.aux[inst.aux + k]);
      FinalOfUse(e, p, e.aux[inst.aux + k]);
    }
  }

  lemma {:induction false} MaskKept(e: Edits, p: nat)
    requires e.Contract() && p < |Layout(e)|
    ensures ValueArgMask(CommittedInst(e, p)) == ValueArgMask(e.Get(PlacedAt(e, p)))
  {
    ArgMoved(e, p, 0);
    ArgMoved(e, p, 3);
    LayoutFits(e);
  }

  /** Every operand of the committed function names an earlier instruction. */
  lemma {:induction false} CommittedOperand(e: Edits, p: nat, y: nat)
    requires e.Contract() && p < |Layout(e)| && IsOperand(Committed(e), CommittedInst(e, p), y)
    ensures y < p
  {
    var c, moved := Committed(e), CommittedInst(e, p);
    MaskKept(e, p);
    if a :| a in ValueArgMask(moved) && a < 4 && moved.args[a] == y {
      ArgMoved(e, p, a);
    } else {
      var k :| moved.aux <= k < moved.aux + moved.auxCount && k < |c.aux| && c.aux[k] == y;
      SlotMoved(e, p, k - moved.aux);
    }
  }

  /** The committed function is dense: every operand names a strictly smaller index. */
  lemma {:induction false} CommitIsDense(e: Edits)
    requires e.Contract()
    ensures Dense(Committed(e))
  {
    var c := Committed(e);
    forall p | 0 <= p < |c.insts|
      ensures AuxInPool(c, c.insts[p])
      ensures forall y: nat :: IsOperand(c, c.insts[p], y) ==> y < p
    {
      ListsContiguous(e, p);
      forall y: nat | IsOperand(c, c.insts[p], y)
        ensures y < p
      {
        CommittedOperand(e, p, y);
      }
    }
  }

  ghost predicate AgreeBelow(e: Edits, p: nat)
    requires e.Contract() && Dense(Committed(e)) && p <= |Layout(e)|
  {
    forall q :: 0 <= q < p ==> FuncTerm(Committed(e), q) == EditTerm(e, PlacedAt(e, q))
  }

  lemma {:induction false} ArgAgrees(e: Edits, p: nat, a: nat)
    requires e.Contract() && Dense(Committed(e)) && p < |Layout(e)| && a < 4 && AgreeBelow(e, p)
    ensures FuncTerm(Committed(e), p).args[a] == EditTerm(e, PlacedAt(e, p)).args[a]
  {
    MaskKept(e, p);
    ArgMoved(e, p, a);
  }

  lemma {:induction false} SlotAgrees(e: Edits, p: nat, k: nat)
    requires e.Contract() && Dense(Committed(e)) && p < |Layout(e)| && AgreeBelow(e, p)
    requires k < e.Get(PlacedAt(e, p)).auxCount
    ensures FuncTerm(Committed(e), p).aux[k] == EditTerm(e, PlacedAt(e, p)).aux[k]
  {
    var v := PlacedAt(e, p);
    SlotMoved(e, p, k);
    if AuxHoldsValues(e.Get(v).op) {
      SlotTermsAgree(e, p, e.aux[e.Get(v).aux + k]);
    }
    SameSlot(e, p, v, k, e.aux[e.Get(v).aux + k], Committed(e).aux[CommittedInst(e, p).aux + k]);
  }

  /** Slots with agreeing contents, read as terms: x under the edits, y in the committed function. */
  lemma {:induction false} SameSlot(e: Edits, p: nat, v: nat, k: nat, x: nat, y: nat)
    requires e.Contract() && Dense(Committed(e)) && p < |Layout(e)| && v == PlacedAt(e, p) && k < e.Get(v).auxCount
    requires CommittedInst(e, p).aux + k < |Committed(e).aux|
    requires x == e.aux[e.Get(v).aux + k] && y == Committed(e).aux[CommittedInst(e, p).aux + k]
    requires if AuxHoldsValues(e.Get(v).op) then y < p && e.Placed(e.Resolve(x)) && FuncTerm(Committed(e), y) == EditTerm(e, e.Resolve(x))
             else y == x
    ensures FuncTerm(Committed(e), p).aux[k] == EditTerm(e, v).aux[k]
  {
    FuncTermSlot(Committed(e), p, k);
    assert FuncTerm(Committed(e), p).aux[k] == if AuxHoldsValues(e.Get(v).op) then Of(FuncTerm(Committed(e), y)) else Lit(y);
    EditTermSlot(e, v, k);
  }

  // Below p, terms already agree.
  lemma {:induction false} SlotTermsAgree(e: Edits, p: nat, x: nat)
    requires e.Contract() && Dense(Committed(e)) && p < |Layout(e)| && AgreeBelow(e, p)
    requires x < e.Total() && e.Placed(e.Resolve(x)) && FinalId(e, x) < p
    ensures FinalId(e, x) < |Committed(e).insts|
    ensures FuncTerm(Committed(e), FinalId(e, x)) == EditTerm(e, e.Resolve(x))
  {
  }

  lemma {:induction false} FuncTermSlot(f: Func, p: nat, k: nat)
    requires Dense(f) && p < |f.insts| && k < f.insts[p].auxCount
    ensures var inst, x := f.insts[p], f.aux[f.insts[p].aux + k];
            |FuncTerm(f, p).aux| == inst.auxCount &&
            if AuxHoldsValues(inst.op) then x < p && FuncTerm(f, p).aux[k] == Of(FuncTerm(f, x))
            else FuncTerm(f, p).aux[k] == Lit(x)
  {
    if AuxHoldsValues(f.insts[p].op) {
      assert IsOperand(f, f.insts[p], f.aux[f.insts[p].aux + k]);
    }
  }

  lemma {:induction false} EditTermSlot(e: Edits, v: nat, k: nat)
    requires e.Contract() && e.Placed(v) && k < e.Get(v).auxCount
    ensures e.Get(v).aux + k < |e.aux| && |EditTerm(e, v).aux| == e.Get(v).auxCount
    ensures var x := e.aux[e.Get(v).aux + k];
            if AuxHoldsValues(e.Get(v).op)
            then e.Placed(e.Resolve(x)) && EditTerm(e, v).aux[k] == Of(EditTerm(e, e.Resolve(x)))
            else EditTerm(e, v).aux[k] == Lit(x)
  {
    if AuxHoldsValues(e.Get(v).op) {
      assert IsOperand(e.Fn(), e.Get(v), e.aux[e.Get(v).aux + k]);
      UseResolves(e, v, e.aux[e.Get(v).aux + k]);
    }
  }

  /** The compacting commit preserves meaning: the term at a new position is the term that the
      id placed there had under the recorded edits. */
  lemma {:induction false} CommitPreservesTerm(e: Edits, p: nat)
    requires e.Contract() && p < |Layout(e)|
    ensures Dense(Committed(e)) && FuncTerm(Committed(e), p) == EditTerm(e, PlacedAt(e, p))
  {
    CommitIsDense(e);
    forall q | 0 <= q < p
      ensures FuncTerm(Committed(e), q) == EditTerm(e, PlacedAt(e, q))
    {
      CommitPreservesTerm(e, q);
    }
    var was, now := EditTerm(e, PlacedAt(e, p)), FuncTerm(Committed(e), p);
    forall a | 0 <= a < 4
      ensures now.args[a] == was.args[a]
    {
      ArgAgrees(e, p, a);
    }
    forall k | 0 <= k < |was.aux|
      ensures now.aux[k] == was.aux[k]
    {
      SlotAgrees(e, p, k);
    }
    assert now.args == was.args;
    assert now.aux == was.aux;
  }

  /** An id that survives, or was replaced by something that does, keeps its term. */
  lemma {:induction false} ValueKeepsTerm(e: Edits, v: nat)
    requires e.Contract() && v < e.Total() && e.Placed(e.Resolve(v))
    ensures Dense(Committed(e)) && FinalId(e, v) < |Committed(e).insts|
    ensures FuncTerm(Committed(e), FinalId(e, v)) == EditTerm(e, e.Resolve(v))
  {
    CommitPreservesTerm(e, FinalId(e, v));
  }

  /** No nop is left, unless one was inserted. */
  lemma {:induction false} CommitDropsNops(e: Edits, p: nat)
    requires e.Contract() && p < |Layout(e)| && forall k :: 0 <= k < |e.added| ==> !e.added[k].op.Nop?
    ensures !Committed(e).insts[p].op.Nop?
  {
    assert Committed(e).insts[p].op == e.Get(PlacedAt(e, p)).op;
  }

  /** Positions keep the order, and an insert stands directly before its anchor: only inserts at
      the same anchor come between. */
  lemma {:induction false} CommitKeepsOrder(e: Edits, u: nat, v: nat)
    requires e.Contract() && e.Placed(u) && e.Placed(v)
    ensures FinalId(e, u) < |Committed(e).insts| && Committed(e).insts[FinalId(e, u)].op == e.Get(u).op
    ensures e.Before(u, v) <==> FinalId(e, u) < FinalId(e, v)
    ensures e.Base() <= u && v == e.anchor[u - e.Base()] ==>
              forall p :: FinalId(e, u) <= p < FinalId(e, v) ==>
                e.Base() <= PlacedAt(e, p) && e.anchor[PlacedAt(e, p) - e.Base()] == v
  {
    PositionsOrdered(e, u, v);
    if e.Base() <= u && v == e.anchor[u - e.Base()] {
      forall p | FinalId(e, u) <= p < FinalId(e, v)
        ensures e.Base() <= PlacedAt(e, p) && e.anchor[PlacedAt(e, p) - e.Base()] == v
      {
        var w := PlacedAt(e, p);
        LayoutPosition(e, p);
        PositionsOrdered(e, u, w);
        PositionsOrdered(e, w, v);
        BeforeIsStrictOrder(e, u, w, v);
      }
    }
  }
}
