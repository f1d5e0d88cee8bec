/** Who owns which slots of the operand pool: no list of literals shares a slot with a list of operands,
    because edits give every list slots of its own and commits keep it so; and what sharing would do. */
module EditLists {
  import opened Ir
  import opened EditModel
  import opened EditMeaning
  import opened EditInPlace
  import opened EditBuffer

  /** Slot s belongs to the list of v, which is part of the committed function. */
  predicate Owns(e: Edits, v: nat, s: nat)
    requires e.Shaped()
  {
    e.Placed(v) && e.Get(v).aux <= s < e.Get(v).aux + e.Get(v).auxCount
  }

  ghost predicate ListsApart(e: Edits) {
    e.Shaped() && forall u: nat, v: nat, s: nat {:trigger Owns(e, u, s), Owns(e, v, s)} ::
      Owns(e, u, s) && Owns(e, v, s) ==> AuxHoldsValues(e.Get(u).op) == AuxHoldsValues(e.Get(v).op)
  }

  /** What the in-place commit needs. */
  lemma {:induction false} ApartMeansSeparate(e: Edits)
    requires ListsApart(e)
    ensures ListsSeparate(e)
  {
    forall i, s: nat | 0 <= i < e.Base() && HoldsLiteral(e, i, s)
      ensures !Redirectable(e, 0, e.Base(), s)
    {
      assert Owns(e, i, s);
      forall j | 0 <= j < e.Base()
        ensures !HoldsOperand(e, j, s)
      {
        assert HoldsOperand(e, j, s) ==> Owns(e, j, s);
      }
    }
  }

  /** So both ways of committing agree. */
  lemma {:induction false} ApartCommitsAlike(e: Edits)
    requires e.Contract() && e.added == [] && ListsApart(e)
    ensures After(e).Contract() && Committed(After(e)) == Committed(e)
  {
    ApartMeansSeparate(e);
    SeparateStay(e);
    InPlaceThenCompact(e);
  }

  ghost predicate ListsInPool(e: Edits) {
    e.Shaped() && forall v: nat :: e.Placed(v) ==> AuxInPool(e.Fn(), e.Get(v))
  }

  /** An inserted instruction's list gets new slots. */
  lemma {:induction false} InsertKeepsApart(e: Edits, before: nat, inst: Inst, list: seq<nat>)
    requires ListsApart(e) && ListsInPool(e) && before <= e.Base() && e.Total() + 1 < MAX_IDS
    ensures ListsApart(InsertInto(e, before, inst, list)) && ListsInPool(InsertInto(e, before, inst, list))
  {
    var f := InsertInto(e, before, inst, list);
    forall v: nat, s: nat | Owns(f, v, s)
      ensures if v < e.Total() then Owns(e, v, s) && f.Get(v) == e.Get(v) && s < |e.aux| else s >= |e.aux|
    {
      OldOrNew(e, f, v, s, before, inst, list);
    }
    forall v: nat | f.Placed(v)
      ensures AuxInPool(f.Fn(), f.Get(v))
    {
      if v < e.Total() {
        assert e.Placed(v) && f.Get(v) == e.Get(v);
      }
    }
    forall u: nat, v: nat, s: nat | Owns(f, u, s) && Owns(f, v, s)
      ensures AuxHoldsValues(f.Get(u).op) == AuxHoldsValues(f.Get(v).op)
    {
      if u < e.Total() && v < e.Total() {
        assert Owns(e, u, s) && Owns(e, v, s);
      }
    }
  }

  lemma {:induction false} OldOrNew(e: Edits, f: Edits, v: nat, s: nat, before: nat, inst: Inst, list: seq<nat>)
    requires e.Shaped() && ListsInPool(e) && f == InsertInto(e, before, inst, list) && f.Shaped() && Owns(f, v, s)
    ensures if v < e.Total() then Owns(e, v, s) && f.Get(v) == e.Get(v) && s < |e.aux| else s >= |e.aux|
  {
    if v < e.Total() {
      assert f.Get(v) == e.Get(v) && e.Placed(v);
      assert AuxInPool(e.Fn(), e.Get(v));
    } else {
      assert f.Get(v) == inst.(aux := |e.aux|, auxCount := |list|);
    }
  }

  /** Replacing or killing an instruction frees its list. */
  lemma {:induction false} DyingKeepsApart(e: Edits, id: nat, r: nat)
    requires ListsApart(e) && id < e.Base() && r != 0
    ensures ListsApart(e.(repl := e.repl[id := r]))
  {
    var f := e.(repl := e.repl[id := r]);
    forall u: nat, v: nat, s: nat | Owns(f, u, s) && Owns(f, v, s)
      ensures AuxHoldsValues(f.Get(u).op) == AuxHoldsValues(f.Get(v).op)
    {
      assert Owns(e, u, s) && Owns(e, v, s);
    }
  }

  /** A new edit over a function. */
  function Begun(f: Func): Edits {
    Edits(f.insts, f.aux, seq(|f.insts|, _ => 0), [], [])
  }

  /** After an in-place commit every list is where it was, or gone. */
  lemma {:induction false} InPlaceKeepsApart(e: Edits)
    requires e.ChainsOk() && e.added == [] && ListsApart(e)
    ensures ListsApart(Begun(Redirected(e)))
  {
    var f := Begun(Redirected(e));
    forall u: nat, v: nat, s: nat | Owns(f, u, s) && Owns(f, v, s)
      ensures AuxHoldsValues(f.Get(u).op) == AuxHoldsValues(f.Get(v).op)
    {
      assert Owns(e, u, s) && Owns(e, v, s);
    }
  }

  lemma {:induction false} ListsAscend(e: Edits, p: nat, q: nat)
    requires e.Contract() && p < q < |Layout(e)|
    ensures Committed(e).insts[p].aux + Committed(e).insts[p].auxCount <= Committed(e).insts[q].aux
  {
    ListsContiguous(e, q);
    if p < q - 1 {
      ListsAscend(e, p, q - 1);
    }
  }

  /** After a compacting commit no two lists share a slot at all. */
  lemma {:induction false} CompactingSeparates(e: Edits, p: nat, q: nat, s: nat)
    requires e.Contract() && p < |Layout(e)| && q < |Layout(e)|
    requires var c := Committed(e).insts;
             c[p].aux <= s < c[p].aux + c[p].auxCount && c[q].aux <= s < c[q].aux + c[q].auxCount
    ensures p == q
  {
    if p < q {
      ListsAscend(e, p, q);
    } else if q < p {
      ListsAscend(e, q, p);
    }
  }

  lemma {:induction false} CompactingLeavesApart(e: Edits)
    requires e.Contract()
    ensures ListsApart(Begun(Committed(e)))
  {
    LayoutFits(e);
    var f := Begun(Committed(e));
    forall u: nat, v: nat, s: nat | Owns(f, u, s) && Owns(f, v, s)
      ensures AuxHoldsValues(f.Get(u).op) == AuxHoldsValues(f.Get(v).op)
    {
      CompactingSeparates(e, u, v, s);
    }
  }

  // ----- what sharing would do -----

  /** A construct and a switch over one slot, which is an operand to the one and a case to the other;
      the operand is being replaced. */
  function Shared(): (e: Edits)
    ensures IsShared(e)
  {
    var inst := (op: Op, aux: nat, count: nat) => RawInst.Inst(op, 0, [0, 0, 0, NONE], aux, count);
    Edits([inst(Const, 0, 0), inst(Const, 0, 0), inst(Construct, 0, 1), inst(Switch, 0, 1)], [1], [0, 1, 0, 0], [], [])
  }

  predicate IsShared(e: Edits) {
    && |e.insts| == 4 && e.aux == [1] && e.repl == [0, 1, 0, 0] && e.added == [] && e.anchor == []
    && e.insts[0] == e.insts[1] == RawInst.Inst(Const, 0, [0, 0, 0, NONE], 0, 0)
    && e.insts[2] == RawInst.Inst(Construct, 0, [0, 0, 0, NONE], 0, 1)
    && e.insts[3] == RawInst.Inst(Switch, 0, [0, 0, 0, NONE], 0, 1)
  }

  lemma {:induction false} SharedResolves(e: Edits)
    requires IsShared(e)
    ensures e.ChainsOk() && e.Resolve(0) == 0 && e.Resolve(1) == 0
  {
    assert e.Replaces(1);
  }

  lemma {:induction false} SharedOperands(e: Edits, v: nat, x: nat)
    requires IsShared(e) && v < 4 && v != 1 && IsOperand(e.Fn(), e.Get(v), x)
    ensures (v == 2 && x == 1) || (v == 3 && x == 0)
  {
  }

  lemma {:induction false} SharedMeetsContract(e: Edits)
    requires IsShared(e)
    ensures e.Contract()
  {
    SharedResolves(e);
    forall v, x: nat | 0 <= v < e.Total() && e.Placed(v) && IsOperand(e.Fn(), e.Get(v), x)
      ensures e.UseOk(v, x)
    {
      SharedOperands(e, v, x);
    }
  }

  /** Redirecting the construct's operand in place changes the switch's case. */
  lemma {:induction false} SharedCaseChanges(e: Edits)
    requires IsShared(e)
    ensures e.ChainsOk() && Redirected(e).aux[0] == 0 != e.aux[0]
  {
    SharedResolves(e);
    assert HoldsOperand(e, 2, 0);
  }

  /** So there both routes differ: an in-place commit and a later compaction give another function. */
  lemma {:induction false} SharingIsUnsafe() returns (e: Edits)
    ensures e.Contract() && e.added == []
    ensures After(e).Contract() && Committed(After(e)) != Committed(e)
  {
    e := Shared();
    SharedMeetsContract(e);
    SharedCaseChanges(e);
    AfterSharedMeetsContract(e);
    CasesDiffer(e);
  }

  lemma {:induction false} AfterSharedMeetsContract(e: Edits)
    requires IsShared(e)
    ensures e.ChainsOk() && After(e).Contract()
  {
    SharedResolves(e);
    SharedCaseChanges(e);
    var f := After(e);
    forall v, x: nat | 0 <= v < f.Total() && f.Placed(v) && IsOperand(f.Fn(), f.Get(v), x)
      ensures f.UseOk(v, x)
    {
      AfterSharedOperands(e, v, x);
    }
  }

  lemma {:induction false} AfterSharedOperands(e: Edits, v: nat, x: nat)
    requires IsShared(e) && e.ChainsOk() && v < 4 && v != 1 && IsOperand(After(e).Fn(), After(e).Get(v), x)
    ensures v >= 2 && x == 0
  {
    SharedCaseChanges(e);
    AfterSharedInst(e, v);
    OneSlotOperand(After(e).Fn(), After(e).Get(v), x);
  }

  lemma {:induction false} AfterSharedInst(e: Edits, v: nat)
    requires IsShared(e) && e.ChainsOk() && v < 4 && v != 1
    ensures After(e).Get(v) == e.Get(v)
  {
    SharedResolves(e);
    ZeroStays(e, e.insts[v]);
  }

  lemma {:induction false} ZeroStays(e: Edits, inst: Inst)
    requires e.ChainsOk() && e.Base() > 0 && e.Resolve(0) == 0 && inst.args == [0, 0, 0, NONE]
    requires inst.op.Const? || inst.op.Construct? || inst.op.Switch?
    ensures RedirectArgs(e, inst) == inst.args
  {
    assert ValueArgMask(inst) <= {0};
  }

  lemma {:induction false} OneSlotOperand(f: Func, inst: Inst, x: nat)
    requires f.aux == [0] && inst.args == [0, 0, 0, NONE] && inst.aux == 0 && inst.auxCount <= 1 && IsOperand(f, inst, x)
    requires inst.op.Const? || inst.op.Construct? || inst.op.Switch?
    ensures !inst.op.Const? && x == 0
  {
  }

  lemma {:induction false} CasesDiffer(e: Edits)
    requires IsShared(e) && e.Contract() && After(e).Contract()
    ensures Committed(After(e)) != Committed(e)
  {
    SharedCaseChanges(e);
    LastCase(e, 1);
    LastCase(After(e), 0);
  }

  /** The switch comes last, and its case is what its slot holds. */
  lemma {:induction false} LastCase(e: Edits, literal: nat)
    requires e.Contract() && |e.insts| == 4 && e.added == [] && e.Live(3) && e.insts[3].op.Switch?
    requires e.insts[3].aux == 0 && e.insts[3].auxCount == 1 && |e.aux| == 1 && e.aux[0] == literal
    ensures Committed(e).aux != [] && Committed(e).aux[|Committed(e).aux| - 1] == literal
  {
    assert InsertsAt(e, 4) == [] && Layout(e) == LayoutTo(e, 4);
    var p := |Layout(e)| - 1;
    assert PlacedAt(e, p) == 3;
    ListsContiguous(e, p);
    SlotMoved(e, p, 0);
  }
}
