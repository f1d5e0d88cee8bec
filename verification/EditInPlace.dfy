/** Committing without inserts: killed and replaced instructions become nops and operands are
    redirected where they stand. The shortcuts that skip part of the walk, and a later
    compaction, end up where the full work would have. */
module EditInPlace {
  import opened Ir
  import opened EditModel
  import opened EditMeaning

  ghost function RedirectId(e: Edits, x: nat): nat
    requires e.ChainsOk()
  {
    if x < e.Base() then e.Resolve(x) else x
  }

  function NopOf(inst: Inst): Inst {
    inst.(op := Nop, typ := NONE, auxCount := 0)
  }

  ghost function RedirectArgs(e: Edits, inst: Inst): (args: seq<nat>)
    requires e.ChainsOk()
    ensures |args| == 4
    ensures forall a :: 0 <= a < 4 ==>
              args[a] == if a in ValueArgMask(inst) then RedirectId(e, inst.args[a]) else inst.args[a]
  {
    seq<nat>(4, a requires 0 <= a < 4 => if a in ValueArgMask(inst) then RedirectId(e, inst.args[a]) else inst.args[a])
  }

  ghost function RedirectInst(e: Edits, i: nat): Inst
    requires e.ChainsOk() && i < e.Base()
  {
    if e.repl[i] != 0 then NopOf(e.insts[i])
    else if e.insts[i].op.Nop? then e.insts[i]
    else e.insts[i].(args := RedirectArgs(e, e.insts[i]))
  }

  /** Slot s of the pool holds a value operand of live instruction i. */
  predicate HoldsOperand(e: Edits, i: nat, s: nat)
    requires e.Shaped()
  {
    i < e.Base() && e.Live(i) && AuxHoldsValues(e.insts[i].op) &&
    e.insts[i].aux <= s < e.insts[i].aux + e.insts[i].auxCount
  }

  /** Slot s holds a value operand of some live instruction from `from` on, below `to`. */
  ghost predicate Redirectable(e: Edits, from: nat, to: nat, s: nat)
    requires e.Shaped()
  {
    exists i :: from <= i < to && HoldsOperand(e, i, s)
  }

  ghost function RedirectAux(e: Edits): (aux: seq<nat>)
    requires e.ChainsOk()
    ensures |aux| == |e.aux|
    ensures forall s :: 0 <= s < |aux| ==>
              aux[s] == if Redirectable(e, 0, e.Base(), s) then RedirectId(e, e.aux[s]) else e.aux[s]
  {
    seq<nat>(|e.aux|, s requires 0 <= s < |e.aux| =>
      if Redirectable(e, 0, e.Base(), s) then RedirectId(e, e.aux[s]) else e.aux[s])
  }

  /** The whole walk: every instruction and every operand list visited. */
  ghost function Redirected(e: Edits): Func
    requires e.ChainsOk()
  {
    Func(seq(e.Base(), i requires 0 <= i < e.Base() => RedirectInst(e, i)), RedirectAux(e))
  }

  /** Every value operand of live instruction i already names a value that is kept. */
  ghost predicate ResolvedAt(e: Edits, i: nat)
    requires e.Shaped() && i < e.Base()
  {
    e.Live(i) ==> forall x: nat :: IsOperand(e.Fn(), e.insts[i], x) && x < e.Base() ==> e.repl[x] == 0
  }

  ghost predicate AllResolved(e: Edits) {
    e.Shaped() && forall i :: 0 <= i < e.Base() ==> ResolvedAt(e, i)
  }

  // ----- the shortcuts -----

  lemma {:induction false} ResolvedInstStays(e: Edits, i: nat)
    requires e.ChainsOk() && i < e.Base() && ResolvedAt(e, i) && e.repl[i] == 0
    ensures RedirectInst(e, i) == e.insts[i]
  {
    var inst := e.insts[i];
    if !inst.op.Nop? {
      forall a | 0 <= a < 4
        ensures RedirectArgs(e, inst)[a] == inst.args[a]
      {
        if a in ValueArgMask(inst) {
          assert IsOperand(e.Fn(), inst, inst.args[a]);
        }
      }
      assert RedirectArgs(e, inst) == inst.args;
    }
  }

  lemma {:induction false} ResolvedAuxStays(e: Edits)
    requires e.ChainsOk() && AllResolved(e)
    ensures RedirectAux(e) == e.aux
  {
    forall s | 0 <= s < |e.aux|
      ensures RedirectAux(e)[s] == e.aux[s]
    {
      if Redirectable(e, 0, e.Base(), s) {
        var i: nat :| i < e.Base() && HoldsOperand(e, i, s);
        assert ResolvedAt(e, i);
        assert IsOperand(e.Fn(), e.insts[i], e.aux[s]);
      }
    }
  }

  /** Once every operand is resolved, redirecting is only turning the dead into nops. */
  lemma {:induction false} ResolvedNeedsOnlyNops(e: Edits)
    requires e.ChainsOk() && AllResolved(e)
    ensures Redirected(e).aux == e.aux
    ensures forall i :: 0 <= i < e.Base() ==>
              Redirected(e).insts[i] == if e.repl[i] != 0 then NopOf(e.insts[i]) else e.insts[i]
  {
    ResolvedAuxStays(e);
    forall i | 0 <= i < e.Base() && e.repl[i] == 0
      ensures Redirected(e).insts[i] == e.insts[i]
    {
      assert ResolvedAt(e, i);
      ResolvedInstStays(e, i);
    }
  }

  /** With kills alone, no surviving user names a changed id. */
  lemma {:induction false} KillsLeaveOperandsAlone(e: Edits)
    requires e.Contract()
    requires forall i :: 0 <= i < e.Base() ==> e.repl[i] == 0 || e.repl[i] == NONE
    ensures AllResolved(e)
  {
    forall i, x: nat | 0 <= i < e.Base() && e.Live(i) && IsOperand(e.Fn(), e.insts[i], x) && x < e.Base()
      ensures e.repl[x] == 0
    {
      assert e.Get(i) == e.insts[i];
      assert e.UseOk(i, x);
    }
  }

  /** Nothing below the lowest changed id can name a changed one. */
  lemma {:induction false} BelowLowestIsResolved(e: Edits, lowest: nat, i: nat)
    requires e.Contract() && e.added == [] && i < lowest <= e.Base()
    requires forall j :: 0 <= j < lowest ==> e.repl[j] == 0
    ensures ResolvedAt(e, i)
  {
    forall x: nat | e.Live(i) && IsOperand(e.Fn(), e.insts[i], x) && x < e.Base()
      ensures e.repl[x] == 0
    {
      assert e.Get(i) == e.insts[i];
      assert e.UseOk(i, x);
    }
  }

  /** Walking from `lowest` redirects the same slots as walking from the start. */
  lemma {:induction false} SlotsBelowLowest(e: Edits, lowest: nat, s: nat)
    requires e.Contract() && e.added == [] && lowest <= e.Base() && s < |e.aux|
    requires forall j :: 0 <= j < lowest ==> e.repl[j] == 0
    ensures RedirectAux(e)[s] == if Redirectable(e, lowest, e.Base(), s) then RedirectId(e, e.aux[s]) else e.aux[s]
  {
    if Redirectable(e, 0, e.Base(), s) && !Redirectable(e, lowest, e.Base(), s) {
      var i: nat :| i < e.Base() && HoldsOperand(e, i, s);
      BelowLowestIsResolved(e, lowest, i);
      assert IsOperand(e.Fn(), e.insts[i], e.aux[s]);
    }
  }

  // ----- the walk -----

  /** The pool once the instructions from `from` on, below `to`, have been redirected. */
  ghost predicate PoolAfter(e: Edits, from: nat, to: nat, pool: seq<nat>)
    requires e.ChainsOk()
  {
    |pool| == |e.aux| &&
    forall s :: 0 <= s < |pool| ==>
      pool[s] == if Redirectable(e, from, to, s) then RedirectId(e, e.aux[s]) else e.aux[s]
  }

  ghost predicate InstsAfter(e: Edits, from: nat, to: nat, insts: seq<Inst>)
    requires e.ChainsOk()
  {
    |insts| == e.Base() &&
    forall i :: 0 <= i < e.Base() ==> insts[i] == if from <= i < to then RedirectInst(e, i) else e.insts[i]
  }

  lemma {:induction false} RedirectTwice(e: Edits, x: nat)
    requires e.ChainsOk() && e.Base() < NONE
    ensures RedirectId(e, RedirectId(e, x)) == RedirectId(e, x)
  {
  }

  /** Redirecting one more list: a slot it shares with an earlier one stays as it is. */
  lemma {:induction false} PoolGrows(e: Edits, from: nat, i: nat, pool: seq<nat>, next: seq<nat>)
    requires e.ChainsOk() && from <= i < e.Base() && PoolAfter(e, from, i, pool) && |next| == |pool|
    requires forall s :: 0 <= s < |pool| ==>
               next[s] == if HoldsOperand(e, i, s) then RedirectId(e, pool[s]) else pool[s]
    ensures PoolAfter(e, from, i + 1, next)
  {
    forall s | 0 <= s < |pool|
      ensures next[s] == if Redirectable(e, from, i + 1, s) then RedirectId(e, e.aux[s]) else e.aux[s]
    {
      RedirectTwice(e, e.aux[s]);
      if HoldsOperand(e, i, s) {
        assert Redirectable(e, from, i + 1, s);
      } else if Redirectable(e, from, i + 1, s) {
        var j :| from <= j < i + 1 && HoldsOperand(e, j, s);
        assert Redirectable(e, from, i, s);
      }
    }
  }

  /** The finished walk from `lowest` is the whole one. */
  lemma {:induction false} WalkIsWhole(e: Edits, lowest: nat, insts: seq<Inst>, pool: seq<nat>)
    requires e.Contract() && e.added == [] && lowest <= e.Base() == |insts|
    requires forall j :: 0 <= j < lowest ==> e.repl[j] == 0
    requires InstsAfter(e, lowest, e.Base(), insts) && PoolAfter(e, lowest, e.Base(), pool)
    ensures Func(insts, pool) == Redirected(e)
  {
    forall i | 0 <= i < lowest
      ensures insts[i] == RedirectInst(e, i)
    {
      BelowLowestIsResolved(e, lowest, i);
      ResolvedInstStays(e, i);
    }
    forall s | 0 <= s < |pool|
      ensures pool[s] == RedirectAux(e)[s]
    {
      SlotsBelowLowest(e, lowest, s);
    }
    assert pool == RedirectAux(e);
    assert insts == Redirected(e).insts;
  }

  // ----- in place now, compacted later -----

  predicate HoldsLiteral(e: Edits, i: nat, s: nat)
    requires e.Shaped()
  {
    i < e.Base() && e.Live(i) && !AuxHoldsValues(e.insts[i].op) &&
    e.insts[i].aux <= s < e.insts[i].aux + e.insts[i].auxCount
  }

  /** No list of literals shares slots with a list of operands. */
  ghost predicate ListsSeparate(e: Edits)
    requires e.Shaped()
  {
    forall i, s: nat :: 0 <= i < e.Base() && HoldsLiteral(e, i, s) ==> !Redirectable(e, 0, e.Base(), s)
  }

  /** A slot that holds a literal and also an operand holds one that is not replaced. */
  ghost predicate LiteralsStay(e: Edits)
    requires e.ChainsOk()
  {
    forall i, s: nat :: 0 <= i < e.Base() && HoldsLiteral(e, i, s) ==> SlotStays(e, s)
  }

  ghost predicate SlotStays(e: Edits, s: nat)
    requires e.ChainsOk()
  {
    s < |e.aux| && (Redirectable(e, 0, e.Base(), s) ==> RedirectId(e, e.aux[s]) == e.aux[s])
  }

  lemma {:induction false} SeparateStay(e: Edits)
    requires e.Contract() && ListsSeparate(e)
    ensures LiteralsStay(e)
  {
    forall i, s: nat | 0 <= i < e.Base() && HoldsLiteral(e, i, s)
      ensures SlotStays(e, s)
    {
      assert e.Placed(i) && AuxInPool(e.Fn(), e.Get(i));
    }
  }

  /** A fresh edit over the function an in-place commit left. */
  ghost function After(e: Edits): Edits
    requires e.ChainsOk()
  {
    Edits(Redirected(e).insts, Redirected(e).aux, seq(e.Base(), _ => 0), [], [])
  }

  lemma {:induction false} AfterShape(e: Edits)
    requires e.Contract() && e.added == []
    ensures var f := After(e);
            f.ChainsOk() && f.Total() == e.Total() && Layout(f) == Layout(e) &&
            (forall v: nat :: f.Placed(v) <==> e.Placed(v)) &&
            (forall v: nat :: f.Resolve(v) == v) &&
            (forall u, v: nat :: 0 <= u < e.Base() && v < e.Base() ==> f.Before(u, v) == e.Before(u, v))
  {
    SameLayout(e, e.Base());
  }

  lemma {:induction false} SameLayout(e: Edits, i: nat)
    requires e.Contract() && e.added == [] && i <= e.Base() && After(e).Shaped()
    ensures LayoutTo(After(e), i) == LayoutTo(e, i)
    ensures InsertsAt(After(e), i) == InsertsAt(e, i) == []
  {
    if i > 0 {
      SameLayout(e, i - 1);
      assert After(e).Live(i - 1) == e.Live(i - 1);
    }
  }

  lemma {:induction false} UsesAreOk(e: Edits, i: nat, a: nat)
    requires e.Contract() && i < e.Base() && e.Live(i) && a < 4 && a in ValueArgMask(e.insts[i])
    ensures e.UseOk(i, e.insts[i].args[a])
  {
    assert e.Get(i) == e.insts[i];
    assert IsOperand(e.Fn(), e.insts[i], e.insts[i].args[a]);
  }

  lemma {:induction false} RedirectKeepsMask(e: Edits, i: nat)
    requires e.Contract() && e.added == [] && i < e.Base() && e.Live(i)
    ensures ValueArgMask(e.insts[i].(args := RedirectArgs(e, e.insts[i]))) == ValueArgMask(e.insts[i])
  {
    var inst := e.insts[i];
    if 0 in ValueArgMask(inst) {
      UsesAreOk(e, i, 0);
    }
  }

  /** A live instruction after the in-place commit: same layout, operands seen through. */
  lemma {:induction false} AfterInst(e: Edits, i: nat)
    requires e.Contract() && e.added == [] && i < e.Base() && e.Live(i)
    ensures After(e).insts[i] == e.insts[i].(args := RedirectArgs(e, e.insts[i]))
    ensures ValueArgMask(After(e).insts[i]) == ValueArgMask(e.insts[i])
    ensures forall a :: 0 <= a < 4 && a in ValueArgMask(e.insts[i]) ==>
              e.UseOk(i, e.insts[i].args[a]) && After(e).insts[i].args[a] == e.Resolve(e.insts[i].args[a])
  {
    RedirectKeepsMask(e, i);
    forall a | 0 <= a < 4 && a in ValueArgMask(e.insts[i])
      ensures e.UseOk(i, e.insts[i].args[a])
    {
      UsesAreOk(e, i, a);
    }
  }

  lemma {:induction false} AfterSlot(e: Edits, i: nat, s: nat)
    requires e.Contract() && e.added == [] && i < e.Base() && e.Live(i)
    requires e.insts[i].aux <= s < e.insts[i].aux + e.insts[i].auxCount
    ensures s < |e.aux| == |After(e).aux|
    ensures if AuxHoldsValues(e.insts[i].op)
            then e.UseOk(i, e.aux[s]) && After(e).aux[s] == e.Resolve(e.aux[s])
            else LiteralsStay(e) ==> After(e).aux[s] == e.aux[s]
  {
    assert e.Get(i) == e.insts[i];
    assert AuxInPool(e.Fn(), e.Get(i));
    if AuxHoldsValues(e.insts[i].op) {
      assert HoldsOperand(e, i, s);
      assert IsOperand(e.Fn(), e.insts[i], e.aux[s]);
    } else {
      assert HoldsLiteral(e, i, s);
    }
  }

  lemma {:induction false} AfterUse(e: Edits, i: nat, y: nat)
    requires e.Contract() && e.added == [] && i < e.Base() && e.Live(i)
    requires After(e).ChainsOk()
    requires IsOperand(After(e).Fn(), After(e).insts[i], y)
    ensures exists x: nat :: e.UseOk(i, x) && y == e.Resolve(x)
  {
    AfterInst(e, i);
    var f := After(e);
    var inst := f.insts[i];
    if a :| a in ValueArgMask(inst) && a < 4 && inst.args[a] == y {
      assert e.UseOk(i, e.insts[i].args[a]);
    } else {
      var s :| inst.aux <= s < inst.aux + inst.auxCount && s < |f.aux| && f.aux[s] == y;
      AfterSlot(e, i, s);
    }
  }

  lemma {:induction false} AfterMeetsContract(e: Edits)
    requires e.Contract() && e.added == []
    ensures After(e).Contract()
  {
    var f := After(e);
    AfterShape(e);
    forall v | 0 <= v < f.Total() && f.Placed(v)
      ensures AuxInPool(f.Fn(), f.Get(v))
      ensures forall y: nat :: IsOperand(f.Fn(), f.Get(v), y) ==> f.UseOk(v, y)
    {
      assert e.Placed(v);
      AfterInst(e, v);
      assert AuxInPool(e.Fn(), e.Get(v));
      forall y: nat | IsOperand(f.Fn(), f.Get(v), y)
        ensures f.UseOk(v, y)
      {
        AfterUse(e, v, y);
        var x: nat :| e.UseOk(v, x) && y == e.Resolve(x);
        UseResolves(e, v, x);
      }
    }
  }

  lemma {:induction false} SamePosition(e: Edits, v: nat)
    requires e.Contract() && e.added == [] && e.Placed(v) && After(e).Contract()
    ensures After(e).Placed(v) && PosOf(After(e), v) == PosOf(e, v)
  {
    AfterShape(e);
    LayoutPosition(e, PosOf(After(e), v));
  }

  lemma {:induction false} SameArg(e: Edits, i: nat, a: nat)
    requires e.Contract() && e.added == [] && i < e.Base() && e.Live(i) && After(e).Contract() && a < 4
    ensures MoveArgs(After(e), After(e).insts[i])[a] == MoveArgs(e, e.insts[i])[a]
  {
    AfterInst(e, i);
    if a in ValueArgMask(e.insts[i]) {
      SameFinal(e, i, e.insts[i].args[a]);
    }
  }

  lemma {:induction false} SameSlot(e: Edits, i: nat, k: nat)
    requires e.Contract() && e.added == [] && LiteralsStay(e) && i < e.Base() && e.Live(i) && After(e).Contract()
    requires k < e.insts[i].auxCount
    ensures e.insts[i].aux + k < |e.aux| == |After(e).aux|
    ensures MoveSlot(After(e), e.insts[i].op, After(e).aux[e.insts[i].aux + k]) ==
            MoveSlot(e, e.insts[i].op, e.aux[e.insts[i].aux + k])
  {
    AfterSlot(e, i, e.insts[i].aux + k);
    if AuxHoldsValues(e.insts[i].op) {
      SameFinal(e, i, e.aux[e.insts[i].aux + k]);
    }
  }

  /** Both routes give one instruction the same operands. */
  lemma {:induction false} SameMove(e: Edits, i: nat, at: nat)
    requires e.Contract() && e.added == [] && LiteralsStay(e) && i < e.Base() && e.Live(i)
    requires After(e).Contract()
    ensures MoveInst(After(e), After(e).insts[i], at) == MoveInst(e, e.insts[i], at)
    ensures AuxInPool(e.Fn(), e.insts[i]) && AuxInPool(After(e).Fn(), After(e).insts[i])
    ensures MoveAux(After(e), After(e).insts[i]) == MoveAux(e, e.insts[i])
  {
    var inst, now := e.insts[i], After(e).insts[i];
    AfterShape(e);
    AfterInst(e, i);
    assert e.Placed(i) && e.Get(i) == inst && AuxInPool(e.Fn(), e.Get(i));
    assert After(e).Get(i) == now && AuxInPool(After(e).Fn(), After(e).Get(i));
    forall a | 0 <= a < 4
      ensures MoveArgs(After(e), now)[a] == MoveArgs(e, inst)[a]
    {
      SameArg(e, i, a);
    }
    assert MoveArgs(After(e), now) == MoveArgs(e, inst);
    SlotsAgree(e, After(e), i);
    SlotsMakeLists(e, After(e), inst, now);
  }

  lemma {:induction false} SlotsAgree(e: Edits, f: Edits, i: nat)
    requires e.Contract() && e.added == [] && LiteralsStay(e) && i < e.Base() && e.Live(i)
    requires f == After(e) && f.Contract() && AuxInPool(e.Fn(), e.insts[i]) && |f.aux| == |e.aux|
    ensures forall s :: e.insts[i].aux <= s < e.insts[i].aux + e.insts[i].auxCount ==>
              MoveSlot(f, e.insts[i].op, f.aux[s]) == MoveSlot(e, e.insts[i].op, e.aux[s])
  {
    forall s | e.insts[i].aux <= s < e.insts[i].aux + e.insts[i].auxCount
      ensures MoveSlot(f, e.insts[i].op, f.aux[s]) == MoveSlot(e, e.insts[i].op, e.aux[s])
    {
      SameSlot(e, i, s - e.insts[i].aux);
    }
  }

  lemma {:induction false} SlotsMakeLists(e: Edits, f: Edits, inst: Inst, now: Inst)
    requires e.ChainsOk() && f.ChainsOk() && AuxInPool(e.Fn(), inst) && AuxInPool(f.Fn(), now)
    requires now.op == inst.op && now.aux == inst.aux && now.auxCount == inst.auxCount
    requires forall s :: inst.aux <= s < inst.aux + inst.auxCount ==>
               MoveSlot(f, inst.op, f.aux[s]) == MoveSlot(e, inst.op, e.aux[s])
    ensures MoveAux(f, now) == MoveAux(e, inst)
  {
    forall k | 0 <= k < inst.auxCount
      ensures MoveAux(f, now)[k] == MoveAux(e, inst)[k]
    {
      assert e.aux[inst.aux + k] == e.aux[inst.aux + k];
      assert MoveAux(f, now)[k] == MoveSlot(f, inst.op, f.aux[inst.aux + k]);
    }
  }

  lemma {:induction false} SameFinal(e: Edits, i: nat, x: nat)
    requires e.Contract() && e.added == [] && i < e.Base() && e.UseOk(i, x) && After(e).Contract()
    ensures FinalId(After(e), e.Resolve(x)) == FinalId(e, x)
  {
    AfterShape(e);
    UseResolves(e, i, x);
    SamePosition(e, e.Resolve(x));
  }

  lemma {:induction false} SamePool(e: Edits, p: nat)
    requires e.Contract() && e.added == [] && LiteralsStay(e) && After(e).Contract()
    requires Layout(After(e)) == Layout(e) && p <= |Layout(e)|
    ensures PackedAux(After(e), p) == PackedAux(e, p)
  {
    if p > 0 {
      SamePool(e, p - 1);
      PackedNext(e, p - 1);
      PackedNext(After(e), p - 1);
      SameMove(e, PlacedAt(e, p - 1), 0);
    }
  }

  /** Committing in place and compacting later gives the function that compacting at once does, exactly
      when no literal shares its slot with an operand that is replaced. */
  lemma {:induction false} InPlaceThenCompact(e: Edits)
    requires e.Contract() && e.added == []
    ensures After(e).Contract()
    ensures Committed(After(e)) == Committed(e) <==> LiteralsStay(e)
  {
    AfterMeetsContract(e);
    if LiteralsStay(e) {
      BothRoutesAgree(e);
    }
    if Committed(After(e)) == Committed(e) {
      HaveTwins(e);
      LiteralsStayed(e, After(e));
      forall i, s: nat | 0 <= i < e.Base() && HoldsLiteral(e, i, s)
        ensures SlotStays(e, s)
      {
        assert SlotKept(e, After(e), s);
        UnchangedStays(e, s);
      }
    }
  }

  /** A literal that is the same in both committed functions is the same in its slot. */
  lemma {:induction false} LiteralsStayed(e: Edits, f: Edits)
    requires e.Contract() && f.Contract() && AllTwins(e, f) && Committed(f) == Committed(e)
    ensures forall i, s: nat :: 0 <= i < e.Base() && HoldsLiteral(e, i, s) ==> SlotKept(e, f, s)
  {
    forall i, s: nat | 0 <= i < e.Base() && HoldsLiteral(e, i, s)
      ensures SlotKept(e, f, s)
    {
      assert Twin(e, f, i);
      SameLiteral(e, f, i, s - e.insts[i].aux);
    }
  }

  predicate SlotKept(e: Edits, f: Edits, s: nat) {
    s < |e.aux| && s < |f.aux| && f.aux[s] == e.aux[s]
  }

  ghost predicate AllTwins(e: Edits, f: Edits)
    requires e.Shaped()
  {
    forall i: nat {:trigger Twin(e, f, i)} :: i < e.Base() && e.Live(i) ==> Twin(e, f, i)
  }

  ghost predicate Twin(e: Edits, f: Edits, i: nat) {
    Twins(e, f, i)
  }

  lemma {:induction false} UnchangedStays(e: Edits, s: nat)
    requires e.ChainsOk() && s < |e.aux| && After(e).aux[s] == e.aux[s]
    ensures SlotStays(e, s)
  {
  }

  /** i is placed in the same way in both functions. */
  ghost predicate Twins(e: Edits, f: Edits, i: nat) {
    && e.Contract() && f.Contract() && i < e.Base() && i < f.Base() && e.Placed(i) && f.Placed(i)
    && PosOf(e, i) == PosOf(f, i)
    && e.insts[i].op == f.insts[i].op && e.insts[i].aux == f.insts[i].aux && e.insts[i].auxCount == f.insts[i].auxCount
  }

  lemma {:induction false} HaveTwins(e: Edits)
    requires e.Contract() && e.added == [] && After(e).Contract()
    ensures AllTwins(e, After(e))
  {
    forall i: nat | i < e.Base() && e.Live(i)
      ensures Twin(e, After(e), i)
    {
      IsTwin(e, i);
    }
  }

  lemma {:induction false} IsTwin(e: Edits, i: nat)
    requires e.Contract() && e.added == [] && After(e).Contract() && i < e.Base() && e.Live(i)
    ensures Twin(e, After(e), i)
  {
    AfterInst(e, i);
    assert e.Placed(i);
    SamePosition(e, i);
  }

  lemma {:induction false} SameLiteral(e: Edits, f: Edits, i: nat, k: nat)
    requires Twins(e, f, i) && k < e.insts[i].auxCount && !AuxHoldsValues(e.insts[i].op) && Committed(f) == Committed(e)
    ensures var s := e.insts[i].aux + k; s < |e.aux| && s < |f.aux| && f.aux[s] == e.aux[s]
  {
    LiteralKept(e, i, e.insts[i], PosOf(e, i), k);
    LiteralKept(f, i, f.insts[i], PosOf(e, i), k);
  }

  /** Where a literal goes. */
  lemma {:induction false} LiteralKept(e: Edits, i: nat, inst: Inst, p: nat, k: nat)
    requires e.Contract() && e.Placed(i) && i < e.Base() && inst == e.insts[i] && p == PosOf(e, i)
    requires k < inst.auxCount && !AuxHoldsValues(inst.op)
    ensures p < |Committed(e).insts| && inst.aux + k < |e.aux| && Committed(e).insts[p].aux + k < |Committed(e).aux|
    ensures Committed(e).aux[Committed(e).insts[p].aux + k] == e.aux[inst.aux + k]
  {
    assert e.Get(i) == inst && PlacedAt(e, p) == i;
    SlotMoved(e, p, k);
  }

  lemma {:induction false} BothRoutesAgree(e: Edits)
    requires e.Contract() && e.added == [] && LiteralsStay(e) && After(e).Contract()
    ensures Committed(After(e)) == Committed(e)
  {
    AfterShape(e);
    var f := After(e);
    SamePool(e, |Layout(e)|);
    forall p | 0 <= p < |Layout(e)|
      ensures Committed(f).insts[p] == Committed(e).insts[p]
    {
      SamePool(e, p);
      SameMove(e, PlacedAt(e, p), |PackedAux(e, p)|);
    }
    assert Committed(f).insts == Committed(e).insts;
  }
}
