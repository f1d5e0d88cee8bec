/** What acceptance means without an exception for declarations: hoisting keeps it in both directions, and
    in the runs of the hoisted function every operand has been computed. */
module HoistedSafety {
  import opened Ir
  import opened ControlFlow
  import opened Verifier
  import opened Machine
  import opened RunSafety
  import opened EditModel
  import opened EditMeaning
  import opened Hoisting
  import opened HoistedStacks

  // ----- markers -----

  /** The markers of a frame are live. */
  lemma {:induction false} FrameIsLive(f: Func, i: nat, d: nat)
    requires Hoistable(f) && i <= |f.insts| && d < |StackAt(f.insts, i)|
    ensures var g := StackAt(f.insts, i)[d];
            g.construct < |f.insts| && g.arm < |f.insts| && Hoist(f).Live(g.construct) && Hoist(f).Live(g.arm)
  {
    FramesSound(f.insts, i, d);
  }

  lemma {:induction false} PlaceIsInjective(f: Func, a: nat, b: nat)
    requires |f.insts| + Count(f) < MAX_IDS && a < |f.insts| && b < |f.insts| && Hoist(f).Live(a) && Hoist(f).Live(b)
    requires NewAt(f, a) == NewAt(f, b)
    ensures a == b
  {
    if a < b { NewAtGrows(f, a, b); } else if b < a { NewAtGrows(f, b, a); }
  }

  lemma {:induction false} FrameMovesBack(f: Func, x: nat, i: nat, d: nat)
    requires Hoistable(f) && x <= |f.insts| && i <= |f.insts| && d < |StackAt(f.insts, x)| && d < |StackAt(f.insts, i)|
    requires Moved(f, StackAt(f.insts, x))[d] == Moved(f, StackAt(f.insts, i))[d]
    ensures StackAt(f.insts, x)[d] == StackAt(f.insts, i)[d]
  {
    FrameIsLive(f, x, d);
    FrameIsLive(f, i, d);
    PlaceIsInjective(f, StackAt(f.insts, x)[d].construct, StackAt(f.insts, i)[d].construct);
    PlaceIsInjective(f, StackAt(f.insts, x)[d].arm, StackAt(f.insts, i)[d].arm);
  }

  lemma {:induction false} PrefixMoves(f: Func, x: nat, i: nat)
    requires Hoistable(f) && x <= |f.insts| && i <= |f.insts|
    ensures StackAt(f.insts, x) <= StackAt(f.insts, i) <==> Moved(f, StackAt(f.insts, x)) <= Moved(f, StackAt(f.insts, i))
  {
    var s, t := StackAt(f.insts, x), StackAt(f.insts, i);
    if s <= t {
      assert forall d :: 0 <= d < |s| ==> s[d] == t[d];
    }
    if Moved(f, s) <= Moved(f, t) {
      forall d | 0 <= d < |s|
        ensures s[d] == t[d]
      {
        assert Moved(f, s)[d] == Moved(f, t)[d];
        FrameMovesBack(f, x, i, d);
      }
    }
  }

  lemma {:induction false} InnermostMoves(f: Func, i: nat, op: Op)
    requires Hoistable(f) && i < |f.insts| && Hoist(f).Live(i) && NewAt(f, i) < |Hoisted(f).insts|
    ensures InnermostIs(Hoisted(f).insts, NewAt(f, i), op) <==> InnermostIs(f.insts, i, op)
  {
    StackMoves(f, i);
    var st := StackAt(f.insts, i);
    if st != [] {
      LastMoves(f, i, Last(st).construct);
    }
  }

  lemma {:induction false} LastMoves(f: Func, i: nat, c: nat)
    requires Hoistable(f) && i < |f.insts| && StackAt(f.insts, i) != [] && c == Last(StackAt(f.insts, i)).construct
    ensures c < |f.insts| && Last(Moved(f, StackAt(f.insts, i))).construct == NewAt(f, c) < |Hoisted(f).insts|
    ensures Hoisted(f).insts[NewAt(f, c)].op == f.insts[c].op
  {
    FrameIsLive(f, i, |StackAt(f.insts, i)| - 1);
    LiveOp(f, c);
  }

  lemma {:induction false} TargetMoves(f: Func, i: nat, only: bool)
    requires Hoistable(f) && i < |f.insts| && Hoist(f).Live(i) && NewAt(f, i) < |Hoisted(f).insts|
    ensures HasTarget(Hoisted(f).insts, NewAt(f, i), only) <==> HasTarget(f.insts, i, only)
  {
    StackMoves(f, i);
    var st := StackAt(f.insts, i);
    forall d | 0 <= d < |st|
      ensures st[d].construct < |f.insts| && Moved(f, st)[d].construct < |Hoisted(f).insts|
      ensures Hoisted(f).insts[Moved(f, st)[d].construct].op == f.insts[st[d].construct].op
    {
      FrameIsLive(f, i, d);
      LiveOp(f, st[d].construct);
    }
  }

  lemma {:induction false} MarkerMoves(f: Func, i: nat)
    requires Hoistable(f) && i < |f.insts| && Hoist(f).Live(i) && NewAt(f, i) < |Hoisted(f).insts|
    ensures MarkerOk(Hoisted(f).insts, NewAt(f, i)) <==> MarkerOk(f.insts, i)
  {
    LiveOp(f, i);
    InnermostMoves(f, i, If);
    InnermostMoves(f, i, Loop);
    InnermostMoves(f, i, Switch);
    TargetMoves(f, i, false);
    TargetMoves(f, i, true);
  }

  // ----- operands -----

  /** Where the operand x of instruction i goes. */
  lemma {:induction false} OperandGoes(f: Func, i: nat, x: nat)
    requires Hoistable(f) && i < |f.insts| && Hoist(f).Live(i) && IsOperand(f, f.insts[i], x)
    ensures Hoist(f).ChainsOk() && x < i && FinalId(Hoist(f), x) < |Hoisted(f).insts|
    ensures var y := FinalId(Hoist(f), x);
            && Hoisted(f).insts[y].op == f.insts[x].op && Hoisted(f).insts[y].typ == f.insts[x].typ
            && if IsDeclared(f.insts[x].op) then y < Count(f) else Hoist(f).Live(x) && y == NewAt(f, x)
  {
    var e := Hoist(f);
    HoistMeetsContract(f);
    assert HoistableAt(f, i);
    HoistResolves(f, x);
    var y := FinalId(e, x);
    LayoutPosition(e, y);
    if IsDeclared(f.insts[x].op) { FrontIsInserts(f, y); } else { LiveGoes(f, x); }
  }

  lemma {:induction false} OperandForth(f: Func, i: nat, x: nat)
    requires Hoistable(f) && i < |f.insts| && Hoist(f).Live(i) && IsOperand(f, f.insts[i], x)
    ensures Hoist(f).ChainsOk() && NewAt(f, i) < |Hoisted(f).insts|
    ensures IsOperand(Hoisted(f), Hoisted(f).insts[NewAt(f, i)], FinalId(Hoist(f), x))
  {
    HoistMeetsContract(f);
    LiveGoes(f, i);
    MovedTo(Hoist(f), NewAt(f, i), f.insts[i], x);
  }

  /** What an operand is in the committed function. */
  lemma {:induction false} MovedTo(e: Edits, p: nat, inst: Inst, x: nat)
    requires e.Contract() && p < |Layout(e)| && inst == e.Get(PlacedAt(e, p)) && IsOperand(e.Fn(), inst, x)
    ensures IsOperand(Committed(e), CommittedInst(e, p), FinalId(e, x))
  {
    MaskKept(e, p);
    if a :| a in ValueArgMask(inst) && a < 4 && inst.args[a] == x {
      ArgMoved(e, p, a);
    } else {
      var k :| inst.aux <= k < inst.aux + inst.auxCount && k < |e.aux| && e.aux[k] == x;
      SlotMovedTo(e, p, inst, k - inst.aux);
    }
  }

  lemma {:induction false} SlotMovedTo(e: Edits, p: nat, inst: Inst, k: nat)
    requires e.Contract() && p < |Layout(e)| && inst == e.Get(PlacedAt(e, p)) && k < inst.auxCount && AuxHoldsValues(inst.op)
    requires inst.aux + k < |e.aux|
    ensures IsOperand(Committed(e), CommittedInst(e, p), FinalId(e, e.aux[inst.aux + k]))
  {
    SlotMoved(e, p, k);
  }

  lemma {:induction false} OperandBack(f: Func, i: nat, y: nat) returns (x: nat)
    requires Hoistable(f) && i < |f.insts| && Hoist(f).Live(i) && NewAt(f, i) < |Hoisted(f).insts|
    requires IsOperand(Hoisted(f), Hoisted(f).insts[NewAt(f, i)], y)
    ensures Hoist(f).ChainsOk() && IsOperand(f, f.insts[i], x) && y == FinalId(Hoist(f), x)
  {
    HoistMeetsContract(f);
    LiveGoes(f, i);
    x := MovedFrom(Hoist(f), NewAt(f, i), y);
  }

  /** What an operand of the committed function was before. */
  lemma {:induction false} MovedFrom(e: Edits, p: nat, y: nat) returns (x: nat)
    requires e.Contract() && p < |Layout(e)| && IsOperand(Committed(e), CommittedInst(e, p), y)
    ensures IsOperand(e.Fn(), e.Get(PlacedAt(e, p)), x) && y == FinalId(e, x)
  {
    var c, now := Committed(e), CommittedInst(e, p);
    if a :| a in ValueArgMask(now) && a < 4 && now.args[a] == y {
      x := ArgMovedFrom(e, p, a);
    } else {
      var k :| now.aux <= k < now.aux + now.auxCount && k < |c.aux| && c.aux[k] == y;
      x := SlotMovedFrom(e, p, k - now.aux);
    }
  }

  lemma {:induction false} ArgMovedFrom(e: Edits, p: nat, a: nat) returns (x: nat)
    requires e.Contract() && p < |Layout(e)| && a < 4 && a in ValueArgMask(CommittedInst(e, p))
    ensures IsOperand(e.Fn(), e.Get(PlacedAt(e, p)), x) && CommittedInst(e, p).args[a] == FinalId(e, x)
  {
    MaskKept(e, p);
    ArgMoved(e, p, a);
    x := e.Get(PlacedAt(e, p)).args[a];
  }

  lemma {:induction false} SlotMovedFrom(e: Edits, p: nat, k: nat) returns (x: nat)
    requires e.Contract() && p < |Layout(e)| && k < CommittedInst(e, p).auxCount && AuxHoldsValues(CommittedInst(e, p).op)
    requires CommittedInst(e, p).aux + k < |Committed(e).aux|
    ensures IsOperand(e.Fn(), e.Get(PlacedAt(e, p)), x) && Committed(e).aux[CommittedInst(e, p).aux + k] == FinalId(e, x)
  {
    var inst := e.Get(PlacedAt(e, p));
    assert AuxInPool(e.Fn(), inst);
    SlotMoved(e, p, k);
    x := e.aux[inst.aux + k];
  }

  lemma {:induction false} EnclosesMoves(f: Func, i: nat, x: nat)
    requires Hoistable(f) && i < |f.insts| && x < |f.insts| && Hoist(f).Live(i) && Hoist(f).Live(x)
    ensures NewAt(f, x) <= |Hoisted(f).insts| && NewAt(f, i) <= |Hoisted(f).insts|
    ensures Encloses(Hoisted(f).insts, NewAt(f, x), NewAt(f, i)) <==> Encloses(f.insts, x, i)
  {
    StackMoves(f, i);
    StackMoves(f, x);
    EnclosesIsPrefix(f.insts, x, i);
    EnclosesIsPrefix(Hoisted(f).insts, NewAt(f, x), NewAt(f, i));
    PrefixMoves(f, x, i);
  }

  /** An operand passes in the one exactly when it passes in the other; and there its arm is still open
      without exception. */
  lemma {:induction false} OperandMoves(f: Func, i: nat, x: nat)
    requires Hoistable(f) && i < |f.insts| && Hoist(f).Live(i) && IsOperand(f, f.insts[i], x)
    ensures Hoist(f).ChainsOk() && NewAt(f, i) < |Hoisted(f).insts| && FinalId(Hoist(f), x) < |Hoisted(f).insts|
    ensures OperandOk(Hoisted(f), NewAt(f, i), FinalId(Hoist(f), x)) <==> OperandOk(f, i, x)
    ensures OperandOk(f, i, x) ==> Encloses(Hoisted(f).insts, FinalId(Hoist(f), x), NewAt(f, i))
  {
    OperandGoes(f, i, x);
    OperandForth(f, i, x);
    if IsDeclared(f.insts[x].op) {
      DeclarationPasses(f, i, x, FinalId(Hoist(f), x));
    } else {
      ComputedMoves(f, i, x);
    }
  }

  lemma {:induction false} DeclarationPasses(f: Func, i: nat, x: nat, y: nat)
    requires Hoistable(f) && x < i < |f.insts| && Hoist(f).Live(i) && IsDeclared(f.insts[x].op) && IsOperand(f, f.insts[i], x)
    requires y < Count(f) && y < |Hoisted(f).insts| && NewAt(f, i) < |Hoisted(f).insts|
    requires Hoisted(f).insts[y].op == f.insts[x].op && Hoisted(f).insts[y].typ == f.insts[x].typ
    ensures OperandOk(Hoisted(f), NewAt(f, i), y) <==> OperandOk(f, i, x)
    ensures Encloses(Hoisted(f).insts, y, NewAt(f, i))
  {
    NewAtGrows(f, i, i);
    FrontIsFlat(f, y);
    assert Encloses(Hoisted(f).insts, y, NewAt(f, i));
  }

  lemma {:induction false} ComputedMoves(f: Func, i: nat, x: nat)
    requires Hoistable(f) && x < i < |f.insts| && Hoist(f).Live(i) && Hoist(f).Live(x)
    ensures NewAt(f, i) < |Hoisted(f).insts| && NewAt(f, x) < |Hoisted(f).insts|
    ensures OperandOk(Hoisted(f), NewAt(f, i), NewAt(f, x)) <==> OperandOk(f, i, x)
    ensures OperandOk(f, i, x) ==> Encloses(Hoisted(f).insts, NewAt(f, x), NewAt(f, i))
  {
    LiveOp(f, i);
    LiveOp(f, x);
    EnclosesMoves(f, i, x);
    NewAtGrows(f, x, i);
  }

  // ----- acceptance -----

  lemma {:induction false} FrontPasses(f: Func, p: nat)
    requires Hoistable(f) && p < Count(f) && p < |Hoisted(f).insts|
    ensures InstOk(Hoisted(f), p) && IsDeclared(Hoisted(f).insts[p].op)
  {
    FrontIsDeclared(f, p);
    HoistMeetsContract(f);
    CommitIsDense(Hoist(f));
    DeclaredPasses(Hoisted(f), p);
  }

  lemma {:induction false} FrontIsDeclared(f: Func, p: nat)
    requires Hoistable(f) && p < Count(f) && p < |Hoisted(f).insts|
    ensures IsDeclared(Hoisted(f).insts[p].op)
  {
    var e := Hoist(f);
    FrontIsInserts(f, p);
    PlacedInst(f, PlacedAt(e, p));
    assert Hoisted(f).insts[p].op == e.Get(PlacedAt(e, p)).op;
  }

  lemma {:induction false} DeclaredPasses(h: Func, p: nat)
    requires p < |h.insts| && IsDeclared(h.insts[p].op) && AuxInPool(h, h.insts[p])
    ensures InstOk(h, p)
  {
  }

  lemma {:induction false} InstMoves(f: Func, i: nat)
    requires Hoistable(f) && i < |f.insts| && Hoist(f).Live(i)
    ensures NewAt(f, i) < |Hoisted(f).insts| && (InstOk(Hoisted(f), NewAt(f, i)) <==> InstOk(f, i))
  {
    var h, p := Hoisted(f), NewAt(f, i);
    HoistMeetsContract(f);
    LiveOp(f, i);
    MarkerMoves(f, i);
    CommitIsDense(Hoist(f));
    assert HoistableAt(f, i);
    if InstOk(f, i) {
      forall y | IsOperand(h, h.insts[p], y)
        ensures OperandOk(h, p, y)
      {
        var x := OperandBack(f, i, y);
        OperandMoves(f, i, x);
      }
    }
    if InstOk(h, p) {
      forall x | IsOperand(f, f.insts[i], x)
        ensures OperandOk(f, i, x)
      {
        OperandForth(f, i, x);
        OperandMoves(f, i, x);
      }
    }
  }

  lemma {:induction false} WhichMoved(f: Func, p: nat) returns (i: nat)
    requires Hoistable(f) && Count(f) <= p < |Hoisted(f).insts|
    ensures i < |f.insts| && Hoist(f).Live(i) && NewAt(f, i) == p
  {
    i := PlacedAt(Hoist(f), p);
    FrontIsInserts(f, p);
    LiveGoes(f, i);
    LayoutPosition(Hoist(f), p);
  }

  lemma {:induction false} AcceptedFunctionsAreHoistable(f: Func)
    requires WellFormed(f) && |f.insts| + Count(f) < MAX_IDS
    ensures Hoistable(f)
  {
    forall i: nat | i < |f.insts| && !f.insts[i].op.Nop?
      ensures HoistableAt(f, i)
    {
      assert InstOk(f, i);
      forall x: nat | IsOperand(f, f.insts[i], x)
        ensures x < i && !f.insts[x].op.Nop?
      {
        assert OperandOk(f, i, x);
      }
    }
  }

  /** A function is accepted exactly when its hoisted form is. */
  lemma {:induction false} AcceptedAlike(f: Func)
    requires Hoistable(f)
    ensures WellFormed(Hoisted(f)) <==> WellFormed(f)
  {
    var h, n := Hoisted(f), |f.insts|;
    StackMoves(f, n);
    LayoutReaches(f, n);
    if WellFormed(f) {
      forall p | 0 <= p < |h.insts|
        ensures InstOk(h, p)
      {
        if p < Count(f) {
          FrontPasses(f, p);
        } else {
          var i := WhichMoved(f, p);
          InstMoves(f, i);
        }
      }
    }
    if WellFormed(h) {
      forall i | 0 <= i < n
        ensures InstOk(f, i)
      {
        if Hoist(f).Live(i) { InstMoves(f, i); } else { DeadPasses(f, i); }
      }
    }
  }

  lemma {:induction false} DeadPasses(f: Func, i: nat)
    requires Hoistable(f) && i < |f.insts| && !Hoist(f).Live(i)
    ensures InstOk(f, i)
  {
    assert f.insts[i].op.Nop? || HoistableAt(f, i);
  }

  /** So it does not matter where a declaration stands, as long as it comes before its users. */
  lemma {:induction false} PlaceOfDeclarationsIsFree(f: Func, g: Func)
    requires Hoistable(f) && Hoistable(g) && Hoisted(f) == Hoisted(g)
    ensures WellFormed(f) <==> WellFormed(g)
  {
    AcceptedAlike(f);
    AcceptedAlike(g);
  }

  // ----- runs -----

  /** Every operand of the instruction about to run yields a value, and has been computed since its arm was
      last entered. */
  ghost predicate AllComputed(f: Func, run: seq<State>, k: nat)
    requires k < |run|
  {
    run[k].Running? && run[k].pc < |f.insts| ==>
      forall x: nat {:trigger IsOperand(f, f.insts[run[k].pc], x)} :: IsOperand(f, f.insts[run[k].pc], x) ==> IsComputed(f, run, k, x)
  }

  ghost predicate IsComputed(f: Func, run: seq<State>, k: nat, x: nat)
    requires k < |run|
  {
    x < |f.insts| && f.insts[x].typ != NONE && Computes(f.insts[x].op) && ComputedSinceEntry(f.insts, run, k, x)
  }

  /** In every run of the hoisted form of an accepted function each operand has been computed, constants
      and all, unless the step before was a stranding continue. */
  lemma {:induction false} HoistedRunsComputeAll(f: Func, run: seq<State>, k: nat)
    requires WellFormed(f) && |f.insts| + Count(f) < MAX_IDS
    requires (AcceptedFunctionsAreHoistable(f); IsRun(Hoisted(f).insts, run)) && k < |run|
    requires k > 0 && run[k - 1].Running? ==> !Strands(Hoisted(f), run[k - 1].pc)
    ensures AllComputed(Hoisted(f), run, k)
  {
    AcceptedFunctionsAreHoistable(f);
    AcceptedAlike(f);
    var h := Hoisted(f);
    InvHolds(h, run, k);
    if run[k].Running? && run[k].pc < |h.insts| {
      forall y: nat | IsOperand(h, h.insts[run[k].pc], y)
        ensures IsComputed(h, run, k, y)
      {
        HoistedOperandComputed(f, run, k, y);
      }
    }
  }

  lemma {:induction false} HoistedOperand(f: Func, p: nat, y: nat)
    requires Hoistable(f) && WellFormed(f) && p < |Hoisted(f).insts| && IsOperand(Hoisted(f), Hoisted(f).insts[p], y)
    ensures Count(f) <= p && y < p && Encloses(Hoisted(f).insts, y, p) && OperandOk(Hoisted(f), p, y)
    ensures FunctionScope(Hoisted(f).insts[y].op) ==> y < Count(f)
  {
    AcceptedAlike(f);
    assert InstOk(Hoisted(f), p);
    if p < Count(f) {
      FrontPasses(f, p);
      assert false;
    } else {
      var i := WhichMoved(f, p);
      var x := OperandBack(f, i, y);
      assert InstOk(f, i);
      OperandMoves(f, i, x);
      OperandGoes(f, i, x);
    }
  }

  lemma {:induction false} HoistedOperandComputed(f: Func, run: seq<State>, k: nat, y: nat)
    requires Hoistable(f) && WellFormed(f) && k < |run| && Inv(Hoisted(f).insts, run, k)
    requires k > 0 && run[k - 1].Running? ==> !Strands(Hoisted(f), run[k - 1].pc)
    requires run[k].Running? && run[k].pc < |Hoisted(f).insts| && IsOperand(Hoisted(f), Hoisted(f).insts[run[k].pc], y)
    ensures IsComputed(Hoisted(f), run, k, y)
  {
    HoistedOperand(f, run[k].pc, y);
    forall q: nat | q < |Hoisted(f).insts| && Hoisted(f).insts[q].op.Continue?
      ensures Count(f) <= q
    {
      ContinueIsBehind(f, q);
    }
    EarlierIsComputed(Hoisted(f), run, k, y);
  }

  /** What stands before every continue has been computed wherever it encloses. */
  lemma {:induction false} EarlierIsComputed(h: Func, run: seq<State>, k: nat, y: nat)
    requires k < |run| && Inv(h.insts, run, k) && run[k].Running? && run[k].pc < |h.insts|
    requires k > 0 && run[k - 1].Running? ==> !Strands(h, run[k - 1].pc)
    requires y < run[k].pc && IsOperand(h, h.insts[run[k].pc], y) && OperandOk(h, run[k].pc, y) && Encloses(h.insts, y, run[k].pc)
    requires FunctionScope(h.insts[y].op) ==> forall q: nat :: q < |h.insts| && h.insts[q].op.Continue? ==> y < q
    ensures IsComputed(h, run, k, y)
  {
    EnclosesIsPrefix(h.insts, y, run[k].pc);
    if Viewed(h.insts, run, k, run[k].pc) {
      SeenIsComputed(h.insts, run, k, run[k].pc, y);
    } else {
      var c: nat :| AtEnd(h.insts, run[k - 1].pc, c, run[k]);
      BeforeContinue(h, run[k - 1].pc, c, run[k], y);
      SeenIsComputed(h.insts, run, k, run[k - 1].pc, y);
    }
  }

  lemma {:induction false} SeenIsComputed(insts: seq<Inst>, run: seq<State>, k: nat, limit: nat, x: nat)
    requires k < |run| && run[k].Running? && run[k].pc <= |insts| && Viewed(insts, run, k, limit)
    requires x < limit && x < |insts| && Computes(insts[x].op) && Sees(insts, run[k].pc, x)
    ensures ComputedSinceEntry(insts, run, k, x)
  {
  }

  lemma {:induction false} BeforeContinue(h: Func, at: nat, c: nat, t: State, y: nat)
    requires at < |h.insts| && AtEnd(h.insts, at, c, t) && t.pc < |h.insts|
    requires y < |h.insts| && IsOperand(h, h.insts[t.pc], y) && !HasNoValue(h.insts[y])
    requires FunctionScope(h.insts[y].op) ==> y < at
    ensures y < at || Strands(h, at)
  {
    if y > at && !FunctionScope(h.insts[y].op) {
      assert IsTarget(h.insts, at, c, true) && !HasLaterArm(h.insts, c) && IsEnd(h.insts, t.pc, c);
      assert Strands(h, at);
    }
  }

  lemma {:induction false} ContinueIsBehind(f: Func, p: nat)
    requires Hoistable(f) && p < |Hoisted(f).insts| && Hoisted(f).insts[p].op.Continue?
    ensures Count(f) <= p
  {
    if p < Count(f) { FrontPasses(f, p); }
  }
}
