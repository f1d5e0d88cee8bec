/** A function the verifier accepts and a run of it that uses a value it has not computed: a
    do-while loop without a continue section, and a continue that skips its condition. */
module Stranding {
  import opened Ir
  import opened ControlFlow
  import opened Verifier
  import opened Machine
  import opened RunSafety

  function Value(op: Op, a: nat): Inst {
    RawInst.Inst(op, 0, [a, 0, 0, NONE], 0, 0)
  }

  function Marker(op: Op, a: nat): Inst {
    RawInst.Inst(op, NONE, [a, 0, 0, NONE], 0, 0)
  }

  /** do { continue; n = !c; } while (n), without the loop_continue marker. */
  function Example(): (f: Func)
    ensures IsExample(f)
  {
    Func([Value(Const, 0), Marker(Loop, 0), Marker(Continue, 0), Value(LogNot, 0), Marker(EndLoop, 3)], [])
  }

  predicate IsExample(f: Func) {
    && |f.insts| == 5
    && f.insts[0] == Value(Const, 0)
    && f.insts[1] == Marker(Loop, 0)
    && f.insts[2] == Marker(Continue, 0)
    && f.insts[3] == Value(LogNot, 0)
    && f.insts[4] == Marker(EndLoop, 3)
  }

  lemma {:induction false} ExampleStacks(f: Func)
    requires IsExample(f)
    ensures StackAt(f.insts, 0) == StackAt(f.insts, 1) == []
    ensures StackAt(f.insts, 2) == StackAt(f.insts, 3) == StackAt(f.insts, 4) == [Frame(1, 1)]
    ensures StackAt(f.insts, 5) == []
  {
    assert StackAt(f.insts, 1) == [];
    assert StackAt(f.insts, 2) == [Frame(1, 1)];
    assert StackAt(f.insts, 3) == [Frame(1, 1)];
    assert StackAt(f.insts, 4) == [Frame(1, 1)];
  }

  lemma {:induction false} NoOperands(f: Func, inst: Inst, x: nat)
    requires ValueArgMask(inst) == {} && !AuxHoldsValues(inst.op)
    ensures !IsOperand(f, inst, x)
  {
  }

  lemma {:induction false} OneOperand(f: Func, inst: Inst, x: nat)
    requires ValueArgMask(inst) == {0} && !AuxHoldsValues(inst.op)
    ensures IsOperand(f, inst, x) <==> inst.args[0] == x
  {
  }

  lemma {:induction false} ExampleOperand(f: Func, i: nat, x: nat)
    requires IsExample(f) && i < 5
    ensures IsOperand(f, f.insts[i], x) <==> (i == 3 && x == 0) || (i == 4 && x == 3)
  {
    if i < 3 {
      NoOperands(f, f.insts[i], x);
    } else {
      OneOperand(f, f.insts[i], x);
    }
  }

  lemma {:induction false} ExampleAccepted(f: Func)
    requires IsExample(f)
    ensures WellFormed(f)
  {
    ExampleStacks(f);
    forall i | 0 <= i < |f.insts|
      ensures InstOk(f, i)
    {
      ExampleOperandsOk(f, i);
      ExampleMarkerOk(f, i);
    }
  }

  lemma {:induction false} ExampleOperandsOk(f: Func, i: nat)
    requires IsExample(f) && i < 5
    ensures forall x: nat :: IsOperand(f, f.insts[i], x) ==> OperandOk(f, i, x)
  {
    ExampleStacks(f);
    forall x: nat | IsOperand(f, f.insts[i], x)
      ensures OperandOk(f, i, x)
    {
      ExampleOperand(f, i, x);
      EnclosesIsPrefix(f.insts, x, i);
    }
  }

  lemma {:induction false} ExampleMarkerOk(f: Func, i: nat)
    requires IsExample(f) && i < 5
    ensures MarkerOk(f.insts, i)
  {
    ExampleStacks(f);
    assert i == 2 ==> Target(f.insts[StackAt(f.insts, 2)[0].construct].op, true);
  }

  lemma {:induction false} ExampleStrands(f: Func)
    requires IsExample(f)
    ensures Strands(f, 2)
  {
    ExampleContinues(f);
    ExampleOperand(f, 4, 3);
    assert !FunctionScope(f.insts[3].op);
  }

  lemma {:induction false} ExampleContinues(f: Func)
    requires IsExample(f)
    ensures IsTarget(f.insts, 2, 1, true) && IsEnd(f.insts, 4, 1) && !HasLaterArm(f.insts, 1)
  {
    ExampleStacks(f);
    assert TargetDepth(f.insts, 2, 0, true);
  }

  lemma {:induction false} ExampleRun(f: Func)
    requires IsExample(f)
    ensures IsRun(f.insts, [START, Running(1, None), Running(2, Some(1))])
  {
  }

  /** The verifier accepts the example, and a run of it goes wrong. */
  lemma {:induction false} AcceptedRunCanGoWrong() returns (run: seq<State>)
    ensures WellFormed(Example()) && IsRun(Example().insts, run)
    ensures !OperandsReady(Example(), run, |run| - 1)
  {
    var f := Example();
    ExampleAccepted(f);
    ExampleStrands(f);
    ExampleRun(f);
    var start := [START, Running(1, None), Running(2, Some(1))];
    var e := StrandingBreaksRun(f, start);
    run := start + [Running(e, None)];
  }
}
