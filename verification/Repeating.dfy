/** A loop that is said to run its body once and a run that runs it twice: its body ends in a break,
    but a continue before that leads to the back edge. */
module Repeating {
  import opened Ir
  import opened ControlFlow
  import opened Verifier
  import opened Machine
  import opened CfQueries
  import opened LoopsOnce
  import opened Stranding

  /** for (;;) { if (c) continue; break; } */
  function Twice(): (f: Func)
    ensures IsTwice(f)
  {
    Func([Value(Const, 0), Marker(Loop, 0), Marker(If, 0), Marker(Continue, 0), Marker(EndIf, 0), Marker(Break, 0),
          Marker(LoopContinue, 0), Marker(EndLoop, NONE)], [])
  }

  predicate IsTwice(f: Func) {
    && |f.insts| == 8
    && f.insts[0] == Value(Const, 0)
    && f.insts[1] == Marker(Loop, 0)
    && f.insts[2] == Marker(If, 0)
    && f.insts[3] == Marker(Continue, 0)
    && f.insts[4] == Marker(EndIf, 0)
    && f.insts[5] == Marker(Break, 0)
    && f.insts[6] == Marker(LoopContinue, 0)
    && f.insts[7] == Marker(EndLoop, NONE)
  }

  lemma {:induction false} TwiceStacks(f: Func)
    requires IsTwice(f)
    ensures StackAt(f.insts, 0) == StackAt(f.insts, 1) == []
    ensures StackAt(f.insts, 2) == StackAt(f.insts, 5) == StackAt(f.insts, 6) == [Frame(1, 1)]
    ensures StackAt(f.insts, 3) == StackAt(f.insts, 4) == [Frame(1, 1), Frame(2, 2)]
    ensures StackAt(f.insts, 7) == [Frame(1, 6)] && StackAt(f.insts, 8) == []
  {
    assert StackAt(f.insts, 1) == [];
    assert StackAt(f.insts, 2) == [Frame(1, 1)];
    assert StackAt(f.insts, 3) == [Frame(1, 1), Frame(2, 2)];
    assert StackAt(f.insts, 4) == [Frame(1, 1), Frame(2, 2)];
    assert StackAt(f.insts, 5) == [Frame(1, 1)];
    assert StackAt(f.insts, 6) == [Frame(1, 1)];
    assert StackAt(f.insts, 7) == [Frame(1, 6)];
  }

  lemma {:induction false} TwiceOperand(f: Func, i: nat, x: nat)
    requires IsTwice(f) && i < 8
    ensures IsOperand(f, f.insts[i], x) <==> i == 2 && x == 0
  {
    if i == 2 {
      OneOperand(f, f.insts[2], x);
    } else {
      HasNoOperands(f, i);
      NoOperands(f, f.insts[i], x);
    }
  }

  lemma {:induction false} HasNoOperands(f: Func, i: nat)
    requires IsTwice(f) && i < 8 && i != 2
    ensures ValueArgMask(f.insts[i]) == {} && !AuxHoldsValues(f.insts[i].op)
  {
    TakesNothing(f.insts[i]);
  }

  lemma {:induction false} TakesNothing(inst: Inst)
    requires var op := inst.op;
             op.Const? || op.Loop? || op.Continue? || op.EndIf? || op.Break? || op.LoopContinue? ||
             (op.EndLoop? && inst.args[0] == NONE)
    ensures ValueArgMask(inst) == {} && !AuxHoldsValues(inst.op)
  {
  }

  lemma {:induction false} TwiceOperandsOk(f: Func, i: nat)
    requires IsTwice(f) && i < 8
    ensures forall x :: IsOperand(f, f.insts[i], x) ==> OperandOk(f, i, x)
  {
    forall x | IsOperand(f, f.insts[i], x)
      ensures OperandOk(f, i, x)
    {
      TwiceOperand(f, i, x);
    }
  }

  lemma {:induction false} TwiceMarkerOk(f: Func, i: nat)
    requires IsTwice(f) && i < 8
    ensures MarkerOk(f.insts, i)
  {
    TwiceStacks(f);
    if i == 3 {
      assert Target(f.insts[StackAt(f.insts, 3)[0].construct].op, true);
    } else if i == 5 {
      assert Target(f.insts[StackAt(f.insts, 5)[0].construct].op, false);
    }
  }

  lemma {:induction false} TwiceAccepted(f: Func)
    requires IsTwice(f)
    ensures WellFormed(f)
  {
    TwiceStacks(f);
    forall i | 0 <= i < |f.insts|
      ensures InstOk(f, i)
    {
      TwiceOperandsOk(f, i);
      TwiceMarkerOk(f, i);
    }
  }

  /** The loop's last arm ends with the break, so it is said to run once. */
  lemma {:induction false} TwiceExits(f: Func)
    requires IsTwice(f)
    ensures ExitsLoop(f.insts, 1, 5, 6, 7) && EndsInExit(f.insts, 1, 6)
  {
    TwiceStacks(f);
  }

  lemma {:induction false} ContinueStepsTo(f: Func)
    requires IsTwice(f)
    ensures Step(f.insts, Running(3, Some(2)), Running(7, Some(6)))
  {
    TwiceStacks(f);
    assert TargetDepth(f.insts, 3, 0, true);
    assert IsTarget(f.insts, 3, 1, true);
    assert Belongs(f.insts, 6, 1) && Splits(f.insts[6].op);
    assert EntersLaterArm(f.insts, 1, Running(7, Some(6)));
    assert ContinuesAt(f.insts, 1, Running(7, Some(6)));
  }

  lemma {:induction false} OtherSteps(f: Func)
    requires IsTwice(f)
    ensures Step(f.insts, START, Running(1, None)) && Step(f.insts, Running(1, None), Running(2, Some(1)))
    ensures Step(f.insts, Running(2, Some(1)), Running(3, Some(2))) && Step(f.insts, Running(7, Some(6)), Running(2, Some(1)))
  {
    BackEdgeSteps(f);
  }

  lemma {:induction false} BackEdgeSteps(f: Func)
    requires IsTwice(f)
    ensures Step(f.insts, Running(7, Some(6)), Running(2, Some(1)))
  {
    TwiceStacks(f);
    assert Enters(Last(StackAt(f.insts, 7)).construct, Running(2, Some(1)));
  }

  function Trace(): (run: seq<State>)
    ensures |run| == 6 && run[0] == START && run[1] == Running(1, None) && run[2] == Running(2, Some(1))
    ensures run[3] == Running(3, Some(2)) && run[4] == Running(7, Some(6)) && run[5] == run[2]
  {
    [START, Running(1, None), Running(2, Some(1)), Running(3, Some(2)), Running(7, Some(6)), Running(2, Some(1))]
  }

  lemma {:induction false} TraceSteps(f: Func, k: nat)
    requires IsTwice(f) && k < 5
    ensures Step(f.insts, Trace()[k], Trace()[k + 1])
  {
    if k == 3 {
      ContinueStepsTo(f);
    } else {
      OtherSteps(f);
    }
  }

  lemma {:induction false} TraceRepeats(f: Func, run: seq<State>)
    requires IsTwice(f) && run == Trace()
    ensures RepeatsAt(f, run, 4, 1)
  {
    assert IsRun(f.insts, run) by {
      forall k | 0 <= k < |run| - 1
        ensures Step(f.insts, run[k], run[k + 1])
      {
        TraceSteps(f, k);
      }
    }
    assert run[5] == Running(2, Some(1)) && run[4] == Running(7, Some(6));
  }

  predicate FirstMarkerIs(insts: seq<Inst>, l: nat, m: nat) {
    Belongs(insts, m, l) && forall k :: l < k < m ==> !Belongs(insts, k, l)
  }

  lemma {:induction false} FirstMarker(f: Func)
    requires IsTwice(f)
    ensures FirstMarkerIs(f.insts, 1, 6)
  {
    TwiceStacks(f);
  }

  /** The verifier accepts the loop, its body runs to the break before its first marker, and yet a run
      enters the body again. */
  lemma {:induction false} ExitingLoopCanRepeat() returns (f: Func)
    ensures f == Twice() && WellFormed(f) && FirstMarkerIs(f.insts, 1, 6) && EndsInExit(f.insts, 1, 6)
    ensures RunsAgain(f, 1)
  {
    f := Twice();
    TwiceAccepted(f);
    TwiceExits(f);
    FirstMarker(f);
    TraceRepeats(f, Trace());
  }
}
