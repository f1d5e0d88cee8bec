/** What acceptance by the verifier means for runs: when every instruction finds its operands
    computed, exactly when it does not, and that a run never gets stuck. */
module RunSafety {
  import opened Ir
  import opened ControlFlow
  import opened Verifier
  import opened Machine
  import opened Reachability

  /** The instruction about to run finds each operand declared at function scope, or computed
      since its arm was last entered. */
  ghost predicate OperandsReady(f: Func, run: seq<State>, k: nat)
    requires k < |run|
  {
    run[k].Running? && run[k].pc < |f.insts| ==>
      forall x: nat :: IsOperand(f, f.insts[run[k].pc], x) ==>
        x < |f.insts| && (FunctionScope(f.insts[x].op) || ComputedSinceEntry(f.insts, run, k, x))
  }

  /** The continue at i jumps to a closing marker, over the computation of the back-edge
      condition that the marker carries: its loop has no continue section. */
  ghost predicate Strands(f: Func, i: nat) {
    i < |f.insts| && f.insts[i].op.Continue? &&
    exists c: nat, e: nat, x: nat ::
      IsTarget(f.insts, i, c, true) && !HasLaterArm(f.insts, c) && IsEnd(f.insts, e, c) &&
      IsOperand(f, f.insts[e], x) && i < x < |f.insts| && !FunctionScope(f.insts[x].op)
  }

  // ----- the invariant of a run -----

  predicate Sees(insts: seq<Inst>, p: nat, x: nat)
    requires p <= |insts| && x <= |insts|
  {
    StackAt(insts, x) <= StackAt(insts, p)
  }

  /** Everything below `limit` that the current position sees has been computed. */
  ghost predicate Viewed(insts: seq<Inst>, run: seq<State>, k: nat, limit: nat)
    requires k < |run| && run[k].Running? && run[k].pc <= |insts|
  {
    forall x :: 0 <= x < limit && x < |insts| && Computes(insts[x].op) && Sees(insts, run[k].pc, x) ==>
      ComputedSinceEntry(insts, run, k, x)
  }

  /** The run has just jumped from a continue to the closing marker of its loop. */
  ghost predicate JumpedToEnd(insts: seq<Inst>, run: seq<State>, k: nat)
    requires k < |run| && run[k].Running?
  {
    && k > 0 && run[k - 1].Running? && run[k - 1].pc < |insts|
    && exists c: nat {:trigger IsEnd(insts, run[k].pc, c)} :: AtEnd(insts, run[k - 1].pc, c, run[k])
  }

  ghost predicate Inv(insts: seq<Inst>, run: seq<State>, k: nat)
    requires k < |run|
  {
    run[k].Running? ==>
      && run[k].pc <= |insts|
      && (Viewed(insts, run, k, run[k].pc) ||
          (JumpedToEnd(insts, run, k) && Viewed(insts, run, k, run[k - 1].pc)))
  }

  lemma {:induction false} StaysComputed(insts: seq<Inst>, run: seq<State>, k: nat, x: nat)
    requires k + 1 < |run| && x < |insts| && ComputedSinceEntry(insts, run, k, x)
    requires run[k + 1].Running? && run[k + 1].entered.Some? ==> !InArm(insts, run[k + 1].entered.value, x)
    ensures ComputedSinceEntry(insts, run, k + 1, x)
  {
    var j :| 0 <= j < k && run[j].Running? && run[j].pc == x && ArmNotReentered(insts, run, j, k, x);
    assert ArmNotReentered(insts, run, j, k + 1, x);
  }

  lemma {:induction false} JumpedToEndLoop(insts: seq<Inst>, run: seq<State>, k: nat)
    requires k < |run| && run[k].Running? && run[k].pc < |insts|
    requires JumpedToEnd(insts, run, k) && MarkerOk(insts, run[k].pc)
    ensures insts[run[k].pc].op.EndLoop?
  {
    var e := run[k].pc;
    var l: nat :| AtEnd(insts, run[k - 1].pc, l, run[k]);
    assert IsEnd(insts, e, l) && insts[l].op.Loop?;
  }

  lemma {:induction false} SequentialKeepsInv(insts: seq<Inst>, run: seq<State>, k: nat)
    requires IsRun(insts, run) && k + 1 < |run| && Inv(insts, run, k)
    requires run[k].Running? && run[k].pc < |insts| && Sequential(insts, run[k].pc, run[k + 1])
    requires MarkerOk(insts, run[k].pc)
    ensures Inv(insts, run, k + 1)
  {
    var i := run[k].pc;
    if !Viewed(insts, run, k, i) {
      JumpedToEndLoop(insts, run, k);
    }
    forall x | 0 <= x < i + 1 && Computes(insts[x].op) && StackAt(insts, x) <= StackAt(insts, i + 1)
      ensures ComputedSinceEntry(insts, run, k + 1, x)
    {
      if x == i {
        assert ArmNotReentered(insts, run, k, k + 1, x);
      } else {
        StaysComputed(insts, run, k, x);
      }
    }
  }

  lemma {:induction false} NarrowedKeepsInv(insts: seq<Inst>, run: seq<State>, k: nat, c: nat)
    requires IsRun(insts, run) && k + 1 < |run| && Inv(insts, run, k)
    requires run[k].Running? && run[k].pc < |insts| && Narrowed(insts, run[k].pc, c, run[k + 1])
    ensures Inv(insts, run, k + 1)
  {
    var i, t := run[k].pc, run[k + 1];
    if !Viewed(insts, run, k, i) {
      NarrowsPastContinue(insts, run, k, c);
    }
    forall x | 0 <= x < t.pc && Computes(insts[x].op) && StackAt(insts, x) <= StackAt(insts, t.pc)
      ensures ComputedSinceEntry(insts, run, k + 1, x)
    {
      assert x < c && StackAt(insts, x) <= StackAt(insts, c) <= StackAt(insts, i);
      if t.entered.Some? {
        ArmsAreEarlier(insts, t.entered.value, x);
      }
      StaysComputed(insts, run, k, x);
    }
  }

  lemma {:induction false} NarrowsPastContinue(insts: seq<Inst>, run: seq<State>, k: nat, c: nat)
    requires k + 1 < |run| && run[k].Running? && run[k].pc < |insts|
    requires JumpedToEnd(insts, run, k) && Narrowed(insts, run[k].pc, c, run[k + 1])
    ensures c <= run[k - 1].pc
  {
    var l: nat :| AtEnd(insts, run[k - 1].pc, l, run[k]);
    AroundEndIsBefore(insts, run[k - 1].pc, run[k].pc, l, c);
  }

  lemma {:induction false} AroundEndIsBefore(insts: seq<Inst>, i: nat, e: nat, l: nat, c: nat)
    requires i < |insts| && e < |insts| && IsEnd(insts, e, l) && Around(insts, l, i) && Around(insts, c, e)
    requires !Opens(insts[e].op)
    ensures c <= i
  {
    MarkerWindow(insts, e, l);
  }

  lemma {:induction false} AtEndKeepsInv(insts: seq<Inst>, run: seq<State>, k: nat, c: nat)
    requires IsRun(insts, run) && k + 1 < |run| && Inv(insts, run, k)
    requires run[k].Running? && run[k].pc < |insts| && AtEnd(insts, run[k].pc, c, run[k + 1])
    requires MarkerOk(insts, run[k].pc)
    ensures Inv(insts, run, k + 1)
  {
    var i, e := run[k].pc, run[k + 1].pc;
    if !Viewed(insts, run, k, i) {
      JumpedToEndLoop(insts, run, k);
    }
    MarkerWindow(insts, e, c);
    forall x | 0 <= x < i && Computes(insts[x].op) && StackAt(insts, x) <= StackAt(insts, e)
      ensures ComputedSinceEntry(insts, run, k + 1, x)
    {
      SeenBeforeContinue(insts, i, c, e, x);
      StaysComputed(insts, run, k, x);
    }
  }

  /** What the closing marker of a loop without a continue section sees from before a continue
      of that loop, the continue sees too. */
  lemma {:induction false} SeenBeforeContinue(insts: seq<Inst>, i: nat, c: nat, e: nat, x: nat)
    requires x < i < e < |insts| && Around(insts, c, i) && c < i
    requires IsEnd(insts, e, c) && !HasLaterArm(insts, c)
    requires StackAt(insts, x) <= StackAt(insts, e)
    ensures StackAt(insts, x) <= StackAt(insts, i)
  {
    MarkerWindow(insts, e, c);
    OnlyArm(insts, e, c, e);
    OnlyArm(insts, e, c, i);
    assert StackAt(insts, e) == StackAt(insts, c) + [Frame(c, c)];
  }

  /** Without later arms, a construct stays in the arm it opened. */
  lemma {:induction false} OnlyArm(insts: seq<Inst>, e: nat, c: nat, j: nat)
    requires Belongs(insts, e, c) && c < j <= e && !HasLaterArm(insts, c)
    ensures StackAt(insts, c) + [Frame(c, c)] <= StackAt(insts, j)
  {
    var d := |StackAt(insts, c)|;
    MarkerWindow(insts, e, c);
    FramesSound(insts, e, d);
    FramesSound(insts, j, d);
    assert StackAt(insts, j)[d] == Frame(c, c);
  }

  lemma {:induction false} InvHolds(f: Func, run: seq<State>, k: nat)
    requires WellFormed(f) && IsRun(f.insts, run) && k < |run|
    ensures Inv(f.insts, run, k)
  {
    if k > 0 {
      InvHolds(f, run, k - 1);
      var s, t := run[k - 1], run[k];
      assert Step(f.insts, run[k - 1], run[k - 1 + 1]);
      MarkersAreOk(f, s.pc);
      if t.Running? {
        var c := StepKinds(f.insts, s.pc, t);
        if Sequential(f.insts, s.pc, t) {
          SequentialKeepsInv(f.insts, run, k - 1);
        } else if Narrowed(f.insts, s.pc, c, t) {
          NarrowedKeepsInv(f.insts, run, k - 1, c);
        } else {
          AtEndKeepsInv(f.insts, run, k - 1, c);
        }
      }
    }
  }

  lemma {:induction false} MarkersAreOk(f: Func, i: nat)
    requires WellFormed(f) && i < |f.insts|
    ensures MarkerOk(f.insts, i)
    ensures Splits(f.insts[i].op) || Closes(f.insts[i].op) ==> StackAt(f.insts, i) != []
  {
    assert InstOk(f, i);
  }

  // ----- the theorems -----

  /** In every run of an accepted function, whatever branches, breaks, continues and iterations
      it takes, each instruction finds its operands ready, unless the step before it was a
      stranding continue. */
  lemma {:induction false} RunFindsOperandsReady(f: Func, run: seq<State>, k: nat)
    requires WellFormed(f) && IsRun(f.insts, run) && k < |run|
    requires k > 0 && run[k - 1].Running? ==> !Strands(f, run[k - 1].pc)
    ensures OperandsReady(f, run, k)
  {
    InvHolds(f, run, k);
    if run[k].Running? && run[k].pc < |f.insts| {
      var i := run[k].pc;
      forall x: nat | IsOperand(f, f.insts[i], x)
        ensures x < |f.insts| && (FunctionScope(f.insts[x].op) || ComputedSinceEntry(f.insts, run, k, x))
      {
        OperandReady(f, run, k, x);
      }
    }
  }

  lemma {:induction false} OperandReady(f: Func, run: seq<State>, k: nat, x: nat)
    requires WellFormed(f) && k < |run| && Inv(f.insts, run, k)
    requires k > 0 && run[k - 1].Running? ==> !Strands(f, run[k - 1].pc)
    requires run[k].Running? && run[k].pc < |f.insts| && IsOperand(f, f.insts[run[k].pc], x)
    ensures x < |f.insts| && (FunctionScope(f.insts[x].op) || ComputedSinceEntry(f.insts, run, k, x))
  {
    var i := run[k].pc;
    assert InstOk(f, i) && !f.insts[i].op.Nop?;
    assert OperandOk(f, i, x);
    if !FunctionScope(f.insts[x].op) {
      EnclosesIsPrefix(f.insts, x, i);
      assert Computes(f.insts[x].op);
      if !Viewed(f.insts, run, k, i) {
        var c: nat :| AtEnd(f.insts, run[k - 1].pc, c, run[k]);
        assert IsEnd(f.insts, i, c);
        assert x < run[k - 1].pc;
      }
    }
  }

  // ----- exactly when it fails -----

  /** x sits at the first arm of construct c: past it, until c is entered again, means after x. */
  ghost predicate InFirstArm(insts: seq<Inst>, c: nat, x: nat)
    requires c < |insts| && x < |insts|
  {
    c < x && StackAt(insts, x) == StackAt(insts, c) + [Frame(c, c)]
  }

  /** No step gets from elsewhere to a position before x in x's arm, except by entering it. */
  lemma {:induction false} BackOnlyByEntering(insts: seq<Inst>, i: nat, c: nat, x: nat, t: State)
    requires i < |insts| && c < |insts| && x < |insts| && InFirstArm(insts, c, x)
    requires Opens(insts[c].op) && Computes(insts[x].op)
    requires StepFrom(insts, i, t) && t.Running?
    requires Splits(insts[i].op) || Closes(insts[i].op) ==> StackAt(insts, i) != []
    requires i <= c || x <= i
    ensures t.pc <= c || x < t.pc || (t.entered.Some? && InArm(insts, t.entered.value, x))
  {
    var g := StepKinds(insts, i, t);
    if c < t.pc <= x {
      BackOfKind(insts, i, c, x, g, t);
    }
  }

  lemma {:induction false} BackOfKind(insts: seq<Inst>, i: nat, c: nat, x: nat, g: nat, t: State)
    requires i < |insts| && c < |insts| && x < |insts| && InFirstArm(insts, c, x)
    requires Opens(insts[c].op) && Computes(insts[x].op) && (i <= c || x <= i)
    requires t.Running? && c < t.pc <= x
    requires Sequential(insts, i, t) || Narrowed(insts, i, g, t) || AtEnd(insts, i, g, t)
    requires Sequential(insts, i, t) ==> i != c
    ensures t.entered.Some? && InArm(insts, t.entered.value, x)
  {
    FramesSound(insts, x, |StackAt(insts, c)|);
    ArmStillOpen(insts, c, x, t.pc);
    if Narrowed(insts, i, g, t) {
      NarrowedReenters(insts, i, c, x, g, t);
    } else if AtEnd(insts, i, g, t) {
      EndIsNotBefore(insts, i, c, x, g, t.pc);
    }
  }

  lemma {:induction false} ArmStillOpen(insts: seq<Inst>, c: nat, x: nat, p: nat)
    requires c < p <= x < |insts| && InFirstArm(insts, c, x)
    ensures StackAt(insts, c) + [Frame(c, c)] <= StackAt(insts, p)
  {
    var d, sx, sp := |StackAt(insts, c)|, StackAt(insts, x), StackAt(insts, p);
    FramesSound(insts, x, d);
    assert sx[d] == Frame(c, c) && sp[d] == sx[d] && sp[..d] == sx[..d] == StackAt(insts, c);
    assert sp[..d + 1] == sp[..d] + [sp[d]];
  }

  lemma {:induction false} NarrowedReenters(insts: seq<Inst>, i: nat, c: nat, x: nat, g: nat, t: State)
    requires i < |insts| && c < |insts| && x < |insts| && InFirstArm(insts, c, x)
    requires Narrowed(insts, i, g, t) && (i <= c || x <= i)
    requires c < t.pc <= x && StackAt(insts, c) + [Frame(c, c)] <= StackAt(insts, t.pc)
    ensures t.entered.Some? && InArm(insts, t.entered.value, x)
  {
    var d := |StackAt(insts, c)|;
    assert StackAt(insts, x)[d] == Frame(c, c);
    assert StackAt(insts, t.pc)[d] == Frame(c, c);
    if d < |StackAt(insts, g)| {
      FramesSound(insts, g, d);
      assert c < g < x;
      if g < i {
        FramesSound(insts, i, |StackAt(insts, g)|);
      }
      assert false;
    }
  }

  lemma {:induction false} EndIsNotBefore(insts: seq<Inst>, i: nat, c: nat, x: nat, g: nat, e: nat)
    requires i < e <= x < |insts| && c < e && InFirstArm(insts, c, x) && Computes(insts[x].op)
    requires g <= i <= c && StackAt(insts, c) + [Frame(c, c)] <= StackAt(insts, e)
    ensures !IsEnd(insts, e, g)
  {
    if IsEnd(insts, e, g) {
      var d := |StackAt(insts, c)|;
      MarkerWindow(insts, e, g);
      assert StackAt(insts, e)[d] == Frame(c, c);
      if d == |StackAt(insts, g)| {
        assert g == c && e < x;
        assert StackAt(insts, e + 1) == StackAt(insts, g);
        FramesSound(insts, x, d);
      }
    }
  }

  /** Having run x, a run that reaches a position before x in x's arm has entered that arm again. */
  lemma {:induction false} PastUntilEntered(f: Func, run: seq<State>, j: nat, k: nat, c: nat, x: nat)
    requires WellFormed(f) && IsRun(f.insts, run) && j < k < |run|
    requires c < |f.insts| && x < |f.insts| && InFirstArm(f.insts, c, x)
    requires Opens(f.insts[c].op) && Computes(f.insts[x].op)
    requires run[j].Running? && run[j].pc == x && run[k].Running?
    requires ArmNotReentered(f.insts, run, j, k, x)
    ensures run[k].pc <= c || x < run[k].pc
  {
    assert Step(f.insts, run[k - 1], run[k - 1 + 1]);
    if j < k - 1 {
      PastUntilEntered(f, run, j, k - 1, c, x);
    }
    MarkersAreOk(f, run[k - 1].pc);
    BackOnlyByEntering(f.insts, run[k - 1].pc, c, x, run[k]);
  }

  lemma {:induction false} RunExtends(insts: seq<Inst>, run: seq<State>, t: State)
    requires IsRun(insts, run) && Step(insts, Last(run), t)
    ensures IsRun(insts, run + [t])
  {
    var next := run + [t];
    forall n | 0 <= n < |next| - 1
      ensures Step(insts, next[n], next[n + 1])
    {
      if n < |run| - 1 {
        assert Step(insts, run[n], run[n + 1]);
      }
    }
  }

  lemma {:induction false} NotReadyWhenStranded(f: Func, run: seq<State>, c: nat, x: nat)
    requires WellFormed(f) && IsRun(f.insts, run) && |run| >= 2
    requires c < |f.insts| && x < |f.insts| && InFirstArm(f.insts, c, x)
    requires Opens(f.insts[c].op) && Computes(f.insts[x].op)
    requires run[|run| - 2].Running? && c < run[|run| - 2].pc < x
    ensures !ComputedSinceEntry(f.insts, run, |run| - 1, x)
  {
    var k := |run| - 1;
    if ComputedSinceEntry(f.insts, run, k, x) {
      var j :| 0 <= j < k && run[j].Running? && run[j].pc == x && ArmNotReentered(f.insts, run, j, k, x);
      assert ArmNotReentered(f.insts, run, j, k - 1, x);
      PastUntilEntered(f, run, j, k - 1, c, x);
    }
  }

  lemma {:induction false} StrandingBreaksRun(f: Func, run: seq<State>) returns (e: nat)
    requires WellFormed(f) && IsRun(f.insts, run)
    requires Last(run).Running? && Strands(f, Last(run).pc)
    ensures IsRun(f.insts, run + [Running(e, None)])
    ensures !OperandsReady(f, run + [Running(e, None)], |run|)
  {
    var i := Last(run).pc;
    var c: nat, e': nat, x: nat :|
      IsTarget(f.insts, i, c, true) && !HasLaterArm(f.insts, c) && IsEnd(f.insts, e', c) &&
      IsOperand(f, f.insts[e'], x) && i < x < |f.insts| && !FunctionScope(f.insts[x].op);
    e := e';
    StrandedRun(f, run, c, e, x);
  }

  lemma {:induction false} StrandedRun(f: Func, run: seq<State>, c: nat, e: nat, x: nat)
    requires WellFormed(f) && IsRun(f.insts, run)
    requires Last(run).Running? && Last(run).pc < |f.insts| && f.insts[Last(run).pc].op.Continue?
    requires IsTarget(f.insts, Last(run).pc, c, true) && !HasLaterArm(f.insts, c) && IsEnd(f.insts, e, c)
    requires IsOperand(f, f.insts[e], x) && Last(run).pc < x < |f.insts| && !FunctionScope(f.insts[x].op)
    ensures IsRun(f.insts, run + [Running(e, None)])
    ensures !OperandsReady(f, run + [Running(e, None)], |run|)
  {
    var next := run + [Running(e, None)];
    assert next[|next| - 2] == Last(run) && Last(next) == Running(e, None);
    StrandedStep(f.insts, Last(run).pc, c, e);
    RunExtends(f.insts, run, Running(e, None));
    StrandedOperand(f, Last(run).pc, c, e, x);
    NotReadyAtEnd(f, next, c, x);
  }

  lemma {:induction false} StrandedStep(insts: seq<Inst>, i: nat, c: nat, e: nat)
    requires i < |insts| && insts[i].op.Continue? && IsTarget(insts, i, c, true)
    requires !HasLaterArm(insts, c) && IsEnd(insts, e, c)
    ensures StepFrom(insts, i, Running(e, None))
  {
    assert ReachesEnd(insts, c, Running(e, None));
    assert ContinuesAt(insts, c, Running(e, None));
  }

  lemma {:induction false} NotReadyAtEnd(f: Func, run: seq<State>, c: nat, x: nat)
    requires WellFormed(f) && IsRun(f.insts, run) && |run| >= 2
    requires c < |f.insts| && x < |f.insts| && InFirstArm(f.insts, c, x)
    requires Opens(f.insts[c].op) && Computes(f.insts[x].op) && !FunctionScope(f.insts[x].op)
    requires run[|run| - 2].Running? && c < run[|run| - 2].pc < x
    requires Last(run).Running? && Last(run).pc < |f.insts| && IsOperand(f, f.insts[Last(run).pc], x)
    ensures !OperandsReady(f, run, |run| - 1)
  {
    NotReadyWhenStranded(f, run, c, x);
  }

  lemma {:induction false} StrandedOperand(f: Func, i: nat, c: nat, e: nat, x: nat)
    requires WellFormed(f) && i < |f.insts|
    requires IsTarget(f.insts, i, c, true) && !HasLaterArm(f.insts, c) && IsEnd(f.insts, e, c)
    requires IsOperand(f, f.insts[e], x) && i < x < |f.insts| && !FunctionScope(f.insts[x].op)
    ensures c < i && Opens(f.insts[c].op) && Computes(f.insts[x].op) && InFirstArm(f.insts, c, x)
  {
    var insts := f.insts;
    var d: nat :| TargetDepth(insts, i, d, true) && StackAt(insts, i)[d].construct == c;
    FramesSound(insts, i, d);
    assert InstOk(f, e) && OperandOk(f, e, x);
    EnclosesIsPrefix(insts, x, e);
    MarkerWindow(insts, e, c);
    OnlyArm(insts, e, c, e);
    OnlyArm(insts, e, c, x);
  }

  /** Exactly when: every run of an accepted function finds all operands ready if and only if no
      reachable instruction is a stranding continue. */
  lemma {:induction false} SafeIffNoStrandingReached(f: Func)
    requires WellFormed(f)
    ensures (forall run: seq<State>, k: nat :: IsRun(f.insts, run) && k < |run| ==> OperandsReady(f, run, k))
            <==> (forall i: nat :: Reachable(f, i) ==> !Strands(f, i))
  {
    if forall run: seq<State>, k: nat :: IsRun(f.insts, run) && k < |run| ==> OperandsReady(f, run, k) {
      forall i: nat | Reachable(f, i)
        ensures !Strands(f, i)
      {
        ReachableIffStoodAt(f, i);
        if Strands(f, i) {
          var run :| IsRun(f.insts, run) && Last(run).Running? && Last(run).pc == i;
          var e := StrandingBreaksRun(f, run);
        }
      }
    }
    if forall i: nat :: Reachable(f, i) ==> !Strands(f, i) {
      forall run: seq<State>, k: nat | IsRun(f.insts, run) && k < |run|
        ensures OperandsReady(f, run, k)
      {
        if k > 0 && run[k - 1].Running? {
          PastIsReachable(f, run, k);
        }
        RunFindsOperandsReady(f, run, k);
      }
    }
  }

  lemma {:induction false} PastIsReachable(f: Func, run: seq<State>, k: nat)
    requires IsRun(f.insts, run) && 0 < k < |run| && run[k - 1].Running?
    ensures Reachable(f, run[k - 1].pc)
  {
    var past := run[..k];
    assert IsRun(f.insts, past) by {
      forall n | 0 <= n < |past| - 1
        ensures Step(f.insts, past[n], past[n + 1])
      {
        assert Step(f.insts, run[n], run[n + 1]);
      }
    }
    assert Last(past) == run[k - 1];
    ReachableIffStoodAt(f, run[k - 1].pc);
  }

  /** What the continue at i skips on its way to the end of loop c: an operand of the closing marker e. */
  predicate Skips(f: Func, i: nat, c: nat, e: nat) {
    && e < |f.insts| && Belongs(f.insts, e, c) && Closes(f.insts[e].op)
    && exists x: nat :: i < x < |f.insts| && IsOperand(f, f.insts[e], x) && !FunctionScope(f.insts[x].op)
  }

  predicate SkipsFrom(f: Func, i: nat, d: nat)
    requires i < |f.insts|
  {
    && TargetDepth(f.insts, i, d, true)
    && var c := StackAt(f.insts, i)[d].construct;
       !ArmAfter(f.insts, c) && exists e: nat :: e < |f.insts| && Skips(f, i, c, e)
  }

  predicate StrandsHere(f: Func, i: nat) {
    i < |f.insts| && f.insts[i].op.Continue? &&
    exists d: nat :: d < |StackAt(f.insts, i)| && SkipsFrom(f, i, d)
  }

  lemma {:induction false} StrandsHereIs(f: Func, i: nat)
    ensures StrandsHere(f, i) <==> Strands(f, i)
  {
    if StrandsHere(f, i) {
      HereStrands(f, i);
    }
    if Strands(f, i) {
      StrandingIsHere(f, i);
    }
  }

  lemma {:induction false} HereStrands(f: Func, i: nat)
    requires StrandsHere(f, i)
    ensures Strands(f, i)
  {
    var d: nat :| d < |StackAt(f.insts, i)| && SkipsFrom(f, i, d);
    var c := StackAt(f.insts, i)[d].construct;
    ArmAfterIs(f.insts, c);
    var e: nat :| e < |f.insts| && Skips(f, i, c, e);
    assert IsTarget(f.insts, i, c, true) && IsEnd(f.insts, e, c);
  }

  lemma {:induction false} StrandingIsHere(f: Func, i: nat)
    requires Strands(f, i)
    ensures StrandsHere(f, i)
  {
    var c: nat, e: nat, x: nat :|
      IsTarget(f.insts, i, c, true) && !HasLaterArm(f.insts, c) && IsEnd(f.insts, e, c) &&
      IsOperand(f, f.insts[e], x) && i < x < |f.insts| && !FunctionScope(f.insts[x].op);
    ArmAfterIs(f.insts, c);
    var d: nat :| TargetDepth(f.insts, i, d, true) && StackAt(f.insts, i)[d].construct == c;
    assert Skips(f, i, c, e);
    assert SkipsFrom(f, i, d);
  }

  /** Decides, for an accepted function, whether all its runs find their operands ready. */
  method RunsAreSafe(f: Func) returns (safe: bool)
    requires WellFormed(f)
    ensures safe <==> forall run: seq<State>, k: nat :: IsRun(f.insts, run) && k < |run| ==> OperandsReady(f, run, k)
  {
    var seen := FindReachable(f);
    safe := forall i: nat :: i in seen ==> !StrandsHere(f, i);
    SafeIffNoStrandingReached(f);
    forall i: nat
      ensures StrandsHere(f, i) <==> Strands(f, i)
    {
      StrandsHereIs(f, i);
    }
  }

  /** What a caller can check without running anything: every loop that a continue targets has a
      continue section. The lowering never emits another kind. */
  ghost predicate ContinuesHaveSections(f: Func) {
    forall i: nat, c: nat :: i < |f.insts| && f.insts[i].op.Continue? && IsTarget(f.insts, i, c, true) ==>
      HasLaterArm(f.insts, c)
  }

  lemma {:induction false} SectionsMakeRunsSafe(f: Func, run: seq<State>, k: nat)
    requires WellFormed(f) && ContinuesHaveSections(f) && IsRun(f.insts, run) && k < |run|
    ensures OperandsReady(f, run, k)
  {
    RunFindsOperandsReady(f, run, k);
  }

  // ----- progress -----

  lemma {:induction false} EndOf(f: Func, c: nat) returns (e: nat)
    requires WellFormed(f) && c < |f.insts| && Opens(f.insts[c].op)
    ensures IsEnd(f.insts, e, c)
  {
    var d := |StackAt(f.insts, c)|;
    assert StackAt(f.insts, c + 1)[d] == Frame(c, c);
    e := CloserExists(f.insts, c + 1, d, |f.insts|);
  }

  lemma {:induction false} CanLeave(f: Func, c: nat) returns (t: State)
    requires WellFormed(f) && c < |f.insts| && Opens(f.insts[c].op)
    ensures Leaves(f.insts, c, t)
  {
    var e := EndOf(f, c);
    t := Running(e + 1, None);
  }

  lemma {:induction false} CanContinue(f: Func, c: nat) returns (t: State)
    requires WellFormed(f) && c < |f.insts| && Opens(f.insts[c].op)
    ensures ContinuesAt(f.insts, c, t)
  {
    if HasLaterArm(f.insts, c) {
      var m: nat :| Belongs(f.insts, m, c) && Splits(f.insts[m].op);
      t := Running(m + 1, Some(m));
    } else {
      var e := EndOf(f, c);
      t := Running(e, None);
    }
  }

  /** The innermost of the constructs around i that a break (a continue) can leave. */
  lemma {:induction false} InnermostTarget(insts: seq<Inst>, i: nat, d: nat, continueOnly: bool) returns (t: nat)
    requires i < |insts| && d < |StackAt(insts, i)|
    requires StackAt(insts, i)[d].construct < |insts| &&
             Target(insts[StackAt(insts, i)[d].construct].op, continueOnly)
    ensures TargetDepth(insts, i, t, continueOnly)
    decreases |StackAt(insts, i)| - d
  {
    var st := StackAt(insts, i);
    if e: nat :| d < e < |st| && st[e].construct < |insts| && Target(insts[st[e].construct].op, continueOnly) {
      t := InnermostTarget(insts, i, e, continueOnly);
    } else {
      t := d;
    }
  }

  lemma {:induction false} JumpExists(f: Func, i: nat) returns (t: State)
    requires WellFormed(f) && i < |f.insts| && (f.insts[i].op.Break? || f.insts[i].op.Continue?)
    ensures StepFrom(f.insts, i, t)
  {
    var only := f.insts[i].op.Continue?;
    MarkersAreOk(f, i);
    var c := TargetExists(f.insts, i, only);
    if only {
      t := CanContinue(f, c);
    } else {
      t := CanLeave(f, c);
    }
  }

  lemma {:induction false} TargetExists(insts: seq<Inst>, i: nat, only: bool) returns (c: nat)
    requires i < |insts| && HasTarget(insts, i, only)
    ensures IsTarget(insts, i, c, only) && c < i && Opens(insts[c].op) && (only ==> insts[c].op.Loop?)
  {
    var d0 :| 0 <= d0 < |StackAt(insts, i)| && StackAt(insts, i)[d0].construct < |insts| &&
      Target(insts[StackAt(insts, i)[d0].construct].op, only);
    var d := InnermostTarget(insts, i, d0, only);
    c := StackAt(insts, i)[d].construct;
    FramesSound(insts, i, d);
  }

  /** Every instruction of an accepted function has somewhere to go. */
  lemma {:induction false} StepExists(f: Func, i: nat) returns (t: State)
    requires WellFormed(f) && i < |f.insts|
    ensures StepFrom(f.insts, i, t)
  {
    var op := f.insts[i].op;
    MarkersAreOk(f, i);
    if op.Break? || op.Continue? {
      t := JumpExists(f, i);
    } else if op.Switch? {
      t := CanLeave(f, i);
    } else if op.Else? {
      OpenIsAround(f.insts, i, |StackAt(f.insts, i)| - 1);
      t := CanLeave(f, Last(StackAt(f.insts, i)).construct);
    } else {
      t := PlainStepExists(f.insts, i);
    }
  }

  lemma {:induction false} PlainStepExists(insts: seq<Inst>, i: nat) returns (t: State)
    requires i < |insts| && MarkerOk(insts, i)
    requires var op := insts[i].op; !op.Break? && !op.Continue? && !op.Switch? && !op.Else?
    ensures StepFrom(insts, i, t)
  {
    var op := insts[i].op;
    if op.EndLoop? {
      var c := Last(StackAt(insts, i)).construct;
      t := Running(c + 1, Some(c));
    } else if Opens(op) || Splits(op) {
      t := Running(i + 1, Some(i));
    } else if op.Return? || op.Discard? {
      t := Halted;
    } else {
      t := Running(i + 1, None);
    }
  }

  /** A run of an accepted function never gets stuck: it can go on until it halts or runs off
      the end. */
  lemma {:induction false} RunNeverStuck(f: Func, run: seq<State>) returns (t: State)
    requires WellFormed(f) && IsRun(f.insts, run)
    ensures Last(run).Running? ==> Last(run).pc <= |f.insts|
    ensures Last(run).Running? && Last(run).pc < |f.insts| ==> IsRun(f.insts, run + [t])
  {
    InvHolds(f, run, |run| - 1);
    t := Halted;
    if Last(run).Running? && Last(run).pc < |f.insts| {
      t := StepExists(f, Last(run).pc);
      RunExtends(f.insts, run, t);
    }
  }
}
