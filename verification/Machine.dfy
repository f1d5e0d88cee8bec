/** Runs of a function as a step machine over its marker stream: every branch, case, break,
    continue and iteration is taken nondeterministically. */
module Machine {
  import opened Ir
  import opened ControlFlow
  import opened Verifier

  /** About to execute instruction `pc`; `entered` is the marker of the arm the step that led
      here entered, if any. */
  datatype State = Running(pc: nat, entered: Option<nat>) | Halted

  const START := Running(0, None)

  predicate Enters(a: nat, t: State) {
    t == Running(a + 1, Some(a))
  }

  /** Control enters one of construct c's later arms (else, continue section, case). */
  ghost predicate EntersLaterArm(insts: seq<Inst>, c: nat, t: State) {
    exists m: nat :: Belongs(insts, m, c) && Splits(insts[m].op) && Enters(m, t)
  }

  ghost predicate HasLaterArm(insts: seq<Inst>, c: nat) {
    exists m: nat :: Belongs(insts, m, c) && Splits(insts[m].op)
  }

  ghost predicate IsEnd(insts: seq<Inst>, e: nat, c: nat) {
    Belongs(insts, e, c) && Closes(insts[e].op)
  }

  /** Control continues after construct c's closing marker. */
  ghost predicate Leaves(insts: seq<Inst>, c: nat, t: State) {
    exists e: nat :: IsEnd(insts, e, c) && t == Running(e + 1, None)
  }

  /** Control continues at construct c's closing marker. */
  ghost predicate ReachesEnd(insts: seq<Inst>, c: nat, t: State) {
    exists e: nat :: IsEnd(insts, e, c) && t == Running(e, None)
  }

  /** Construct c is the innermost one around i that a break (a continue) leaves. */
  ghost predicate IsTarget(insts: seq<Inst>, i: nat, c: nat, continueOnly: bool)
    requires i < |insts|
  {
    exists d: nat :: TargetDepth(insts, i, d, continueOnly) && StackAt(insts, i)[d].construct == c
  }

  predicate TargetDepth(insts: seq<Inst>, i: nat, d: nat, continueOnly: bool)
    requires i < |insts|
  {
    var st := StackAt(insts, i);
    && d < |st|
    && st[d].construct < |insts| && Target(insts[st[d].construct].op, continueOnly)
    && forall e :: d < e < |st| && st[e].construct < |insts| ==>
         !Target(insts[st[e].construct].op, continueOnly)
  }

  ghost predicate ContinuesAt(insts: seq<Inst>, c: nat, t: State) {
    if HasLaterArm(insts, c) then EntersLaterArm(insts, c, t) else ReachesEnd(insts, c, t)
  }

  /** One step from instruction i. */
  ghost predicate StepFrom(insts: seq<Inst>, i: nat, t: State)
    requires i < |insts|
  {
    match insts[i].op
    case If =>
      Enters(i, t) || (if HasLaterArm(insts, i) then EntersLaterArm(insts, i, t) else Leaves(insts, i, t))
    case Switch => EntersLaterArm(insts, i, t) || Leaves(insts, i, t)
    case Loop => Enters(i, t)
    // falling into a marker: the then-arm is over, a case falls through, a body continues
    case Else => StackAt(insts, i) != [] && Leaves(insts, Last(StackAt(insts, i)).construct, t)
    case Case | LoopContinue => Enters(i, t)
    // the back edge, unconditional unless the marker carries a do-while's condition
    case EndLoop =>
      (StackAt(insts, i) != [] && Enters(Last(StackAt(insts, i)).construct, t)) ||
      (insts[i].args[0] != NONE && t == Running(i + 1, None))
    case Break => exists c :: IsTarget(insts, i, c, false) && Leaves(insts, c, t)
    case Continue => exists c :: IsTarget(insts, i, c, true) && ContinuesAt(insts, c, t)
    case Return | Discard => t == Halted
    case _ => t == Running(i + 1, None)
  }

  ghost predicate Step(insts: seq<Inst>, s: State, t: State) {
    s.Running? && s.pc < |insts| && StepFrom(insts, s.pc, t)
  }

  ghost predicate IsRun(insts: seq<Inst>, run: seq<State>) {
    && run != [] && run[0] == START
    && forall k :: 0 <= k < |run| - 1 ==> Step(insts, run[k], run[k + 1])
  }

  /** Instructions whose execution computes something: neither markers nor nops. */
  predicate Computes(op: Op) { !op.Nop? && !IsMarker(op) }

  /** No step after the j-th, up to the k-th, entered an arm that x lies in. */
  ghost predicate ArmNotReentered(insts: seq<Inst>, run: seq<State>, j: nat, k: nat, x: nat)
    requires k < |run| && x < |insts|
  {
    forall i :: j < i <= k && run[i].Running? && run[i].entered.Some? ==>
      !InArm(insts, run[i].entered.value, x)
  }

  /** x was executed earlier in the run, and its arm has not been entered again since. */
  ghost predicate ComputedSinceEntry(insts: seq<Inst>, run: seq<State>, k: nat, x: nat)
    requires k < |run| && x < |insts|
  {
    exists j :: 0 <= j < k && run[j].Running? && run[j].pc == x &&
      ArmNotReentered(insts, run, j, k, x)
  }

  // ----- where a step can lead -----

  /** Construct c is open at i, or i opens it. */
  ghost predicate Around(insts: seq<Inst>, c: nat, i: nat)
    requires i < |insts|
  {
    c <= i && Opens(insts[c].op) && StackAt(insts, c) <= StackAt(insts, i) &&
    (c < i ==> |StackAt(insts, c)| < |StackAt(insts, i)| &&
               StackAt(insts, i)[|StackAt(insts, c)|].construct == c)
  }

  lemma {:induction false} OpenIsAround(insts: seq<Inst>, i: nat, d: nat)
    requires i < |insts| && d < |StackAt(insts, i)|
    ensures Around(insts, StackAt(insts, i)[d].construct, i)
  {
    FramesSound(insts, i, d);
  }

  /** All that position p sees was seen just before construct c. */
  ghost predicate SeesOnly(insts: seq<Inst>, p: nat, c: nat)
    requires p <= |insts| && c < |insts|
  {
    forall x :: 0 <= x < p && Computes(insts[x].op) && StackAt(insts, x) <= StackAt(insts, p) ==>
      x < c && StackAt(insts, x) <= StackAt(insts, c)
  }

  lemma {:induction false} ArmsAreEarlier(insts: seq<Inst>, a: nat, x: nat)
    requires x <= a && x <= |insts|
    ensures !InArm(insts, a, x)
  {
    if InArm(insts, a, x) {
      var d: nat :| d < |StackAt(insts, x)| && StackAt(insts, x)[d].arm == a;
      FramesSound(insts, x, d);
    }
  }

  /** The stack inside arm a of construct c. */
  lemma {:induction false} ArmStack(insts: seq<Inst>, c: nat, a: nat)
    requires a < |insts| && c < |insts|
    requires (a == c && Opens(insts[c].op)) || (Belongs(insts, a, c) && Splits(insts[a].op))
    ensures c <= a && StackAt(insts, a + 1) == StackAt(insts, c) + [Frame(c, a)]
    ensures Opens(insts[c].op)
    ensures a != c ==> forall k :: c < k <= a ==> |StackAt(insts, c)| < |StackAt(insts, k)|
  {
    if Splits(insts[a].op) {
      MarkerWindow(insts, a, c);
      var st := StackAt(insts, a);
      assert st[..|st| - 1] == StackAt(insts, c);
      assert StackAt(insts, a + 1) == StepStack(st, insts[a].op, a);
    }
  }

  /** The first position of an arm sees what its construct saw. */
  lemma {:induction false} EnteringNarrows(insts: seq<Inst>, c: nat, a: nat)
    requires a < |insts| && c < |insts|
    requires (a == c && Opens(insts[c].op)) || (Belongs(insts, a, c) && Splits(insts[a].op))
    ensures c <= a && SeesOnly(insts, a + 1, c)
  {
    ArmStack(insts, c, a);
    var base := StackAt(insts, c);
    forall x | 0 <= x < a + 1 && Computes(insts[x].op) && StackAt(insts, x) <= StackAt(insts, a + 1)
      ensures x < c && StackAt(insts, x) <= base
    {
      if StackAt(insts, x) == base + [Frame(c, a)] {
        FramesSound(insts, x, |base|);
      }
      assert |StackAt(insts, x)| <= |base|;
      assert x < c;
      assert StackAt(insts, x) == (base + [Frame(c, a)])[..|StackAt(insts, x)|] == base[..|StackAt(insts, x)|];
    }
  }

  /** The position after a construct sees what the construct saw. */
  lemma {:induction false} LeavingNarrows(insts: seq<Inst>, c: nat, e: nat)
    requires IsEnd(insts, e, c)
    ensures c < e && SeesOnly(insts, e + 1, c)
  {
    MarkerWindow(insts, e, c);
    assert StackAt(insts, e + 1) == StackAt(insts, c);
  }

  /** The closing marker of a construct that is open at i lies after i. */
  lemma {:induction false} EndIsAhead(insts: seq<Inst>, i: nat, c: nat, e: nat)
    requires i < |insts| && Around(insts, c, i) && c < i && IsEnd(insts, e, c)
    ensures i <= e
  {
    MarkerWindow(insts, e, c);
    if e < i {
      assert StackAt(insts, e + 1) == StackAt(insts, c);
      FramesSound(insts, i, |StackAt(insts, c)|);
    }
  }

  lemma {:induction false} ConstructEndsOnce(insts: seq<Inst>, c: nat, i: nat, j: nat)
    requires IsEnd(insts, i, c) && IsEnd(insts, j, c)
    ensures i == j
  {
    MarkerWindow(insts, i, c);
    MarkerWindow(insts, j, c);
    assert StackAt(insts, i + 1) == StackAt(insts, c) == StackAt(insts, j + 1);
  }

  // The three ways a step can go: to the next instruction, to a place that sees no more than
  // the construct c did, or to c's closing marker (a continue in a loop without a continue
  // section).
  ghost predicate Sequential(insts: seq<Inst>, i: nat, t: State)
    requires i < |insts|
  {
    t == Running(i + 1, None) && StackAt(insts, i + 1) <= StackAt(insts, i) && !insts[i].op.EndLoop?
  }

  function ArmFrame(c: nat, entered: Option<nat>): seq<Frame> {
    if entered.Some? then [Frame(c, entered.value)] else []
  }

  ghost predicate Narrowed(insts: seq<Inst>, i: nat, c: nat, t: State)
    requires i < |insts|
  {
    && t.Running? && t.pc <= |insts| && Around(insts, c, i) && SeesOnly(insts, t.pc, c)
    && c < t.pc && StackAt(insts, t.pc) == StackAt(insts, c) + ArmFrame(c, t.entered)
    && (t.entered.None? ==> IsEnd(insts, t.pc - 1, c))
    && (t.entered.Some? ==>
          var a := t.entered.value;
          c <= a && t.pc == a + 1 && (a == c || (Belongs(insts, a, c) && Splits(insts[a].op))))
  }

  ghost predicate AtEnd(insts: seq<Inst>, i: nat, c: nat, t: State)
    requires i < |insts|
  {
    && insts[i].op.Continue? && IsTarget(insts, i, c, true) && Around(insts, c, i)
    && !HasLaterArm(insts, c)
    && t.Running? && t.entered.None? && IsEnd(insts, t.pc, c) && i < t.pc
  }

  lemma {:induction false} LeavingStep(insts: seq<Inst>, i: nat, c: nat, t: State)
    requires i < |insts| && Around(insts, c, i) && Leaves(insts, c, t)
    ensures Narrowed(insts, i, c, t)
  {
    var e: nat :| IsEnd(insts, e, c) && t == Running(e + 1, None);
    LeavingNarrows(insts, c, e);
    MarkerWindow(insts, e, c);
    assert StackAt(insts, e + 1) == StackAt(insts, c) + [];
  }

  lemma {:induction false} EnteringStep(insts: seq<Inst>, i: nat, c: nat, a: nat)
    requires i < |insts| && Around(insts, c, i) && a < |insts|
    requires a == c || (Belongs(insts, a, c) && Splits(insts[a].op))
    ensures Narrowed(insts, i, c, Running(a + 1, Some(a)))
  {
    EnteringNarrows(insts, c, a);
    ArmStack(insts, c, a);
  }

  lemma {:induction false} ContinueStep(insts: seq<Inst>, i: nat, c: nat, t: State)
    requires i < |insts| && insts[i].op.Continue? && IsTarget(insts, i, c, true) && ContinuesAt(insts, c, t)
    ensures Narrowed(insts, i, c, t) || AtEnd(insts, i, c, t)
  {
    var d: nat :| TargetDepth(insts, i, d, true) && StackAt(insts, i)[d].construct == c;
    OpenIsAround(insts, i, d);
    if HasLaterArm(insts, c) {
      var m: nat :| Belongs(insts, m, c) && Splits(insts[m].op) && Enters(m, t);
      EnteringStep(insts, i, c, m);
    } else {
      var e: nat :| IsEnd(insts, e, c) && t == Running(e, None);
      FramesSound(insts, i, d);
      EndIsAhead(insts, i, c, e);
    }
  }

  lemma {:induction false} BreakStep(insts: seq<Inst>, i: nat, t: State) returns (c: nat)
    requires i < |insts| && insts[i].op.Break? && StepFrom(insts, i, t)
    ensures Narrowed(insts, i, c, t)
  {
    c :| IsTarget(insts, i, c, false) && Leaves(insts, c, t);
    var d: nat :| TargetDepth(insts, i, d, false) && StackAt(insts, i)[d].construct == c;
    OpenIsAround(insts, i, d);
    LeavingStep(insts, i, c, t);
  }

  lemma {:induction false} OpeningStep(insts: seq<Inst>, i: nat, t: State)
    requires i < |insts| && Opens(insts[i].op) && StepFrom(insts, i, t)
    ensures Narrowed(insts, i, i, t)
  {
    if Enters(i, t) {
      EnteringStep(insts, i, i, i);
    } else if EntersLaterArm(insts, i, t) {
      var m: nat :| Belongs(insts, m, i) && Splits(insts[m].op) && Enters(m, t);
      EnteringStep(insts, i, i, m);
    } else {
      LeavingStep(insts, i, i, t);
    }
  }

  lemma {:induction false} InnerMarkerStep(insts: seq<Inst>, i: nat, t: State) returns (c: nat)
    requires i < |insts| && StackAt(insts, i) != [] && StepFrom(insts, i, t)
    requires Splits(insts[i].op) || insts[i].op.EndLoop?
    ensures Narrowed(insts, i, c, t)
  {
    c := Last(StackAt(insts, i)).construct;
    OpenIsAround(insts, i, |StackAt(insts, i)| - 1);
    if insts[i].op.Else? {
      LeavingStep(insts, i, c, t);
    } else if insts[i].op.EndLoop? {
      BackEdgeStep(insts, i, c, t);
    } else {
      EnteringStep(insts, i, c, i);
    }
  }

  lemma {:induction false} BackEdgeStep(insts: seq<Inst>, i: nat, c: nat, t: State)
    requires i < |insts| && insts[i].op.EndLoop? && IsEnd(insts, i, c)
    requires Around(insts, c, i) && StepFrom(insts, i, t)
    ensures Narrowed(insts, i, c, t)
  {
    if Enters(c, t) {
      EnteringStep(insts, i, c, c);
    } else {
      LeavingStep(insts, i, c, t);
    }
  }

  lemma {:induction false} StepKinds(insts: seq<Inst>, i: nat, t: State) returns (c: nat)
    requires i < |insts| && StepFrom(insts, i, t) && t.Running?
    requires Splits(insts[i].op) || Closes(insts[i].op) ==> StackAt(insts, i) != []
    ensures Sequential(insts, i, t) || Narrowed(insts, i, c, t) || AtEnd(insts, i, c, t)
  {
    var op := insts[i].op;
    if Opens(op) {
      c := i;
      OpeningStep(insts, i, t);
    } else if Splits(op) || op.EndLoop? {
      c := InnerMarkerStep(insts, i, t);
    } else if op.Break? {
      c := BreakStep(insts, i, t);
    } else if op.Continue? {
      c :| IsTarget(insts, i, c, true) && ContinuesAt(insts, c, t);
      ContinueStep(insts, i, c, t);
    } else {
      c := 0;
      assert t == Running(i + 1, None);
    }
  }
}
