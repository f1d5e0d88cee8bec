/** Loops whose body ends in an unconditional exit: exactly when such a loop nevertheless runs its body
    again. An inlined call's early-return wrapper never does. */
module LoopsOnce {
  import opened Ir
  import opened ControlFlow
  import opened Verifier
  import opened Machine
  import opened GraphSearch
  import opened Reachability
  import opened RunSafety
  import opened CfQueries

  /** Loop l closes at e, its first marker is m, and its body ends in the exit at x. */
  ghost predicate ExitsLoop(insts: seq<Inst>, l: nat, x: nat, m: nat, e: nat) {
    && l < |insts| && insts[l].op.Loop? && m <= e
    && IsEnd(insts, e, l) && Belongs(insts, m, l)
    && ExitAt(insts, l, m, x)
  }

  lemma {:induction false} NopsKeepStack(insts: seq<Inst>, x: nat, m: nat, k: nat)
    requires x <= k < m <= |insts|
    requires insts[x].op.Break? || insts[x].op.Return? || insts[x].op.Discard?
    requires forall n :: x < n < m ==> insts[n].op.Nop?
    ensures StackAt(insts, k + 1) == StackAt(insts, x)
  {
    if x < k {
      NopsKeepStack(insts, x, m, k - 1);
    }
  }

  /** The exit sits at the body's own level. */
  lemma {:induction false} ExitLevel(insts: seq<Inst>, l: nat, x: nat, m: nat, e: nat)
    requires ExitsLoop(insts, l, x, m, e)
    ensures |StackAt(insts, x)| == |StackAt(insts, l)| + 1
  {
    NopsKeepStack(insts, x, m, m - 1);
    MarkerWindow(insts, m, l);
  }

  /** A marker in the rest of the loop belongs to the loop, or to a construct that opens there. */
  lemma {:induction false} OwnerIsLoop(insts: seq<Inst>, l: nat, x: nat, m: nat, e: nat, q: nat, g: nat)
    requires ExitsLoop(insts, l, x, m, e)
    requires x <= q <= e && Belongs(insts, q, g) && g <= x
    ensures g == l
  {
    assert |StackAt(insts, x)| == |StackAt(insts, l)| + 1 by { ExitLevel(insts, l, x, m, e); }
    OwnerAtLevel(insts, l, x, e, q, g);
  }

  lemma {:induction false} OwnerAtLevel(insts: seq<Inst>, l: nat, x: nat, e: nat, q: nat, g: nat)
    requires l < x < q <= e && IsEnd(insts, e, l) && |StackAt(insts, x)| == |StackAt(insts, l)| + 1
    requires Belongs(insts, q, g) && g <= x && !Splits(insts[x].op) && !Opens(insts[x].op)
    ensures g == l
  {
    MarkerWindow(insts, q, g);
    MarkerWindow(insts, e, l);
  }

  /** Whatever is inside a construct that opens in the rest of the loop is there too. */
  lemma {:induction false} InnerIsInside(insts: seq<Inst>, l: nat, x: nat, m: nat, e: nat, g: nat, i: nat)
    requires ExitsLoop(insts, l, x, m, e) && x < g < e && i < |insts| && Around(insts, g, i)
    ensures x < i <= e
  {
    var d := |StackAt(insts, l)|;
    MarkerWindow(insts, e, l);
    assert StackAt(insts, e + 1) == StackAt(insts, l);
    assert StackAt(insts, g)[d].construct == l;
    assert StackAt(insts, i)[d].construct == l;
    if i > e {
      FramesSound(insts, i, d);
    }
  }

  /** The step that led to t entered a later arm of l. */
  predicate EntersSection(insts: seq<Inst>, l: nat, t: State) {
    t.Running? && t.pc > 0 && t.entered == Some(t.pc - 1) &&
    Belongs(insts, t.pc - 1, l) && Splits(insts[t.pc - 1].op)
  }

  lemma {:induction false} ContinueEntersOwn(insts: seq<Inst>, i: nat, l: nat, t: State)
    requires i < |insts| && insts[i].op.Continue? && StepFrom(insts, i, t) && EntersSection(insts, l, t)
    ensures IsTarget(insts, i, l, true)
  {
    var c: nat :| IsTarget(insts, i, c, true) && ContinuesAt(insts, c, t);
    assert Belongs(insts, t.pc - 1, c);
  }

  /** A later arm of a loop is entered from its own marker or by a continue. */
  lemma {:induction false} HowSectionsAreEntered(insts: seq<Inst>, i: nat, l: nat, t: State)
    requires i < |insts| && l < |insts| && insts[l].op.Loop?
    requires StepFrom(insts, i, t) && EntersSection(insts, l, t)
    ensures i == t.pc - 1 || (insts[i].op.Continue? && IsTarget(insts, i, l, true))
  {
    if insts[i].op.Continue? {
      ContinueEntersOwn(insts, i, l, t);
    } else if insts[i].op.EndLoop? {
      FramesSound(insts, i, |StackAt(insts, i)| - 1);
    } else if Opens(insts[i].op) && EntersLaterArm(insts, i, t) {
      assert Belongs(insts, t.pc - 1, i);
    }
  }

  // ----- how the rest of the loop is entered -----

  /** The only way past the exit into the rest of the loop is a continue of the loop. */
  lemma {:induction false} OnlyContinueGetsPast(f: Func, i: nat, t: State, l: nat, x: nat, m: nat, e: nat)
    requires WellFormed(f) && i < |f.insts| && StepFrom(f.insts, i, t) && t.Running?
    requires ExitsLoop(f.insts, l, x, m, e) && !(x < i <= e) && x < t.pc <= e
    ensures f.insts[i].op.Continue? && IsTarget(f.insts, i, l, true)
  {
    MarkersAreOk(f, i);
    var g := StepKinds(f.insts, i, t);
    if Sequential(f.insts, i, t) {
      ExitIsNotSequential(f.insts, x, t);
    } else if Narrowed(f.insts, i, g, t) {
      NarrowedIntoRest(f.insts, l, x, m, e, i, g, t);
      HowSectionsAreEntered(f.insts, i, l, t);
    } else {
      AtEndInRest(f.insts, l, x, m, e, i, g, t);
    }
  }

  lemma {:induction false} NarrowedIntoRest(insts: seq<Inst>, l: nat, x: nat, m: nat, e: nat, i: nat, g: nat, t: State)
    requires ExitsLoop(insts, l, x, m, e) && i < |insts| && !(x < i <= e)
    requires Narrowed(insts, i, g, t) && x < t.pc <= e
    ensures EntersSection(insts, l, t) && x < t.pc - 1
  {
    if x < g {
      InnerIsInside(insts, l, x, m, e, g, i);
    } else {
      OwnerIsLoop(insts, l, x, m, e, t.pc - 1, g);
      if t.entered.None? {
        ConstructEndsOnce(insts, l, e, t.pc - 1);
      }
    }
  }

  lemma {:induction false} AtEndInRest(insts: seq<Inst>, l: nat, x: nat, m: nat, e: nat, i: nat, g: nat, t: State)
    requires ExitsLoop(insts, l, x, m, e) && i < |insts| && !(x < i <= e)
    requires AtEnd(insts, i, g, t) && x < t.pc <= e
    ensures insts[i].op.Continue? && IsTarget(insts, i, l, true)
  {
    MarkerWindow(insts, t.pc, g);
    if x < g {
      InnerIsInside(insts, l, x, m, e, g, i);
    } else {
      OwnerIsLoop(insts, l, x, m, e, t.pc, g);
    }
  }

  lemma {:induction false} ExitIsNotSequential(insts: seq<Inst>, i: nat, t: State)
    requires i < |insts| && (insts[i].op.Break? || insts[i].op.Return? || insts[i].op.Discard?)
    requires t == Running(i + 1, None)
    ensures !StepFrom(insts, i, t)
  {
  }

  lemma {:induction false} WasRunning(insts: seq<Inst>, run: seq<State>, k: nat)
    requires IsRun(insts, run) && k < |run| && run[k].Running? && run[k].pc > 0
    ensures k > 0 && run[k - 1].Running?
  {
    if k > 0 {
      assert Step(insts, run[k - 1], run[k - 1 + 1]);
    }
  }

  /** The step with which a run that is in the rest of the loop got there. */
  lemma {:induction false} GotPastAt(f: Func, run: seq<State>, k: nat, l: nat, x: nat, m: nat, e: nat) returns (h: nat)
    requires IsRun(f.insts, run) && k < |run| && run[k].Running? && x < run[k].pc <= e
    requires ExitsLoop(f.insts, l, x, m, e)
    ensures h < k && run[h].Running? && run[h + 1].Running?
    ensures !(x < run[h].pc <= e) && x < run[h + 1].pc <= e
  {
    WasRunning(f.insts, run, k);
    if x < run[k - 1].pc <= e {
      h := GotPastAt(f, run, k - 1, l, x, m, e);
    } else {
      h := k - 1;
    }
  }

  // ----- exactly when the body runs again -----

  /** Some run enters l's body from elsewhere than the loop marker: it repeats. */
  ghost predicate RunsAgain(f: Func, l: nat) {
    exists run: seq<State>, k: nat :: RepeatsAt(f, run, k, l)
  }

  ghost predicate RepeatsAt(f: Func, run: seq<State>, k: nat, l: nat) {
    IsRun(f.insts, run) && k + 1 < |run| && run[k + 1] == Running(l + 1, Some(l)) && run[k].Running? && run[k].pc != l
  }

  /** A reachable continue of the loop lands where its end can be reached. */
  ghost predicate ComesBack(f: Func, l: nat, e: nat) {
    exists i: nat, j: nat :: ComesBackBy(f, l, e, i, j)
  }

  predicate ComesBackBy(f: Func, l: nat, e: nat, i: nat, j: nat) {
    && i < |f.insts| && f.insts[i].op.Continue? && Reachable(f, i)
    && Continues(f.insts, i, l) && Lands(f.insts, l, j) && ReachableFrom(f.insts, j, e)
  }

  /** The continue at i continues loop l. */
  predicate Continues(insts: seq<Inst>, i: nat, l: nat)
    requires i < |insts|
  {
    exists d: nat :: d < |StackAt(insts, i)| && TargetDepth(insts, i, d, true) && StackAt(insts, i)[d].construct == l
  }

  lemma {:induction false} ContinuesIs(insts: seq<Inst>, i: nat, l: nat)
    requires i < |insts|
    ensures Continues(insts, i, l) <==> IsTarget(insts, i, l, true)
  {
  }

  /** A loop's body runs again exactly when its end can be reached. */
  lemma {:induction false} RunsAgainIffEndReached(f: Func, l: nat, e: nat)
    requires WellFormed(f) && l < |f.insts| && f.insts[l].op.Loop? && IsEnd(f.insts, e, l)
    ensures RunsAgain(f, l) <==> Reachable(f, e)
  {
    if run: seq<State>, k: nat :| RepeatsAt(f, run, k, l) {
      assert Step(f.insts, run[k], run[k + 1]);
      BackEdgeIsFromEnd(f.insts, run[k].pc, l, e);
      PastIsReachable(f, run, k + 1);
    }
    if Reachable(f, e) {
      ReachableIffStoodAt(f, e);
      var run :| IsRun(f.insts, run) && Last(run).Running? && Last(run).pc == e;
      TakesBackEdge(f, run, l, e);
    }
  }

  lemma {:induction false} TakesBackEdge(f: Func, run: seq<State>, l: nat, e: nat)
    requires WellFormed(f) && l < |f.insts| && f.insts[l].op.Loop? && IsEnd(f.insts, e, l)
    requires IsRun(f.insts, run) && Last(run).Running? && Last(run).pc == e
    ensures RunsAgain(f, l)
  {
    MarkersAreOk(f, e);
    MarkerWindow(f.insts, e, l);
    var t := Running(l + 1, Some(l));
    assert f.insts[e].op.EndLoop? && StepFrom(f.insts, e, t);
    RunExtends(f.insts, run, t);
    assert RepeatsAt(f, run + [t], |run| - 1, l);
  }

  lemma {:induction false} BackEdgeIsFromEnd(insts: seq<Inst>, i: nat, l: nat, e: nat)
    requires i < |insts| && l < |insts| && insts[l].op.Loop? && IsEnd(insts, e, l)
    requires StepFrom(insts, i, Running(l + 1, Some(l)))
    ensures i == l || i == e
  {
    if insts[i].op.EndLoop? {
      assert IsEnd(insts, i, l);
      ConstructEndsOnce(insts, l, i, e);
    }
  }

  lemma {:induction false} OneTarget(insts: seq<Inst>, i: nat, c: nat, d: nat, only: bool)
    requires i < |insts| && IsTarget(insts, i, c, only) && IsTarget(insts, i, d, only)
    ensures c == d
  {
  }

  /** Where a continue of l lands. */
  lemma {:induction false} ContinueLands(insts: seq<Inst>, i: nat, t: State, l: nat)
    requires i < |insts| && insts[i].op.Continue? && IsTarget(insts, i, l, true) && StepFrom(insts, i, t)
    ensures t.Running? && Lands(insts, l, t.pc)
  {
    var c: nat :| IsTarget(insts, i, c, true) && ContinuesAt(insts, c, t);
    OneTarget(insts, i, c, l, true);
    ArmAfterIs(insts, l);
  }

  lemma {:induction false} LandingIsJump(insts: seq<Inst>, i: nat, j: nat, l: nat)
    requires i < |insts| && insts[i].op.Continue? && Continues(insts, i, l) && Lands(insts, l, j)
    ensures Goes(insts, i, j)
  {
    var d: nat :| d < |StackAt(insts, i)| && TargetDepth(insts, i, d, true) && StackAt(insts, i)[d].construct == l;
    assert JumpsFrom(insts, i, d, j);
  }

  /** A stretch of a run, from its h-th state to its k-th. */
  lemma {:induction false} StretchOfRun(f: Func, run: seq<State>, h: nat, k: nat)
    requires IsRun(f.insts, run) && h <= k < |run| && run[h].Running? && run[k].Running?
    requires run[h].pc <= |f.insts|
    ensures ReachableFrom(f.insts, run[h].pc, run[k].pc)
  {
    var part := run[h..k + 1];
    forall n | 0 <= n < |part| - 1
      ensures Step(f.insts, part[n], part[n + 1])
    {
      assert Step(f.insts, run[h + n], run[h + n + 1]);
    }
    assert Arrives(f.insts, part, run[h], run[k].pc);
    ReachableIffArrives(f.insts, run[h], run[k].pc);
  }

  lemma {:induction false} ReachingEndComesBack(f: Func, run: seq<State>, l: nat, x: nat, m: nat, e: nat)
    requires WellFormed(f) && ExitsLoop(f.insts, l, x, m, e)
    requires IsRun(f.insts, run) && Last(run).Running? && Last(run).pc == e
    ensures ComesBack(f, l, e)
  {
    var k := |run| - 1;
    var h := GotPastAt(f, run, k, l, x, m, e);
    var i := run[h].pc;
    assert Step(f.insts, run[h], run[h + 1]);
    OnlyContinueGetsPast(f, i, run[h + 1], l, x, m, e);
    ContinueLands(f.insts, i, run[h + 1], l);
    ContinuesIs(f.insts, i, l);
    PastIsReachable(f, run, h + 1);
    StretchOfRun(f, run, h + 1, k);
    assert ComesBackBy(f, l, e, i, run[h + 1].pc);
  }

  lemma {:induction false} ComingBackReachesEnd(f: Func, l: nat, e: nat, i: nat, j: nat)
    requires ComesBackBy(f, l, e, i, j)
    ensures Reachable(f, e)
  {
    LandingIsJump(f.insts, i, j, l);
    GoesInside(f.insts, i, j);
    ReachesNext(Steps(f.insts), |f.insts|, 0, i, j);
    ReachesOn(Steps(f.insts), |f.insts|, 0, j, e);
  }

  /** Exactly when a loop that is said to run once runs again: when some reachable continue of it lands
      where its end can be reached. */
  lemma {:induction false} RunsAgainIffComesBack(f: Func, l: nat, x: nat, m: nat, e: nat)
    requires WellFormed(f) && ExitsLoop(f.insts, l, x, m, e)
    ensures RunsAgain(f, l) <==> ComesBack(f, l, e)
  {
    RunsAgainIffEndReached(f, l, e);
    if Reachable(f, e) {
      ReachableIffStoodAt(f, e);
      var run :| IsRun(f.insts, run) && Last(run).Running? && Last(run).pc == e;
      ReachingEndComesBack(f, run, l, x, m, e);
    }
    if i: nat, j: nat :| ComesBackBy(f, l, e, i, j) {
      ComingBackReachesEnd(f, l, e, i, j);
    }
  }

  /** Without a continue section, that is when some reachable continue targets it. */
  lemma {:induction false} RunsAgainIffContinued(f: Func, l: nat, x: nat, m: nat, e: nat)
    requires WellFormed(f) && ExitsLoop(f.insts, l, x, m, e) && !HasLaterArm(f.insts, l)
    ensures RunsAgain(f, l) <==>
            exists i: nat :: i < |f.insts| && f.insts[i].op.Continue? && Reachable(f, i) && IsTarget(f.insts, i, l, true)
  {
    RunsAgainIffComesBack(f, l, x, m, e);
    if i: nat, j: nat :| ComesBackBy(f, l, e, i, j) {
      ContinuesIs(f.insts, i, l);
    }
    if i: nat :| i < |f.insts| && f.insts[i].op.Continue? && Reachable(f, i) && IsTarget(f.insts, i, l, true) {
      ContinuesIs(f.insts, i, l);
      ArmAfterIs(f.insts, l);
      ReachesItself(Steps(f.insts), |f.insts|, e);
      assert ComesBackBy(f, l, e, i, e);
    }
  }

  ghost predicate NoContinueTo(insts: seq<Inst>, l: nat) {
    forall i :: 0 <= i < |insts| && insts[i].op.Continue? ==> !IsTarget(insts, i, l, true)
  }

  /** So the loop runs its body once whenever no continue targets it: an inlined call's wrapper. */
  lemma {:induction false} BodyRunsOnce(f: Func, l: nat, x: nat, m: nat, e: nat)
    requires WellFormed(f) && ExitsLoop(f.insts, l, x, m, e) && NoContinueTo(f.insts, l)
    ensures !RunsAgain(f, l)
  {
    RunsAgainIffComesBack(f, l, x, m, e);
    if i: nat, j: nat :| ComesBackBy(f, l, e, i, j) {
      ContinuesIs(f.insts, i, l);
    }
  }
}
