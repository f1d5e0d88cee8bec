/** Which instructions a run can stand at, found by a search over the marker stream: steps depend on
    the position alone. */
module Reachability {
  import opened Ir
  import opened ControlFlow
  import opened Verifier
  import opened Machine
  import opened GraphSearch

  // ----- one step, as positions -----

  predicate LaterArmStarts(insts: seq<Inst>, c: nat, j: nat) {
    j > 0 && Belongs(insts, j - 1, c) && Splits(insts[j - 1].op)
  }

  predicate EndsBefore(insts: seq<Inst>, c: nat, j: nat) {
    j > 0 && Belongs(insts, j - 1, c) && Closes(insts[j - 1].op)
  }

  predicate ArmAfter(insts: seq<Inst>, c: nat) {
    exists m: nat :: m < |insts| && Belongs(insts, m, c) && Splits(insts[m].op)
  }

  /** Where a continue of loop c lands. */
  predicate Lands(insts: seq<Inst>, c: nat, j: nat) {
    if ArmAfter(insts, c) then LaterArmStarts(insts, c, j)
    else Belongs(insts, j, c) && Closes(insts[j].op)
  }

  /** The construct at depth d is the one that a break (a continue) at i leaves, and doing so leads to j. */
  predicate JumpsFrom(insts: seq<Inst>, i: nat, d: nat, j: nat)
    requires i < |insts|
  {
    && TargetDepth(insts, i, d, insts[i].op.Continue?)
    && var c := StackAt(insts, i)[d].construct;
       if insts[i].op.Continue? then Lands(insts, c, j) else EndsBefore(insts, c, j)
  }

  predicate Jumps(insts: seq<Inst>, i: nat, j: nat)
    requires i < |insts|
  {
    exists d: nat :: d < |StackAt(insts, i)| && JumpsFrom(insts, i, d, j)
  }

  /** A step from instruction i can lead to position j. */
  predicate Goes(insts: seq<Inst>, i: nat, j: nat)
    requires i < |insts|
  {
    var st := StackAt(insts, i);
    match insts[i].op
    case If => j == i + 1 || (if ArmAfter(insts, i) then LaterArmStarts(insts, i, j) else EndsBefore(insts, i, j))
    case Switch => LaterArmStarts(insts, i, j) || EndsBefore(insts, i, j)
    case Else => st != [] && EndsBefore(insts, Last(st).construct, j)
    case EndLoop => (st != [] && j == Last(st).construct + 1) || (insts[i].args[0] != NONE && j == i + 1)
    case Break => Jumps(insts, i, j)
    case Continue => Jumps(insts, i, j)
    case Return => false
    case Discard => false
    case _ => j == i + 1
  }

  lemma {:induction false} ArmAfterIs(insts: seq<Inst>, c: nat)
    ensures ArmAfter(insts, c) <==> HasLaterArm(insts, c)
  {
  }

  lemma {:induction false} StepGoes(insts: seq<Inst>, i: nat, t: State)
    requires i < |insts| && StepFrom(insts, i, t) && t.Running?
    ensures Goes(insts, i, t.pc)
  {
    ArmAfterIs(insts, i);
    if insts[i].op.Break? || insts[i].op.Continue? {
      JumpGoes(insts, i, t);
    }
  }

  lemma {:induction false} JumpGoes(insts: seq<Inst>, i: nat, t: State)
    requires i < |insts| && StepFrom(insts, i, t) && t.Running? && (insts[i].op.Break? || insts[i].op.Continue?)
    ensures Jumps(insts, i, t.pc)
  {
    var only := insts[i].op.Continue?;
    var c: nat :| IsTarget(insts, i, c, only) && if only then ContinuesAt(insts, c, t) else Leaves(insts, c, t);
    ArmAfterIs(insts, c);
    var d: nat :| TargetDepth(insts, i, d, only) && StackAt(insts, i)[d].construct == c;
    assert JumpsFrom(insts, i, d, t.pc);
  }

  lemma {:induction false} GoesIsStep(insts: seq<Inst>, i: nat, j: nat) returns (t: State)
    requires i < |insts| && Goes(insts, i, j)
    ensures StepFrom(insts, i, t) && t.Running? && t.pc == j
  {
    ArmAfterIs(insts, i);
    var op := insts[i].op;
    t := Running(j, None);
    if op.Break? || op.Continue? {
      t := JumpIsStep(insts, i, j);
    } else if op.EndLoop? && StackAt(insts, i) != [] && j == Last(StackAt(insts, i)).construct + 1 {
      t := Running(j, Some(j - 1));
    } else if (op.If? || op.Switch?) && LaterArmStarts(insts, i, j) && (op.If? ==> j != i + 1) {
      t := Running(j, Some(j - 1));
      assert EntersLaterArm(insts, i, t);
    } else if op.Switch? || op.Else? || (op.If? && j != i + 1) {
      var c := if op.Else? then Last(StackAt(insts, i)).construct else i;
      assert IsEnd(insts, j - 1, c);
    } else if op.If? || op.Loop? || op.Case? || op.LoopContinue? {
      t := Running(j, Some(i));
    }
  }

  lemma {:induction false} JumpIsStep(insts: seq<Inst>, i: nat, j: nat) returns (t: State)
    requires i < |insts| && Jumps(insts, i, j) && (insts[i].op.Break? || insts[i].op.Continue?)
    ensures StepFrom(insts, i, t) && t.Running? && t.pc == j
  {
    var only := insts[i].op.Continue?;
    var d: nat :| d < |StackAt(insts, i)| && JumpsFrom(insts, i, d, j);
    var c := StackAt(insts, i)[d].construct;
    ArmAfterIs(insts, c);
    assert IsTarget(insts, i, c, only);
    if only && HasLaterArm(insts, c) {
      t := Running(j, Some(j - 1));
      assert EntersLaterArm(insts, c, t);
    } else {
      t := Running(j, None);
      assert if only then ReachesEnd(insts, c, t) else Leaves(insts, c, t) by {
        assert IsEnd(insts, if only then j else j - 1, c);
      }
    }
    assert if only then ContinuesAt(insts, c, t) else Leaves(insts, c, t);
  }

  lemma {:induction false} GoesInside(insts: seq<Inst>, i: nat, j: nat)
    requires i < |insts| && Goes(insts, i, j)
    ensures j <= |insts|
  {
    if insts[i].op.EndLoop? && StackAt(insts, i) != [] && j == Last(StackAt(insts, i)).construct + 1 {
      FramesSound(insts, i, |StackAt(insts, i)| - 1);
    }
  }

  // ----- reaching is being stood at by a run -----

  function Steps(insts: seq<Inst>): Edges {
    (i: nat, j: nat) => i < |insts| && Goes(insts, i, j)
  }

  /** Position j can be reached from `from`. */
  predicate ReachableFrom(insts: seq<Inst>, from: nat, j: nat) {
    Reaches(Steps(insts), |insts|, from, j)
  }

  predicate Reachable(f: Func, j: nat) {
    ReachableFrom(f.insts, 0, j)
  }

  /** A stretch of a run. */
  ghost predicate IsStretch(insts: seq<Inst>, run: seq<State>) {
    run != [] && forall k :: 0 <= k < |run| - 1 ==> Step(insts, run[k], run[k + 1])
  }

  lemma {:induction false} StretchExtends(insts: seq<Inst>, run: seq<State>, t: State)
    requires IsStretch(insts, run) && Step(insts, Last(run), t)
    ensures IsStretch(insts, run + [t])
  {
    var next := run + [t];
    forall n | 0 <= n < |next| - 1
      ensures Step(insts, next[n], next[n + 1])
    {
      if n < |run| - 1 {
        assert Step(insts, run[n], run[n + 1]);
      }
    }
  }

  /** The run stands where the path does. */
  ghost predicate Follows(run: seq<State>, p: seq<nat>) {
    |run| == |p| && forall k :: 0 <= k < |p| ==> run[k].Running? && run[k].pc == p[k]
  }

  lemma {:induction false} PathIsRun(insts: seq<Inst>, s: State, p: seq<nat>) returns (run: seq<State>)
    requires IsPath(Steps(insts), |insts|, p) && s.Running? && s.pc == p[0]
    ensures IsStretch(insts, run) && Follows(run, p) && run[0] == s
    decreases |p|
  {
    if |p| == 1 {
      run := [s];
    } else {
      var k := |p| - 2;
      assert IsPath(Steps(insts), |insts|, p[..k + 1]) by { PathShortens(Steps(insts), |insts|, p, k + 1); }
      run := PathIsRun(insts, s, p[..k + 1]);
      assert EdgeAt(Steps(insts), |insts|, p, k);
      var t := GoesIsStep(insts, p[k], p[k + 1]);
      assert Step(insts, Last(run), t);
      StretchExtends(insts, run, t);
      run := run + [t];
    }
  }

  lemma {:induction false} RunIsPath(insts: seq<Inst>, run: seq<State>) returns (p: seq<nat>)
    requires IsStretch(insts, run) && Last(run).Running?
    ensures IsPath(Steps(insts), |insts|, p) && Follows(run, p)
    decreases |run|
  {
    if |run| == 1 {
      p := [run[0].pc];
    } else {
      var k := |run| - 2;
      assert Step(insts, run[k], run[k + 1]);
      StepGoes(insts, run[k].pc, run[k + 1]);
      GoesInside(insts, run[k].pc, run[k + 1].pc);
      p := RunIsPath(insts, run[..k + 1]) by {
        assert forall i :: 0 <= i < k ==> Step(insts, run[i], run[i + 1]);
      }
      PathGoesOn(insts, p, run[k + 1].pc);
      p := p + [run[k + 1].pc];
    }
  }

  lemma {:induction false} PathGoesOn(insts: seq<Inst>, p: seq<nat>, j: nat)
    requires IsPath(Steps(insts), |insts|, p) && j <= |insts| && Last(p) < |insts| && Goes(insts, Last(p), j)
    ensures IsPath(Steps(insts), |insts|, p + [j])
  {
    var q := p + [j];
    forall k | 0 <= k < |q| - 1
      ensures EdgeAt(Steps(insts), |insts|, q, k)
    {
      if k < |p| - 1 {
        assert EdgeAt(Steps(insts), |insts|, p, k);
      }
    }
  }

  ghost predicate Arrives(insts: seq<Inst>, run: seq<State>, s: State, j: nat) {
    IsStretch(insts, run) && run[0] == s && Last(run).Running? && Last(run).pc == j
  }

  /** A position can be reached from a state's position exactly when some stretch of a run leads there. */
  lemma {:induction false} ReachableIffArrives(insts: seq<Inst>, s: State, j: nat)
    requires s.Running? && s.pc <= |insts|
    ensures ReachableFrom(insts, s.pc, j) <==> exists run :: Arrives(insts, run, s, j)
  {
    ReachesIffLeads(Steps(insts), |insts|, s.pc, j);
    if p :| IsPath(Steps(insts), |insts|, p) && p[0] == s.pc && p[|p| - 1] == j {
      var run := PathIsRun(insts, s, p);
      assert Arrives(insts, run, s, j);
    }
    if run :| Arrives(insts, run, s, j) {
      var p := RunIsPath(insts, run);
      assert IsPath(Steps(insts), |insts|, p) && p[0] == s.pc && p[|p| - 1] == j;
    }
  }

  /** A position is reachable exactly when some run of the function stands there. */
  lemma {:induction false} ReachableIffStoodAt(f: Func, j: nat)
    ensures Reachable(f, j) <==> exists run :: IsRun(f.insts, run) && Last(run).Running? && Last(run).pc == j
  {
    ReachableIffArrives(f.insts, START, j);
    if Reachable(f, j) {
      var run :| Arrives(f.insts, run, START, j);
      assert IsRun(f.insts, run);
    }
    if run :| IsRun(f.insts, run) && Last(run).Running? && Last(run).pc == j {
      assert Arrives(f.insts, run, START, j);
    }
  }

  /** The positions that runs can stand at. */
  method FindReachable(f: Func) returns (seen: set<nat>)
    ensures forall j: nat :: j in seen <==> Reachable(f, j)
  {
    seen := Search(Steps(f.insts), |f.insts|, 0);
  }
}
