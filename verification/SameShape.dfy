/** Where a run can go depends on the markers alone: two functions with the same ones allow the same
    steps. */
module SameShape {
  import opened Ir
  import opened ControlFlow
  import opened Verifier
  import opened Machine

  predicate SameMarker(a: Inst, b: Inst) {
    && (a.op == b.op || (!IsMarker(a.op) && !IsMarker(b.op)))
    && (a.op.EndLoop? ==> (a.args[0] == NONE <==> b.args[0] == NONE))
    && (a.op.Case? ==> a.args[0] == b.args[0] && a.args[1] == b.args[1])
  }

  ghost predicate Alike(f: seq<Inst>, g: seq<Inst>) {
    |f| == |g| && forall i: nat {:trigger f[i]} {:trigger g[i]} :: i < |f| ==> SameMarker(f[i], g[i])
  }

  lemma {:induction false} StacksAlike(f: seq<Inst>, g: seq<Inst>, i: nat)
    requires Alike(f, g) && i <= |f|
    ensures StackAt(f, i) == StackAt(g, i)
  {
    if i > 0 {
      StacksAlike(f, g, i - 1);
      assert SameMarker(f[i - 1], g[i - 1]);
    }
  }

  lemma {:induction false} BelongsAlike(f: seq<Inst>, g: seq<Inst>, m: nat, c: nat)
    requires Alike(f, g) && Belongs(f, m, c)
    ensures Belongs(g, m, c) && SameMarker(f[m], g[m])
  {
    StacksAlike(f, g, m);
  }

  lemma {:induction false} Backwards(f: seq<Inst>, g: seq<Inst>)
    requires Alike(f, g)
    ensures Alike(g, f)
  {
    forall i: nat | i < |g|
      ensures SameMarker(g[i], f[i])
    {
      assert SameMarker(f[i], g[i]);
    }
  }

  lemma {:induction false} LeavesAlike(f: seq<Inst>, g: seq<Inst>, c: nat, t: State)
    requires Alike(f, g) && Leaves(f, c, t)
    ensures Leaves(g, c, t)
  {
    var e: nat :| IsEnd(f, e, c) && t == Running(e + 1, None);
    BelongsAlike(f, g, e, c);
    assert IsEnd(g, e, c);
  }

  lemma {:induction false} ReachesEndAlike(f: seq<Inst>, g: seq<Inst>, c: nat, t: State)
    requires Alike(f, g) && ReachesEnd(f, c, t)
    ensures ReachesEnd(g, c, t)
  {
    var e: nat :| IsEnd(f, e, c) && t == Running(e, None);
    BelongsAlike(f, g, e, c);
    assert IsEnd(g, e, c);
  }

  lemma {:induction false} EntersAlike(f: seq<Inst>, g: seq<Inst>, c: nat, t: State)
    requires Alike(f, g) && EntersLaterArm(f, c, t)
    ensures EntersLaterArm(g, c, t)
  {
    var m: nat :| Belongs(f, m, c) && Splits(f[m].op) && Enters(m, t);
    BelongsAlike(f, g, m, c);
  }

  lemma {:induction false} HasAlike(f: seq<Inst>, g: seq<Inst>, c: nat)
    requires Alike(f, g) && HasLaterArm(f, c)
    ensures HasLaterArm(g, c)
  {
    var m: nat :| Belongs(f, m, c) && Splits(f[m].op);
    BelongsAlike(f, g, m, c);
  }

  lemma {:induction false} HasBoth(f: seq<Inst>, g: seq<Inst>, c: nat)
    requires Alike(f, g)
    ensures HasLaterArm(f, c) <==> HasLaterArm(g, c)
  {
    Backwards(f, g);
    if HasLaterArm(f, c) { HasAlike(f, g, c); }
    if HasLaterArm(g, c) { HasAlike(g, f, c); }
  }

  lemma {:induction false} TargetAlike(f: seq<Inst>, g: seq<Inst>, i: nat, c: nat, only: bool)
    requires Alike(f, g) && i < |f| && IsTarget(f, i, c, only)
    ensures IsTarget(g, i, c, only)
  {
    StacksAlike(f, g, i);
    var d: nat :| TargetDepth(f, i, d, only) && StackAt(f, i)[d].construct == c;
    assert TargetDepth(g, i, d, only);
  }

  lemma {:induction false} BreakAlike(f: seq<Inst>, g: seq<Inst>, i: nat, t: State)
    requires Alike(f, g) && i < |f| && f[i].op.Break? && StepFrom(f, i, t)
    ensures StepFrom(g, i, t)
  {
    var c: nat :| IsTarget(f, i, c, false) && Leaves(f, c, t);
    TargetAlike(f, g, i, c, false);
    LeavesAlike(f, g, c, t);
  }

  lemma {:induction false} ContinueAlike(f: seq<Inst>, g: seq<Inst>, i: nat, t: State)
    requires Alike(f, g) && i < |f| && f[i].op.Continue? && StepFrom(f, i, t)
    ensures StepFrom(g, i, t)
  {
    var c: nat :| IsTarget(f, i, c, true) && ContinuesAt(f, c, t);
    TargetAlike(f, g, i, c, true);
    HasBoth(f, g, c);
    if HasLaterArm(f, c) { EntersAlike(f, g, c, t); } else { ReachesEndAlike(f, g, c, t); }
  }

  lemma {:induction false} OpenerAlike(f: seq<Inst>, g: seq<Inst>, i: nat, t: State)
    requires Alike(f, g) && i < |f| && (f[i].op.If? || f[i].op.Switch?) && StepFrom(f, i, t)
    ensures StepFrom(g, i, t)
  {
    assert SameMarker(f[i], g[i]);
    HasBoth(f, g, i);
    if EntersLaterArm(f, i, t) { EntersAlike(f, g, i, t); }
    if Leaves(f, i, t) { LeavesAlike(f, g, i, t); }
  }

  lemma {:induction false} InnerAlike(f: seq<Inst>, g: seq<Inst>, i: nat, t: State)
    requires Alike(f, g) && i < |f| && (f[i].op.Else? || f[i].op.EndLoop?) && StepFrom(f, i, t)
    ensures StepFrom(g, i, t)
  {
    assert SameMarker(f[i], g[i]);
    StacksAlike(f, g, i);
    if f[i].op.Else? {
      LeavesAlike(f, g, Last(StackAt(f, i)).construct, t);
    }
  }

  /** What one allows, the other does. */
  lemma {:induction false} StepsAlike(f: seq<Inst>, g: seq<Inst>, i: nat, t: State)
    requires Alike(f, g) && i < |f| && StepFrom(f, i, t)
    ensures StepFrom(g, i, t)
  {
    assert SameMarker(f[i], g[i]);
    if !IsMarker(f[i].op) {
      PlainAlike(f, g, i, t);
    } else {
      MarkersAlike(f, g, i, t);
    }
  }

  lemma {:induction false} MarkersAlike(f: seq<Inst>, g: seq<Inst>, i: nat, t: State)
    requires Alike(f, g) && i < |f| && f[i].op == g[i].op && StepFrom(f, i, t)
    ensures StepFrom(g, i, t)
  {
    var op := f[i].op;
    if op.If? || op.Switch? {
      OpenerAlike(f, g, i, t);
    } else if op.Else? || op.EndLoop? {
      InnerAlike(f, g, i, t);
    } else if op.Break? {
      BreakAlike(f, g, i, t);
    } else if op.Continue? {
      ContinueAlike(f, g, i, t);
    } else {
      SimpleAlike(f, g, i, t);
    }
  }

  lemma {:induction false} PlainAlike(f: seq<Inst>, g: seq<Inst>, i: nat, t: State)
    requires i < |f| == |g| && !IsMarker(f[i].op) && !IsMarker(g[i].op) && StepFrom(f, i, t)
    ensures StepFrom(g, i, t)
  {
    assert t == Running(i + 1, None);
  }

  lemma {:induction false} SimpleAlike(f: seq<Inst>, g: seq<Inst>, i: nat, t: State)
    requires i < |f| == |g| && f[i].op == g[i].op && StepFrom(f, i, t)
    requires var op := f[i].op;
             !op.If? && !op.Switch? && !op.Else? && !op.EndLoop? && !op.Break? && !op.Continue?
    ensures StepFrom(g, i, t)
  {
  }
}
