/** What passes read off the control-flow table: the shape of each construct, what a break or
    continue leaves, and loops whose body runs once. */
module CfQueries {
  import opened Ir
  import opened ControlFlow
  import opened Verifier
  import opened Machine
  import opened CfTable

  // ids are 32-bit and counts are signed
  const MAX_COUNT := 0x8000_0000

  /** A finished table of a stream whose constructs all close. */
  ghost predicate IsTable(t: Table, insts: seq<Inst>) {
    Describes(t, insts, |insts|) && StackAt(insts, |insts|) == []
  }

  // ----- the table recovers the structure -----

  /** An opener's `end` and a closer's `head` are each other's inverse. */
  lemma {:induction false} EndOfOpener(t: Table, insts: seq<Inst>, c: nat)
    requires IsTable(t, insts) && c < |insts| && Opens(insts[c].op)
    ensures c < t.end[c] < |insts| && IsEnd(insts, t.end[c], c) && t.head[t.end[c]] == c
  {
    var d := |StackAt(insts, c)|;
    assert StackAt(insts, c + 1)[d] == Frame(c, c);
    var e := CloserExists(insts, c + 1, d, |insts|);
    assert IsEnd(insts, e, c);
  }

  lemma {:induction false} HeadOfCloser(t: Table, insts: seq<Inst>, e: nat)
    requires IsTable(t, insts) && e < |insts| && Closes(insts[e].op) && StackAt(insts, e) != []
    ensures t.head[e] < e && Opens(insts[t.head[e]].op) && t.end[t.head[e]] == e
  {
    var c := Last(StackAt(insts, e)).construct;
    MarkerWindow(insts, e, c);
    assert IsEnd(insts, e, c);
  }

  /** The arms tile their construct: an arm runs to the marker that starts the next one, or to
      the construct's end, and no other marker of the construct lies in between. */
  lemma {:induction false} ArmsTile(t: Table, insts: seq<Inst>, c: nat, a: nat)
    requires IsTable(t, insts) && c < |insts| && a < |insts|
    requires (a == c && Opens(insts[c].op)) || (Belongs(insts, a, c) && Splits(insts[a].op))
    ensures a < t.armEnd[a] < |insts| && Belongs(insts, t.armEnd[a], c)
    ensures t.armEnd[a] == t.end[c] || (Splits(insts[t.armEnd[a]].op) && t.armEnd[a] < t.end[c])
    ensures forall m :: a < m < t.armEnd[a] ==> !Belongs(insts, m, c)
  {
    var m := ArmRunsTo(insts, c, a);
    ArmEndIs(t, insts, a, m);
    EndOrSplit(t, insts, c, m);
  }

  /** Where the arm that marker a starts ends. */
  lemma {:induction false} ArmRunsTo(insts: seq<Inst>, c: nat, a: nat) returns (m: nat)
    requires StackAt(insts, |insts|) == [] && c < |insts| && a < |insts|
    requires (a == c && Opens(insts[c].op)) || (Belongs(insts, a, c) && Splits(insts[a].op))
    ensures a < m < |insts| && Belongs(insts, m, c) && EndsArm(insts, a, m) && Opens(insts[c].op)
    ensures forall k :: a < k < m ==> !Belongs(insts, k, c)
  {
    ArmStack(insts, c, a);
    var d := |StackAt(insts, c)|;
    assert StackAt(insts, a + 1)[d] == Frame(c, a);
    m := NextMarker(insts, a + 1, c, a, d);
  }

  lemma {:induction false} ArmEndIs(t: Table, insts: seq<Inst>, a: nat, m: nat)
    requires IsTable(t, insts) && a < |insts| && m < |insts| && EndsArm(insts, a, m)
    ensures t.armEnd[a] == m
  {
  }

  lemma {:induction false} EndOrSplit(t: Table, insts: seq<Inst>, c: nat, m: nat)
    requires IsTable(t, insts) && c < |insts| && Opens(insts[c].op) && m < |insts| && Belongs(insts, m, c)
    ensures m == t.end[c] || (Splits(insts[m].op) && m < t.end[c])
  {
    EndOfOpener(t, insts, c);
    if Closes(insts[m].op) {
      assert IsEnd(insts, m, c);
    } else {
      SplitIsBeforeEnd(insts, m, c, t.end[c]);
    }
  }

  lemma {:induction false} SplitIsBeforeEnd(insts: seq<Inst>, m: nat, c: nat, e: nat)
    requires Belongs(insts, m, c) && Splits(insts[m].op) && IsEnd(insts, e, c)
    ensures m < e
  {
    MarkerWindow(insts, m, c);
    MarkerWindow(insts, e, c);
    assert StackAt(insts, e + 1) == StackAt(insts, c);
  }

  /** The first marker at or after j that belongs to construct c, whose frame is open at j. */
  lemma {:induction false} NextMarker(insts: seq<Inst>, j: nat, c: nat, a: nat, d: nat) returns (m: nat)
    requires j <= |insts| && StackAt(insts, |insts|) == []
    requires d < |StackAt(insts, j)| && StackAt(insts, j)[d] == Frame(c, a)
    ensures j <= m < |insts| && Belongs(insts, m, c) && Last(StackAt(insts, m)).arm == a
    ensures forall k :: j <= k < m ==> !Belongs(insts, k, c)
    decreases |insts| - j
  {
    FramesSound(insts, j, d);
    if Belongs(insts, j, c) {
      MarkerWindow(insts, j, c);
      m := j;
    } else {
      FrameStays(insts, j, d);
      m := NextMarker(insts, j + 1, c, a, d);
    }
  }

  lemma {:induction false} FrameStays(insts: seq<Inst>, j: nat, d: nat)
    requires j < |insts| && d < |StackAt(insts, j)|
    requires !Belongs(insts, j, StackAt(insts, j)[d].construct)
    ensures d < |StackAt(insts, j + 1)| && StackAt(insts, j + 1)[d] == StackAt(insts, j)[d]
  {
  }

  // ----- what a break or continue leaves -----

  /** The construct behind an arm column entry. */
  lemma {:induction false} ArmBelongs(insts: seq<Inst>, j: nat, d: nat)
    requires j <= |insts| && d < |StackAt(insts, j)|
    ensures var f := StackAt(insts, j)[d];
            f.construct <= f.arm < j && Opens(insts[f.construct].op) &&
            (Opens(insts[f.arm].op) ==> f.arm == f.construct) &&
            (!Opens(insts[f.arm].op) ==> Belongs(insts, f.arm, f.construct))
  {
    FramesSound(insts, j, d);
    var f := StackAt(insts, j)[d];
    if f.arm != f.construct {
      assert |StackAt(insts, f.arm + 1)| == d + 1;
      assert |StackAt(insts, f.arm)| == d + 1;
    }
  }

  /** Where the outward walk stands: at frame d - 1 of the stack st, by its arm or its construct. */
  predicate AtFrame(st: seq<Frame>, d: nat, a: nat) {
    d <= |st| && (if d == 0 then a == NONE else a == st[d - 1].arm || a == st[d - 1].construct)
  }

  /** Reading the table at frame d - 1 gives its construct, and then the frame outside it. */
  lemma {:induction false} WalkOutward(t: Table, insts: seq<Inst>, i: nat, d: nat, a: nat)
    requires i < |insts| && Describes(t, insts, |insts|)
    requires 0 < d && AtFrame(StackAt(insts, i), d, a)
    ensures a < |insts|
    ensures var c := StackAt(insts, i)[d - 1].construct;
            c < |insts| && (if Opens(insts[a].op) then a else t.head[a]) == c &&
            AtFrame(StackAt(insts, i), d - 1, t.arm[c])
  {
    ArmBelongs(insts, i, d - 1);
    FramesSound(insts, i, d - 1);
    var c := StackAt(insts, i)[d - 1].construct;
    assert StackAt(insts, c) == StackAt(insts, i)[..d - 1];
    assert t.arm[c] == ArmColumn(insts, c);
  }

  lemma {:induction false} FramesAreIds(insts: seq<Inst>, i: nat, d: nat, a: nat)
    requires i < |insts| < MAX_COUNT && AtFrame(StackAt(insts, i), d, a)
    ensures a == NONE <==> d == 0
  {
    if d > 0 {
      FramesSound(insts, i, d - 1);
    }
  }

  /** No frame from depth d inward is a target. */
  ghost predicate NoTargetFrom(insts: seq<Inst>, i: nat, d: nat, continueOnly: bool)
    requires i < |insts|
  {
    forall e :: d <= e < |StackAt(insts, i)| && StackAt(insts, i)[e].construct < |insts| ==>
      !Target(insts[StackAt(insts, i)[e].construct].op, continueOnly)
  }

  /** The innermost loop or switch enclosing instruction i: exactly the construct that a break
      (a continue) of the step machine leaves; NONE at the top level. */
  method BreakTarget(cf: CfTable, insts: seq<Inst>, i: nat, continueOnly: bool) returns (c: nat)
    requires |insts| < MAX_COUNT && i < |insts| && !Closes(insts[i].op)
    requires cf.Shaped(|insts|) && Describes(cf.Columns(), insts, |insts|)
    ensures c == NONE <==> !HasTarget(insts, i, continueOnly)
    ensures c != NONE ==> IsTarget(insts, i, c, continueOnly)
  {
    var a := cf.arm[i];
    ghost var t := cf.Columns();
    ghost var d: nat := |StackAt(insts, i)|;
    assert a == t.arm[i] == ArmColumn(insts, i);
    while a != NONE
      invariant AtFrame(StackAt(insts, i), d, a)
      invariant NoTargetFrom(insts, i, d, continueOnly)
      decreases d
    {
      WalkOutward(t, insts, i, d, a);
      c := if Opens(insts[a].op) then a else cf.head[a];
      if Target(insts[c].op, continueOnly) {
        FramesAreIds(insts, i, d, c);
        assert TargetDepth(insts, i, d - 1, continueOnly);
        return c;
      }
      a := cf.arm[c];
      d := d - 1;
    }
    FramesAreIds(insts, i, d, a);
    c := NONE;
  }

  // ----- loops that run once -----

  /** The last instruction before loop l's first marker that is not a nop is an unconditional
      exit at the body's own level. */
  ghost predicate EndsInExit(insts: seq<Inst>, l: nat, m: nat) {
    exists k: nat :: ExitAt(insts, l, m, k)
  }

  predicate ExitAt(insts: seq<Inst>, l: nat, m: nat, k: nat) {
    && l < k < m <= |insts|
    && (insts[k].op.Break? || insts[k].op.Return? || insts[k].op.Discard?)
    && forall n :: k < n < m ==> insts[n].op.Nop?
  }

  /** Whether loop l can run its body more than once, by how the body ends. */
  method LoopRepeats(cf: CfTable, insts: seq<Inst>, l: nat) returns (repeats: bool)
    requires |insts| < MAX_COUNT && l < |insts| && insts[l].op.Loop?
    requires cf.Shaped(|insts|) && IsTable(cf.Columns(), insts)
    ensures l < cf.armEnd[l] < |insts|
    ensures repeats <==> !EndsInExit(insts, l, cf.armEnd[l])
  {
    ArmsTile(cf.Columns(), insts, l, l);
    assert cf.Columns().armEnd[l] == cf.armEnd[l];
    var k := cf.armEnd[l] - 1;
    while k > l && insts[k].op.Nop?
      invariant l <= k < cf.armEnd[l]
      invariant forall n :: k < n < cf.armEnd[l] ==> insts[n].op.Nop?
    {
      k := k - 1;
    }
    var op := insts[k].op;
    repeats := !(k > l && (op.Break? || op.Return? || op.Discard?));
    assert !repeats ==> ExitAt(insts, l, cf.armEnd[l], k);
  }
}
