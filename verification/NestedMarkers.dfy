/** What the marker checks amount to: the markers of an accepted function are those of constructs nested
    in each other, each closed by its own marker and divided by its own. */
module NestedMarkers {
  import opened Ir
  import opened ControlFlow
  import opened Verifier

  // ----- nested constructs -----

  /** An instruction that brackets nothing, or a construct: what stands before its first dividing marker,
      and behind each. */
  datatype Tree = Leaf(op: Op) | Node(kind: Kind, first: seq<Tree>, arms: seq<Arm>)

  datatype Arm = Arm(body: seq<Tree>)

  datatype Kind = IfKind | LoopKind | SwitchKind

  function OpenerOf(k: Kind): Op {
    match k
    case IfKind => If
    case LoopKind => Loop
    case SwitchKind => Switch
  }

  function DividerOf(k: Kind): Op {
    match k
    case IfKind => Else
    case LoopKind => LoopContinue
    case SwitchKind => Case
  }

  function CloserOf(k: Kind): Op {
    match k
    case IfKind => EndIf
    case LoopKind => EndLoop
    case SwitchKind => EndSwitch
  }

  predicate Brackets(op: Op) { Opens(op) || Splits(op) || Closes(op) }

  predicate IsTree(t: Tree)
    decreases t, 0
  {
    match t
    case Leaf(op) => !Brackets(op)
    case Node(_, first, arms) => AreTrees(first) && AreArms(arms)
  }

  predicate AreTrees(ts: seq<Tree>)
    decreases ts, 1
  {
    ts == [] || (IsTree(ts[0]) && AreTrees(ts[1..]))
  }

  predicate AreArms(arms: seq<Arm>)
    decreases arms, 1
  {
    arms == [] || (AreTrees(arms[0].body) && AreArms(arms[1..]))
  }

  function OpsOf(t: Tree): (ops: seq<Op>)
    ensures ops != []
    decreases t, 0
  {
    match t
    case Leaf(op) => [op]
    case Node(k, first, arms) => [OpenerOf(k)] + (OpsOfAll(first) + (OpsOfArms(k, arms) + [CloserOf(k)]))
  }

  function OpsOfAll(ts: seq<Tree>): seq<Op>
    decreases ts, 1
  {
    if ts == [] then [] else OpsOf(ts[0]) + OpsOfAll(ts[1..])
  }

  function OpsOfArms(k: Kind, arms: seq<Arm>): seq<Op>
    decreases arms, 1
  {
    if arms == [] then [] else [DividerOf(k)] + (OpsOfAll(arms[0].body) + OpsOfArms(k, arms[1..]))
  }

  // ----- one marker after the other -----

  /** The marker belongs to no construct that it could belong to, given the kinds that are open. */
  predicate Misfits(op: Op, open: seq<Kind>) {
    (Splits(op) || Closes(op)) &&
    (open == [] || (op != DividerOf(open[|open| - 1]) && op != CloserOf(open[|open| - 1])))
  }

  function Next(op: Op, open: seq<Kind>): seq<Kind>
    requires !Misfits(op, open)
  {
    match op
    case If => open + [IfKind]
    case Loop => open + [LoopKind]
    case Switch => open + [SwitchKind]
    case _ => if Closes(op) then open[..|open| - 1] else open
  }

  predicate AllFit(ops: seq<Op>, open: seq<Kind>)
    decreases |ops|
  {
    if ops == [] then open == [] else !Misfits(ops[0], open) && AllFit(ops[1..], Next(ops[0], open))
  }

  // ----- nested ones fit -----

  lemma {:induction false} Joined(a: seq<Op>, b: seq<Op>, c: seq<Op>)
    ensures (a + b) + c == a + (b + c)
  {
  }

  lemma {:induction false} StepFits(op: Op, rest: seq<Op>, open: seq<Kind>)
    requires !Misfits(op, open)
    ensures AllFit([op] + rest, open) <==> AllFit(rest, Next(op, open))
  {
    assert ([op] + rest)[1..] == rest;
  }

  lemma {:induction false} TreeFits(t: Tree, rest: seq<Op>, open: seq<Kind>)
    requires IsTree(t)
    ensures AllFit(OpsOf(t) + rest, open) <==> AllFit(rest, open)
    decreases t, 0
  {
    match t
    case Leaf(op) => StepFits(op, rest, open);
    case Node(k, first, arms) =>
      var tail := OpsOfArms(k, arms) + ([CloserOf(k)] + rest);
      assert OpsOf(t) + rest == [OpenerOf(k)] + (OpsOfAll(first) + tail);
      OpenerFits(k, OpsOfAll(first) + tail, open);
      TreesFit(first, tail, open + [k]);
      ArmsFit(k, arms, [CloserOf(k)] + rest, open + [k]);
      CloserFits(k, rest, open);
  }

  lemma {:induction false} OpenerFits(k: Kind, rest: seq<Op>, open: seq<Kind>)
    ensures AllFit([OpenerOf(k)] + rest, open) <==> AllFit(rest, open + [k])
  {
    WhatFits(OpenerOf(k), open, open + [k]);
    StepFits(OpenerOf(k), rest, open);
  }

  lemma {:induction false} CloserFits(k: Kind, rest: seq<Op>, open: seq<Kind>)
    ensures AllFit([CloserOf(k)] + rest, open + [k]) <==> AllFit(rest, open)
  {
    StepFits(CloserOf(k), rest, open + [k]);
    assert (open + [k])[..|open|] == open;
  }

  lemma {:induction false} DividerFits(k: Kind, rest: seq<Op>, open: seq<Kind>)
    requires open != [] && open[|open| - 1] == k
    ensures AllFit([DividerOf(k)] + rest, open) <==> AllFit(rest, open)
  {
    StepFits(DividerOf(k), rest, open);
  }

  lemma {:induction false} TreesFit(ts: seq<Tree>, rest: seq<Op>, open: seq<Kind>)
    requires AreTrees(ts)
    ensures AllFit(OpsOfAll(ts) + rest, open) <==> AllFit(rest, open)
    decreases ts, 1
  {
    if ts == [] {
      assert [] + rest == rest;
    } else {
      Joined(OpsOf(ts[0]), OpsOfAll(ts[1..]), rest);
      TreeFits(ts[0], OpsOfAll(ts[1..]) + rest, open);
      TreesFit(ts[1..], rest, open);
    }
  }

  lemma {:induction false} ArmsFit(k: Kind, arms: seq<Arm>, rest: seq<Op>, open: seq<Kind>)
    requires AreArms(arms) && open != [] && open[|open| - 1] == k
    ensures AllFit(OpsOfArms(k, arms) + rest, open) <==> AllFit(rest, open)
    decreases arms, 1
  {
    if arms == [] {
      assert [] + rest == rest;
    } else {
      var tail := OpsOfArms(k, arms[1..]) + rest;
      assert OpsOfArms(k, arms) + rest == [DividerOf(k)] + (OpsOfAll(arms[0].body) + tail);
      DividerFits(k, OpsOfAll(arms[0].body) + tail, open);
      TreesFit(arms[0].body, tail, open);
      ArmsFit(k, arms[1..], rest, open);
    }
  }

  // ----- and what fits is nested -----

  /** The rest of an open construct: trees, later arms, and its closer. */
  datatype Rest = Rest(trees: seq<Tree>, arms: seq<Arm>)

  function ArmsEnd(k: Kind, r: Rest): seq<Op> {
    OpsOfArms(k, r.arms) + [CloserOf(k)]
  }

  function RestOps(k: Kind, r: Rest): seq<Op> {
    OpsOfAll(r.trees) + ArmsEnd(k, r)
  }

  ghost predicate Nested(ops: seq<Op>, open: seq<Kind>)
    decreases |open|
  {
    if open == [] then exists ts :: IsWhole(ops, ts)
    else exists r: Rest, after: seq<Op> :: IsOpen(ops, open, r, after) && Nested(after, open[..|open| - 1])
  }

  predicate IsWhole(ops: seq<Op>, ts: seq<Tree>) {
    AreTrees(ts) && ops == OpsOfAll(ts)
  }

  predicate IsOpen(ops: seq<Op>, open: seq<Kind>, r: Rest, after: seq<Op>)
    requires open != []
  {
    AreTrees(r.trees) && AreArms(r.arms) && ops == RestOps(open[|open| - 1], r) + after
  }

  lemma {:induction false} OneMoreTree(t: Tree, ts: seq<Tree>)
    ensures OpsOfAll([t] + ts) == OpsOf(t) + OpsOfAll(ts) && (AreTrees([t] + ts) <==> IsTree(t) && AreTrees(ts))
  {
    assert ([t] + ts)[1..] == ts;
  }

  lemma {:induction false} OneMoreArm(k: Kind, body: seq<Tree>, arms: seq<Arm>)
    ensures OpsOfArms(k, [Arm(body)] + arms) == [DividerOf(k)] + (OpsOfAll(body) + OpsOfArms(k, arms))
    ensures AreArms([Arm(body)] + arms) <==> AreTrees(body) && AreArms(arms)
  {
    assert ([Arm(body)] + arms)[1..] == arms;
  }

  lemma {:induction false} TreeInFront(t: Tree, ops: seq<Op>, open: seq<Kind>)
    requires IsTree(t) && Nested(ops, open)
    ensures Nested(OpsOf(t) + ops, open)
  {
    if open == [] {
      var ts :| IsWhole(ops, ts);
      OneMoreTree(t, ts);
      assert IsWhole(OpsOf(t) + ops, [t] + ts);
    } else {
      var r: Rest, after: seq<Op> :| IsOpen(ops, open, r, after) && Nested(after, open[..|open| - 1]);
      var k := open[|open| - 1];
      OneMoreTree(t, r.trees);
      Joined(OpsOf(t), OpsOfAll(r.trees), ArmsEnd(k, r));
      Joined(OpsOf(t), RestOps(k, r), after);
      assert IsOpen(OpsOf(t) + ops, open, r.(trees := [t] + r.trees), after);
    }
  }

  /** What was open one deeper becomes a construct. */
  lemma {:induction false} OpenerInFront(k: Kind, ops: seq<Op>, open: seq<Kind>)
    requires Nested(ops, open + [k])
    ensures Nested([OpenerOf(k)] + ops, open)
  {
    var deeper := open + [k];
    assert deeper[..|deeper| - 1] == open;
    var r: Rest, after: seq<Op> :| IsOpen(ops, deeper, r, after) && Nested(after, open);
    var t := Node(k, r.trees, r.arms);
    assert OpsOf(t) == [OpenerOf(k)] + RestOps(k, r);
    Joined([OpenerOf(k)], RestOps(k, r), after);
    TreeInFront(t, after, open);
  }

  lemma {:induction false} DividerInFront(ops: seq<Op>, open: seq<Kind>)
    requires open != [] && Nested(ops, open)
    ensures Nested([DividerOf(open[|open| - 1])] + ops, open)
  {
    var k := open[|open| - 1];
    var r: Rest, after: seq<Op> :| IsOpen(ops, open, r, after) && Nested(after, open[..|open| - 1]);
    var more := Rest([], [Arm(r.trees)] + r.arms);
    OneMoreArm(k, r.trees, r.arms);
    NoTrees(k, more);
    DividedOps(k, r, more, after);
    assert IsOpen([DividerOf(k)] + ops, open, more, after);
  }

  lemma {:induction false} DividedOps(k: Kind, r: Rest, more: Rest, after: seq<Op>)
    requires ArmsEnd(k, more) == RestOps(k, more)
    requires OpsOfArms(k, more.arms) == [DividerOf(k)] + (OpsOfAll(r.trees) + OpsOfArms(k, r.arms))
    ensures [DividerOf(k)] + (RestOps(k, r) + after) == RestOps(k, more) + after
  {
    Joined(OpsOfAll(r.trees), OpsOfArms(k, r.arms), [CloserOf(k)]);
    Joined([DividerOf(k)], OpsOfAll(r.trees) + OpsOfArms(k, r.arms), [CloserOf(k)]);
    Joined([DividerOf(k)], RestOps(k, r), after);
  }

  lemma {:induction false} NoTrees(k: Kind, r: Rest)
    requires r.trees == []
    ensures RestOps(k, r) == ArmsEnd(k, r)
  {
    assert OpsOfAll([]) == [] && [] + ArmsEnd(k, r) == ArmsEnd(k, r);
  }

  lemma {:induction false} CloserInFront(ops: seq<Op>, open: seq<Kind>)
    requires open != [] && Nested(ops, open[..|open| - 1])
    ensures Nested([CloserOf(open[|open| - 1])] + ops, open)
  {
    var k, r := open[|open| - 1], Rest([], []);
    NoTrees(k, r);
    assert OpsOfArms(k, []) == [] && ArmsEnd(k, r) == [CloserOf(k)];
    assert IsOpen([CloserOf(k)] + ops, open, r, ops);
  }

  lemma {:induction false} FittingIsNested(ops: seq<Op>, open: seq<Kind>)
    requires AllFit(ops, open)
    ensures Nested(ops, open)
    decreases |ops|
  {
    if ops == [] {
      assert IsWhole(ops, []);
    } else {
      var op := ops[0];
      FittingIsNested(ops[1..], Next(op, open));
      assert ops == [op] + ops[1..];
      OneInFront(op, ops[1..], open, Next(op, open));
    }
  }

  lemma {:induction false} WhatFits(op: Op, open: seq<Kind>, next: seq<Kind>)
    requires !Misfits(op, open) && next == Next(op, open)
    ensures Opens(op) ==> next == open + [KindOf(op)] && op == OpenerOf(KindOf(op))
    ensures Splits(op) ==> open != [] && next == open && op == DividerOf(open[|open| - 1])
    ensures Closes(op) ==> open != [] && next == open[..|open| - 1] && op == CloserOf(open[|open| - 1])
    ensures !Brackets(op) ==> next == open && IsTree(Leaf(op)) && OpsOf(Leaf(op)) == [op]
  {
  }

  lemma {:induction false} OneInFront(op: Op, rest: seq<Op>, open: seq<Kind>, next: seq<Kind>)
    requires !Misfits(op, open) && next == Next(op, open) && Nested(rest, next)
    ensures Nested([op] + rest, open)
  {
    WhatFits(op, open, next);
    if Opens(op) {
      OpenerInFront(KindOf(op), rest, open);
    } else if Splits(op) {
      DividerInFront(rest, open);
    } else if Closes(op) {
      CloserInFront(rest, open);
    } else {
      TreeInFront(Leaf(op), rest, open);
    }
  }

  lemma {:induction false} FitIffNested(ops: seq<Op>)
    ensures AllFit(ops, []) <==> exists ts :: AreTrees(ts) && ops == OpsOfAll(ts)
  {
    if AllFit(ops, []) {
      FittingIsNested(ops, []);
      var ts :| IsWhole(ops, ts);
    }
    if ts :| AreTrees(ts) && ops == OpsOfAll(ts) {
      TreesFit(ts, [], []);
      assert ops + [] == ops;
    }
  }

  // ----- the verifier's checks -----

  /** What the checks ask of a dividing or closing marker. */
  predicate BracketOk(insts: seq<Inst>, i: nat)
    requires i < |insts|
  {
    var op := insts[i].op;
    && (op.Else? || op.EndIf? ==> InnermostIs(insts, i, If))
    && (op.LoopContinue? || op.EndLoop? ==> InnermostIs(insts, i, Loop))
    && (op.Case? || op.EndSwitch? ==> InnermostIs(insts, i, Switch))
  }

  function Ops(insts: seq<Inst>): (ops: seq<Op>)
    ensures |ops| == |insts| && forall i :: 0 <= i < |ops| ==> ops[i] == insts[i].op
  {
    seq(|insts|, i requires 0 <= i < |insts| => insts[i].op)
  }

  function KindOf(op: Op): Kind {
    if op.If? then IfKind else if op.Loop? then LoopKind else SwitchKind
  }

  /** The kinds of the constructs open at i. */
  function KindsAt(insts: seq<Inst>, i: nat): (ks: seq<Kind>)
    requires i <= |insts|
    ensures |ks| == |StackAt(insts, i)|
    ensures forall d :: 0 <= d < |ks| && StackAt(insts, i)[d].construct < |insts| ==>
              ks[d] == KindOf(insts[StackAt(insts, i)[d].construct].op)
  {
    var st := StackAt(insts, i);
    seq(|st|, d requires 0 <= d < |st| => if st[d].construct < |insts| then KindOf(insts[st[d].construct].op) else IfKind)
  }

  lemma {:induction false} BracketFits(insts: seq<Inst>, i: nat)
    requires i < |insts|
    ensures BracketOk(insts, i) <==> !Misfits(insts[i].op, KindsAt(insts, i))
  {
    var st := StackAt(insts, i);
    if st != [] {
      FramesSound(insts, i, |st| - 1);
    }
  }

  lemma {:induction false} KindsStep(insts: seq<Inst>, i: nat)
    requires i < |insts| && BracketOk(insts, i)
    ensures !Misfits(insts[i].op, KindsAt(insts, i)) && KindsAt(insts, i + 1) == Next(insts[i].op, KindsAt(insts, i))
  {
    BracketFits(insts, i);
    var st, now := StackAt(insts, i), StackAt(insts, i + 1);
    forall d | 0 <= d < |st|
      ensures st[d].construct < |insts|
    {
      FramesSound(insts, i, d);
    }
  }

  lemma {:induction false} FitsFrom(ops: seq<Op>, open: seq<Kind>, next: seq<Kind>)
    requires ops != [] && !Misfits(ops[0], open) && next == Next(ops[0], open)
    ensures AllFit(ops, open) <==> AllFit(ops[1..], next)
  {
  }

  predicate AllBracketsOk(insts: seq<Inst>, i: nat) {
    forall j {:trigger BracketOk(insts, j)} :: i <= j < |insts| ==> BracketOk(insts, j)
  }

  lemma {:induction false} OkFrom(insts: seq<Inst>, i: nat)
    requires i < |insts|
    ensures AllBracketsOk(insts, i) <==> BracketOk(insts, i) && AllBracketsOk(insts, i + 1)
  {
  }

  lemma {:induction false} OpsTail(insts: seq<Inst>, i: nat)
    requires i < |insts|
    ensures Ops(insts)[i..] != [] && Ops(insts)[i..][0] == insts[i].op && Ops(insts)[i..][1..] == Ops(insts)[i + 1..]
  {
  }

  lemma {:induction false} FromHereFits(insts: seq<Inst>, i: nat)
    requires i <= |insts|
    ensures AllFit(Ops(insts)[i..], KindsAt(insts, i)) <==> AllBracketsOk(insts, i) && StackAt(insts, |insts|) == []
    decreases |insts| - i
  {
    if i == |insts| {
      assert Ops(insts)[i..] == [];
    } else {
      OpsTail(insts, i);
      OkFrom(insts, i);
      BracketFits(insts, i);
      if BracketOk(insts, i) {
        KindsStep(insts, i);
        FromHereFits(insts, i + 1);
        FitsFrom(Ops(insts)[i..], KindsAt(insts, i), KindsAt(insts, i + 1));
      } else {
        MisfitFails(Ops(insts)[i..], KindsAt(insts, i));
      }
    }
  }

  lemma {:induction false} MisfitFails(ops: seq<Op>, open: seq<Kind>)
    requires ops != [] && Misfits(ops[0], open)
    ensures !AllFit(ops, open)
  {
  }

  /** The marker checks pass, and nothing stays open, exactly when the instructions are nested constructs. */
  lemma {:induction false} PassIffNested(insts: seq<Inst>)
    ensures AllBracketsOk(insts, 0) && StackAt(insts, |insts|) == [] <==>
            exists ts :: AreTrees(ts) && Ops(insts) == OpsOfAll(ts)
  {
    FromHereFits(insts, 0);
    assert Ops(insts)[0..] == Ops(insts) && KindsAt(insts, 0) == [];
    FitIffNested(Ops(insts));
  }

  /** So is an accepted function. */
  lemma {:induction false} AcceptedIsNested(f: Func)
    requires WellFormed(f)
    ensures exists ts :: AreTrees(ts) && Ops(f.insts) == OpsOfAll(ts)
  {
    forall i | 0 <= i < |f.insts|
      ensures BracketOk(f.insts, i)
    {
      assert InstOk(f, i);
    }
    PassIffNested(f.insts);
  }
}
