/** The IR verifier, and what the functions it accepts satisfy. */
module Verifier {
  import opened Ir
  import opened ControlFlow
  import opened Scope

  datatype What =
    | AuxOutsidePool
    | OperandNotEarlier | OperandKilled | OperandHasNoValue | OperandEscapesArm
    | ElseOutsideIf | EndIfOutsideIf | LoopMarkerOutsideLoop | SwitchMarkerOutsideSwitch
    | BreakOutside | ContinueOutside
    | Unclosed

  datatype Error = Error(inst: nat, what: What)

  /** Entities declared outside the body, so that any use of them is dominated. */
  predicate FunctionScope(op: Op) {
    op.Const? || op.SpecConst? || op.Undef? || op.Var?
  }

  predicate HasNoValue(inst: Inst) {
    inst.typ == NONE || IsMarker(inst.op)
  }

  // ----- the invariants, over the nesting itself -----

  /** Instruction i may use x: an earlier, live, value-producing instruction of an arm that is
      still open, or a function-scope entity. */
  ghost predicate OperandOk(f: Func, i: nat, x: nat)
    requires i < |f.insts|
  {
    && x < i
    && !f.insts[x].op.Nop?
    && !HasNoValue(f.insts[x])
    && (FunctionScope(f.insts[x].op) || Encloses(f.insts, x, i))
  }

  /** The innermost construct around i was opened by `op`. */
  predicate InnermostIs(insts: seq<Inst>, i: nat, op: Op)
    requires i < |insts|
  {
    var st := StackAt(insts, i);
    st != [] && Last(st).construct < |insts| && insts[Last(st).construct].op == op
  }

  /** What a break (or, with `continueOnly`, a continue) can leave. */
  predicate Target(op: Op, continueOnly: bool) {
    op.Loop? || (!continueOnly && op.Switch?)
  }

  ghost predicate HasTarget(insts: seq<Inst>, i: nat, continueOnly: bool)
    requires i < |insts|
  {
    exists d :: 0 <= d < |StackAt(insts, i)| && StackAt(insts, i)[d].construct < |insts| &&
      Target(insts[StackAt(insts, i)[d].construct].op, continueOnly)
  }

  ghost predicate MarkerOk(insts: seq<Inst>, i: nat)
    requires i < |insts|
  {
    var op := insts[i].op;
    && (op.Else? || op.EndIf? ==> InnermostIs(insts, i, If))
    && (op.LoopContinue? || op.EndLoop? ==> InnermostIs(insts, i, Loop))
    && (op.Case? || op.EndSwitch? ==> InnermostIs(insts, i, Switch))
    && (op.Break? ==> HasTarget(insts, i, false))
    && (op.Continue? ==> HasTarget(insts, i, true))
  }

  ghost predicate InstOk(f: Func, i: nat)
    requires i < |f.insts|
  {
    f.insts[i].op.Nop? ||
    (&& AuxInPool(f, f.insts[i])
     && (forall x :: IsOperand(f, f.insts[i], x) ==> OperandOk(f, i, x))
     && MarkerOk(f.insts, i))
  }

  ghost predicate WellFormed(f: Func) {
    (forall i :: 0 <= i < |f.insts| ==> InstOk(f, i)) &&
    StackAt(f.insts, |f.insts|) == []
  }

  /** The reported reason is a true statement about the reported instruction. */
  ghost predicate Justified(f: Func, e: Error) {
    var n := |f.insts|;
    if e.what.Unclosed? then
      e.inst == (if n > 0 then n - 1 else 0) && StackAt(f.insts, n) != []
    else
      e.inst < n && JustifiedAt(f, f.insts[e.inst], e.inst, e.what)
  }

  ghost predicate JustifiedAt(f: Func, inst: Inst, i: nat, what: What)
    requires i < |f.insts| && f.insts[i] == inst
  {
    match what
    case AuxOutsidePool => !AuxInPool(f, inst)
    case OperandNotEarlier => exists x: nat :: IsOperand(f, inst, x) && x >= i
    case OperandKilled => exists x: nat :: IsOperand(f, inst, x) && x < i && f.insts[x].op.Nop?
    case OperandHasNoValue => exists x: nat :: IsOperand(f, inst, x) && x < i && HasNoValue(f.insts[x])
    case OperandEscapesArm => exists x: nat :: IsOperand(f, inst, x) && x < i && !Encloses(f.insts, x, i)
    case ElseOutsideIf => inst.op.Else? && !InnermostIs(f.insts, i, If)
    case EndIfOutsideIf => inst.op.EndIf? && !InnermostIs(f.insts, i, If)
    case LoopMarkerOutsideLoop => (inst.op.LoopContinue? || inst.op.EndLoop?) && !InnermostIs(f.insts, i, Loop)
    case SwitchMarkerOutsideSwitch => (inst.op.Case? || inst.op.EndSwitch?) && !InnermostIs(f.insts, i, Switch)
    case BreakOutside => inst.op.Break? && !HasTarget(f.insts, i, false)
    case ContinueOutside => inst.op.Continue? && !HasTarget(f.insts, i, true)
    case Unclosed => false
  }

  // ----- the one-pass check -----

  /** What the pass has recorded about the instructions before i. */
  ghost predicate Noted(f: Func, i: nat, depth: seq<nat>, serial: seq<nat>)
    requires i <= |f.insts|
  {
    |depth| >= i && |serial| >= i &&
    forall x {:trigger depth[x]} {:trigger serial[x]} :: 0 <= x < i && !f.insts[x].op.Nop? ==>
      (depth[x], serial[x]) == Recorded(f.insts, x + 1)
  }

  ghost predicate KindsNoted(insts: seq<Inst>, i: nat, kind: seq<Op>)
    requires i <= |insts|
  {
    |StackAt(insts, i)| < |kind| &&
    forall d {:trigger kind[d + 1]} {:trigger StackAt(insts, i)[d]} :: 0 <= d < |StackAt(insts, i)| ==>
      StackAt(insts, i)[d].construct < i && kind[d + 1] == insts[StackAt(insts, i)[d].construct].op
  }

  method CheckOperand(f: Func, scope: ScopeState, depth: array<nat>, serial: array<nat>, i: nat, x: nat)
    returns (what: Option<What>)
    requires i < |f.insts| && Sheltered(f.insts, i)
    requires scope.Valid() && scope.Value() == WalkAt(f.insts, i)
    requires Noted(f, i, depth[..], serial[..])
    ensures what.None? <==> OperandOk(f, i, x)
    ensures what.Some? && IsOperand(f, f.insts[i], x) ==> JustifiedAt(f, f.insts[i], i, what.value)
  {
    if x >= i {
      return Some(OperandNotEarlier);
    }
    var d := f.insts[x];
    if d.op.Nop? {
      return Some(OperandKilled);
    }
    if HasNoValue(d) {
      return Some(OperandHasNoValue);
    }
    assert WalkAt(f.insts, x + 1) == WalkAt(f.insts, x);
    LiveIffEncloses(f.insts, x, i);
    assert (depth[x], serial[x]) == Recorded(f.insts, x + 1) == Recorded(f.insts, x);
    if !FunctionScope(d.op) && !scope.IsLive(depth[x], serial[x]) {
      return Some(OperandEscapesArm);
    }
    return None;
  }

  method CheckOperands(f: Func, scope: ScopeState, depth: array<nat>, serial: array<nat>, i: nat)
    returns (what: Option<What>)
    requires i < |f.insts| && Sheltered(f.insts, i)
    requires scope.Valid() && scope.Value() == WalkAt(f.insts, i)
    requires Noted(f, i, depth[..], serial[..])
    requires AuxInPool(f, f.insts[i])
    ensures what.None? <==> forall x :: IsOperand(f, f.insts[i], x) ==> OperandOk(f, i, x)
    ensures what.Some? ==> JustifiedAt(f, f.insts[i], i, what.value)
  {
    what := CheckArgs(f, scope, depth, serial, i);
    if what.None? && AuxHoldsValues(f.insts[i].op) {
      what := CheckList(f, scope, depth, serial, i);
    }
  }

  method CheckArgs(f: Func, scope: ScopeState, depth: array<nat>, serial: array<nat>, i: nat)
    returns (what: Option<What>)
    requires i < |f.insts| && Sheltered(f.insts, i)
    requires scope.Valid() && scope.Value() == WalkAt(f.insts, i)
    requires Noted(f, i, depth[..], serial[..])
    ensures what.None? <==> forall a :: a in ValueArgMask(f.insts[i]) && a < 4 ==> OperandOk(f, i, f.insts[i].args[a])
    ensures what.Some? ==> JustifiedAt(f, f.insts[i], i, what.value)
  {
    var inst := f.insts[i];
    var mask := ValueArgMask(inst);
    for a := 0 to 4
      invariant forall b :: 0 <= b < a && b in mask ==> OperandOk(f, i, inst.args[b])
    {
      if a in mask {
        assert IsOperand(f, inst, inst.args[a]);
        what := CheckOperand(f, scope, depth, serial, i, inst.args[a]);
        if what.Some? {
          return;
        }
      }
    }
    what := None;
  }

  method CheckList(f: Func, scope: ScopeState, depth: array<nat>, serial: array<nat>, i: nat)
    returns (what: Option<What>)
    requires i < |f.insts| && Sheltered(f.insts, i) && AuxInPool(f, f.insts[i]) && AuxHoldsValues(f.insts[i].op)
    requires scope.Valid() && scope.Value() == WalkAt(f.insts, i)
    requires Noted(f, i, depth[..], serial[..])
    ensures what.None? <==>
            forall k :: f.insts[i].aux <= k < f.insts[i].aux + f.insts[i].auxCount ==> OperandOk(f, i, f.aux[k])
    ensures what.Some? ==> JustifiedAt(f, f.insts[i], i, what.value)
  {
    var inst := f.insts[i];
    for k := 0 to inst.auxCount
      invariant forall b :: inst.aux <= b < inst.aux + k ==> OperandOk(f, i, f.aux[b])
    {
      assert IsOperand(f, inst, f.aux[inst.aux + k]);
      what := CheckOperand(f, scope, depth, serial, i, f.aux[inst.aux + k]);
      if what.Some? {
        return;
      }
    }
    what := None;
  }

  /** Looks outward for what a break or continue leaves. */
  method FindTarget(insts: seq<Inst>, depth: nat, kind: array<Op>, i: nat, continueOnly: bool)
    returns (found: bool)
    requires i < |insts| && depth == |StackAt(insts, i)| && KindsNoted(insts, i, kind[..])
    ensures found <==> HasTarget(insts, i, continueOnly)
  {
    found := false;
    var d := depth;
    while d > 0 && !found
      invariant 0 <= d <= depth
      invariant found ==> HasTarget(insts, i, continueOnly)
      invariant !found ==> forall e :: d <= e < depth ==>
                  !Target(insts[StackAt(insts, i)[e].construct].op, continueOnly)
    {
      assert kind[(d - 1) + 1] == insts[StackAt(insts, i)[d - 1].construct].op;
      found := Target(kind[d], continueOnly);
      d := d - 1;
    }
  }

  /** Marker nesting, against the constructs open at this depth. */
  method CheckMarker(f: Func, depth: nat, kind: array<Op>, i: nat) returns (what: Option<What>)
    requires i < |f.insts| && depth == |StackAt(f.insts, i)| && KindsNoted(f.insts, i, kind[..])
    ensures what.None? <==> MarkerOk(f.insts, i)
    ensures what.Some? ==> JustifiedAt(f, f.insts[i], i, what.value)
  {
    var op := f.insts[i].op;
    var open := if depth > 0 then kind[depth] else Nop;
    assert depth > 0 ==> kind[(depth - 1) + 1] == f.insts[StackAt(f.insts, i)[depth - 1].construct].op;
    assert forall o: Op :: !o.Nop? ==> (open == o <==> InnermostIs(f.insts, i, o));
    what := None;
    if op.Else? {
      what := if open != If then Some(ElseOutsideIf) else None;
    } else if op.EndIf? {
      what := if open != If then Some(EndIfOutsideIf) else None;
    } else if op.LoopContinue? || op.EndLoop? {
      what := if open != Loop then Some(LoopMarkerOutsideLoop) else None;
    } else if op.Case? || op.EndSwitch? {
      what := if open != Switch then Some(SwitchMarkerOutsideSwitch) else None;
    } else if op.Break? {
      var found := FindTarget(f.insts, depth, kind, i, false);
      what := if found then None else Some(BreakOutside);
    } else if op.Continue? {
      var found := FindTarget(f.insts, depth, kind, i, true);
      what := if found then None else Some(ContinueOutside);
    }
  }

  method CheckInst(f: Func, scope: ScopeState, depth: array<nat>, serial: array<nat>, kind: array<Op>, i: nat)
    returns (what: Option<What>)
    requires i < |f.insts| && !f.insts[i].op.Nop? && Sheltered(f.insts, i)
    requires scope.Valid() && scope.Value() == WalkAt(f.insts, i)
    requires Noted(f, i, depth[..], serial[..]) && KindsNoted(f.insts, i, kind[..])
    ensures what.None? <==> InstOk(f, i)
    ensures what.Some? ==> JustifiedAt(f, f.insts[i], i, what.value)
    ensures what.Some? ==> !what.value.Unclosed?
  {
    var inst := f.insts[i];
    if inst.auxCount > 0 && inst.aux + inst.auxCount > |f.aux| {
      return Some(AuxOutsidePool);
    }
    what := CheckOperands(f, scope, depth, serial, i);
    if what.None? {
      WalkTracksTree(f.insts, i);
      what := CheckMarker(f, scope.depth, kind, i);
    }
  }

  /** Everything noted on the way to instruction i is right. */
  ghost predicate Known(f: Func, i: nat, w: Walk, depth: seq<nat>, serial: seq<nat>, kind: seq<Op>) {
    && i <= |f.insts| == |depth| == |serial| && |kind| == |f.insts| + 1
    && Sheltered(f.insts, i)
    && w == WalkAt(f.insts, i)
    && |w.serials| == |StackAt(f.insts, i)| + 1 <= i + 1
    && Noted(f, i, depth, serial)
    && KindsNoted(f.insts, i, kind)
  }

  lemma {:induction false} NotedGrows(f: Func, i: nat, depth: seq<nat>, serial: seq<nat>)
    requires i < |f.insts| == |depth| == |serial| && Noted(f, i, depth, serial)
    ensures Noted(f, i + 1, depth[i := Recorded(f.insts, i + 1).0], serial[i := Recorded(f.insts, i + 1).1])
  {
  }

  lemma {:induction false} KindsGrow(insts: seq<Inst>, i: nat, kind: seq<Op>, after: seq<Op>)
    requires i < |insts| && |StackAt(insts, i)| <= i && |kind| == |insts| + 1
    requires KindsNoted(insts, i, kind)
    requires after == if Opens(insts[i].op) then kind[|StackAt(insts, i)| + 1 := insts[i].op] else kind
    ensures |StackAt(insts, i + 1)| <= i + 1
    ensures KindsNoted(insts, i + 1, after)
  {
    forall d {:trigger after[d + 1]} | 0 <= d < |StackAt(insts, i + 1)|
      ensures StackAt(insts, i + 1)[d].construct < i + 1
      ensures after[d + 1] == insts[StackAt(insts, i + 1)[d].construct].op
    {
      if d < |StackAt(insts, i)| {
        assert kind[d + 1] == insts[StackAt(insts, i)[d].construct].op;
      }
    }
  }

  lemma {:induction false} KnownGrows(f: Func, i: nat, w: Walk, depth: seq<nat>, serial: seq<nat>, kind: seq<Op>)
    requires i < |f.insts| && Known(f, i, w, depth, serial, kind) && MarkerOk(f.insts, i)
    ensures var op, w' := f.insts[i].op, StepWalk(w, f.insts[i].op);
            && (Opens(op) ==> |w.serials| == |w'.serials| - 1 < |kind|)
            && Known(f, i + 1, w', depth[i := |w'.serials| - 1], serial[i := Last(w'.serials)],
                     if Opens(op) then kind[|w'.serials| - 1 := op] else kind)
  {
    var op, w' := f.insts[i].op, StepWalk(w, f.insts[i].op);
    StaysSheltered(f.insts, i);
    WalkGrows(f.insts, i, w);
    NotedGrows(f, i, depth, serial);
    KindsGrow(f.insts, i, kind, if Opens(op) then kind[|StackAt(f.insts, i)| + 1 := op] else kind);
  }

  lemma {:induction false} WalkGrows(insts: seq<Inst>, i: nat, w: Walk)
    requires i < |insts| && Sheltered(insts, i + 1) && w == WalkAt(insts, i)
    requires |w.serials| == |StackAt(insts, i)| + 1 <= i + 1
    ensures var w' := StepWalk(w, insts[i].op);
            && w' == WalkAt(insts, i + 1)
            && |w'.serials| == |StackAt(insts, i + 1)| + 1 <= i + 2
            && (Opens(insts[i].op) ==> |w'.serials| == |w.serials| + 1)
  {
    WalkTracksTree(insts, i + 1);
  }

  lemma {:induction false} StaysSheltered(insts: seq<Inst>, i: nat)
    requires i < |insts| && Sheltered(insts, i) && MarkerOk(insts, i)
    ensures Sheltered(insts, i + 1)
  {
  }

  lemma {:induction false} NopKeepsKnown(f: Func, i: nat, w: Walk, depth: seq<nat>, serial: seq<nat>, kind: seq<Op>)
    requires i < |f.insts| && Known(f, i, w, depth, serial, kind) && f.insts[i].op.Nop?
    ensures Known(f, i + 1, w, depth, serial, kind)
  {
    assert StackAt(f.insts, i + 1) == StackAt(f.insts, i);
  }

  /** Steps the scope past instruction i and records where its value lives. */
  method NoteInst(f: Func, scope: ScopeState, depth: array<nat>, serial: array<nat>, kind: array<Op>, i: nat)
    requires i < |f.insts| && MarkerOk(f.insts, i)
    requires scope.serial != depth && scope.serial != serial && depth != serial
    requires scope.Valid() && scope.serial.Length == |f.insts| + 1
    requires Known(f, i, scope.Value(), depth[..], serial[..], kind[..])
    modifies scope, scope.serial, depth, serial, kind
    ensures scope.Valid() && scope.serial == old(scope.serial)
    ensures Known(f, i + 1, scope.Value(), depth[..], serial[..], kind[..])
  {
    KnownGrows(f, i, scope.Value(), depth[..], serial[..], kind[..]);
    var op := f.insts[i].op;
    scope.Step(op);
    if Opens(op) {
      kind[scope.depth] := op;
    }
    depth[i] := scope.depth;
    serial[i] := scope.serial[scope.depth];
    assert scope.serial[..scope.depth + 1][scope.depth] == scope.serial[scope.depth];
  }

  ghost predicate AllOk(f: Func, n: nat)
    requires n <= |f.insts|
  {
    forall j :: 0 <= j < n ==> InstOk(f, j)
  }

  /** Checks instruction i and, when it passes, moves the walk past it. */
  method VerifyInst(f: Func, scope: ScopeState, depth: array<nat>, serial: array<nat>, kind: array<Op>, i: nat)
    returns (what: Option<What>)
    requires i < |f.insts|
    requires scope.serial != depth && scope.serial != serial && depth != serial
    requires scope.Valid() && scope.serial.Length == |f.insts| + 1
    requires Known(f, i, scope.Value(), depth[..], serial[..], kind[..])
    modifies scope, scope.serial, depth, serial, kind
    ensures scope.Valid() && scope.serial == old(scope.serial)
    ensures what.None? <==> InstOk(f, i)
    ensures what.None? ==> Known(f, i + 1, scope.Value(), depth[..], serial[..], kind[..])
    ensures what.Some? ==> !what.value.Unclosed? && JustifiedAt(f, f.insts[i], i, what.value)
  {
    if f.insts[i].op.Nop? {
      NopKeepsKnown(f, i, scope.Value(), depth[..], serial[..], kind[..]);
      return None;
    }
    what := CheckInst(f, scope, depth, serial, kind, i);
    if what.None? {
      NoteInst(f, scope, depth, serial, kind, i);
    }
  }

  /** The first instruction at fault, if any; otherwise the scope stands at the end. */
  method FirstFault(f: Func, scope: ScopeState, depth: array<nat>, serial: array<nat>, kind: array<Op>)
    returns (fault: Option<Error>)
    requires scope.serial != depth && scope.serial != serial && depth != serial
    requires scope.Valid() && scope.serial.Length == |f.insts| + 1
    requires Known(f, 0, scope.Value(), depth[..], serial[..], kind[..])
    modifies scope, scope.serial, depth, serial, kind
    ensures fault.None? ==> scope.Valid() && AllOk(f, |f.insts|)
    ensures fault.None? ==> Known(f, |f.insts|, scope.Value(), depth[..], serial[..], kind[..])
    ensures fault.Some? ==> !fault.value.what.Unclosed? && Justified(f, fault.value)
    ensures fault.Some? ==> AllOk(f, fault.value.inst) && !InstOk(f, fault.value.inst)
  {
    for i := 0 to |f.insts|
      invariant scope.serial == old(scope.serial)
      invariant scope.Valid() && scope.serial.Length == |f.insts| + 1
      invariant Known(f, i, scope.Value(), depth[..], serial[..], kind[..])
      invariant AllOk(f, i)
    {
      var what := VerifyInst(f, scope, depth, serial, kind, i);
      if what.Some? {
        return Some(Error(i, what.value));
      }
    }
    return None;
  }

  /** Accepts exactly the well-formed functions; otherwise reports the first violation. */
  method Verify(f: Func) returns (ok: bool, error: Error)
    ensures ok <==> WellFormed(f)
    ensures !ok ==> Justified(f, error)
    ensures !ok ==> error.inst <= |f.insts| && AllOk(f, if error.what.Unclosed? then |f.insts| else error.inst)
    ensures !ok && !error.what.Unclosed? ==> !InstOk(f, error.inst)
  {
    var n := |f.insts|;
    var depth, serial := new nat[n], new nat[n];
    var kind := new Op[n + 1](_ => Nop);
    var scope := new ScopeState(n);
    var fault := FirstFault(f, scope, depth, serial, kind);
    if fault.Some? {
      return false, fault.value;
    }
    if scope.depth != 0 {
      return false, Error(if n > 0 then n - 1 else 0, Unclosed);
    }
    return true, Error(0, Unclosed);
  }
}
