/** What lowering guarantees about every function it produces: its markers pass the verifier, and
    none of its runs can strand. */
module LoweredSafety {
  import opened Ir
  import opened ControlFlow
  import opened Verifier
  import opened Machine
  import opened RunSafety
  import opened SourceRuns
  import opened SourceOutcomes
  import opened LoweredRuns
  import opened Lowering
  import opened LoweredMarkers

  lemma {:induction false} NestedAppend(a: seq<Code>, b: seq<Code>, brk: bool, cont: bool)
    ensures NestedAll(a + b, brk, cont) <==> NestedAll(a, brk, cont) && NestedAll(b, brk, cont)
    decreases a
  {
    if a == [] {
      assert a + b == b;
    } else {
      assert (a + b)[0] == a[0] && (a + b)[1..] == a[1..] + b;
      NestedAppend(a[1..], b, brk, cont);
    }
  }

  lemma {:induction false} NestedOne(c: Code, brk: bool, cont: bool)
    ensures NestedAll([c], brk, cont) <==> Nested(c, brk, cont)
  {
    assert [c][1..] == [];
  }

  /** The surroundings offer what the lowered returns of a statement need: a construct to break
      out of, unless the context's returns do not jump. */
  ghost predicate TakesReturns(c: Ctx, count: nat, brk: bool) {
    c.Inlined? && count > 0 ==> brk || (c.tail && c.returned.None?)
  }

  lemma {:induction false} TakesFewer(c: Ctx, count: nat, fewer: nat, brk: bool)
    requires TakesReturns(c, count, brk) && fewer <= count
    ensures TakesReturns(c, fewer, brk)
  {
  }

  lemma {:induction false} LowerNests(s: Stmt, c: Ctx, n: nat, brk: bool, cont: bool, b: bool, k: bool)
    requires Enclosed(s, brk, cont) && (brk ==> b) && (cont ==> k) && TakesReturns(c, CountReturns(s), b)
    ensures NestedAll(Lower(s, c, n), b, k)
    decreases s, 9
  {
    match s
    case Block(stmts) => LowerAllNests(stmts, c, n, brk, cont, b, k);
    case If(_, _, _, _) => IfNests(s, c, n, brk, cont, b, k);
    case For(_, _, _, _, _) => LowerForNests(s, c, n, brk, cont, b, k);
    case Do(body, _, _) =>
      DoNests(s, c, n, brk, cont, b, k);
      GuardedNests(DoLoop(s, c, n), c, CountReturns(body), b, k);
    case Switch(_, _, _) => SwitchNests(s, c, n, brk, cont, b, k);
    case Return(_, _) => LowerReturnNests(s, c, n, b, k);
    case Call(_, _, _, _, _) => LowerCallNests(s, c, n, b, k);
    case _ => NestedOne(Lower(s, c, n)[0], b, k);
  }

  lemma {:induction false} IfNests(s: Stmt, c: Ctx, n: nat, brk: bool, cont: bool, b: bool, k: bool)
    requires s.If? && Enclosed(s, brk, cont) && (brk ==> b) && (cont ==> k) && TakesReturns(c, CountReturns(s), b)
    ensures NestedAll(Lower(s, c, n), b, k)
    decreases s, 8
  {
    var p := LowerAll(s.pre, c, n);
    var m := n + Len(p);
    ExprsNest(s.pre, c, n, b, k);
    BranchNests(s, c, m, brk, cont, b, k);
    NestedOne(IfBranch(s, c, m), b, k);
    NestedAppend(p, [IfBranch(s, c, m)], b, k);
  }

  lemma {:induction false} LowerForNests(s: Stmt, c: Ctx, n: nat, brk: bool, cont: bool, b: bool, k: bool)
    requires s.For? && Enclosed(s, brk, cont) && TakesReturns(c, CountReturns(s), b)
    ensures NestedAll(Lower(s, c, n), b, k)
    decreases s, 8
  {
    var i := LowerAll(s.init, c, n);
    var m := n + Len(i);
    ExprsNest(s.init, c, n, b, k);
    ForNests(s, c, m, brk, cont, b, k);
    GuardedNests(ForLoop(s, c, m), c, CountReturns(s.body), b, k);
    NestedAppend(i, [ForLoop(s, c, m)] + Guard(c, CountReturns(s.body) > 0), b, k);
  }

  lemma {:induction false} LowerReturnNests(s: Stmt, c: Ctx, n: nat, b: bool, k: bool)
    requires s.Return? && AreExprs(s.pre) && TakesReturns(c, 1, b)
    ensures NestedAll(Lower(s, c, n), b, k)
    decreases s, 8
  {
    ExprsNest(s.pre, c, n, b, k);
    ReturnNests(c, s.result, b, k);
    NestedAppend(LowerAll(s.pre, c, n), ReturnCode(c, s.result), b, k);
  }

  lemma {:induction false} LowerCallNests(s: Stmt, c: Ctx, n: nat, b: bool, k: bool)
    requires s.Call? && AreExprs(s.args) && Enclosed(s.body, false, false)
    ensures NestedAll(Lower(s, c, n), b, k)
    decreases s, 8
  {
    var a := LowerAll(s.args, c, n);
    ExprsNest(s.args, c, n, b, k);
    CalleeNests(s, n + Len(a), b, k);
    NestedAppend(a, CalleeCode(s, n + Len(a)), b, k);
  }

  lemma {:induction false} LowerAllNests(stmts: seq<Stmt>, c: Ctx, n: nat, brk: bool, cont: bool, b: bool, k: bool)
    requires AllEnclosed(stmts, brk, cont) && (brk ==> b) && (cont ==> k) && TakesReturns(c, CountAll(stmts), b)
    ensures NestedAll(LowerAll(stmts, c, n), b, k)
    decreases stmts, 9
  {
    if stmts != [] {
      var first := Lower(stmts[0], c, n);
      TakesFewer(c, CountAll(stmts), CountReturns(stmts[0]), b);
      TakesFewer(c, CountAll(stmts), CountAll(stmts[1..]), b);
      LowerNests(stmts[0], c, n, brk, cont, b, k);
      LowerAllNests(stmts[1..], c, n + Len(first), brk, cont, b, k);
      NestedAppend(first, LowerAll(stmts[1..], c, n + Len(first)), b, k);
    }
  }

  lemma {:induction false} ExprsNest(stmts: seq<Stmt>, c: Ctx, n: nat, b: bool, k: bool)
    requires AreExprs(stmts)
    ensures NestedAll(LowerAll(stmts, c, n), b, k)
    decreases stmts, 10
  {
    ExprsAreEnclosed(stmts);
    LowerAllNests(stmts, c, n, false, false, b, k);
  }

  lemma {:induction false} BranchNests(s: Stmt, c: Ctx, m: nat, brk: bool, cont: bool, b: bool, k: bool)
    requires s.If? && Enclosed(s, brk, cont) && (brk ==> b) && (cont ==> k) && TakesReturns(c, CountReturns(s), b)
    ensures Nested(IfBranch(s, c, m), b, k)
    decreases s, 7
  {
    LowerNests(s.yes, c, m + 1, brk, cont, b, k);
    if s.no.Some? {
      var n := m + 1 + Len(Lower(s.yes, c, m + 1)) + 1;
      LowerNests(s.no.value, c, n, brk, cont, b, k);
      ArmsNest(Holds(s.cond), Lower(s.yes, c, m + 1), true, Lower(s.no.value, c, n), b, k);
    } else {
      ArmsNest(Holds(s.cond), Lower(s.yes, c, m + 1), false, [], b, k);
    }
  }

  lemma {:induction false} ArmsNest(when: Cond, yes: seq<Code>, hasElse: bool, no: seq<Code>, b: bool, k: bool)
    requires NestedAll(yes, b, k) && NestedAll(no, b, k)
    ensures Nested(Branch(when, yes, hasElse, no), b, k)
  {
  }

  /** A loop or switch with the guard behind it. */
  lemma {:induction false} GuardedNests(code: Code, c: Ctx, count: nat, b: bool, k: bool)
    requires Nested(code, b, k) && TakesReturns(c, count, b)
    ensures NestedAll([code] + Guard(c, count > 0), b, k)
  {
    NestedOne(code, b, k);
    var g := Guard(c, count > 0);
    if g != [] {
      NestedOne(Leave, b, k);
      NestedOne(g[0], b, k);
    }
    NestedAppend([code], g, b, k);
  }

  lemma {:induction false} ForNests(s: Stmt, c: Ctx, m: nat, brk: bool, cont: bool, b: bool, k: bool)
    requires s.For? && Enclosed(s, brk, cont)
    ensures Nested(ForLoop(s, c, m), b, k)
    decreases s, 7
  {
    ForBodyNests(s, c, m + 1, brk, cont);
    ExprsNest(s.inc, c, m + 1 + Len(ForBody(s, c, m + 1)) + 1, false, false);
  }

  lemma {:induction false} ForBodyNests(s: Stmt, c: Ctx, n: nat, brk: bool, cont: bool)
    requires s.For? && Enclosed(s, brk, cont)
    ensures NestedAll(ForBody(s, c, n), true, true)
    decreases s, 6
  {
    var x := ForHead(s, c, n);
    ForHeadNests(s, c, n);
    LowerNests(s.body, c, n + Len(x), true, true, true, true);
    NestedAppend(x, Lower(s.body, c, n + Len(x)), true, true);
  }

  lemma {:induction false} ForHeadNests(s: Stmt, c: Ctx, n: nat)
    requires s.For? && Enclosed(s, true, true)
    ensures NestedAll(ForHead(s, c, n), true, true)
    decreases s, 5
  {
    ExprsNest(s.pre, c, n, true, true);
    if s.test.Some? {
      NestedOne(Leave, true, true);
      NestedOne(LoopExit(s.test)[0], true, true);
    }
    NestedAppend(LowerAll(s.pre, c, n), LoopExit(s.test), true, true);
  }

  lemma {:induction false} DoNests(s: Stmt, c: Ctx, m: nat, brk: bool, cont: bool, b: bool, k: bool)
    requires s.Do? && Enclosed(s, brk, cont)
    ensures Nested(DoLoop(s, c, m), b, k)
    decreases s, 7
  {
    LowerNests(s.body, c, m + 1, true, true, true, true);
    ExprsNest(s.pre, c, m + 1 + Len(Lower(s.body, c, m + 1)) + 1, false, false);
  }

  lemma {:induction false} SwitchNests(s: Stmt, c: Ctx, n: nat, brk: bool, cont: bool, b: bool, k: bool)
    requires s.Switch? && Enclosed(s, brk, cont) && (brk ==> b) && (cont ==> k) && TakesReturns(c, CountReturns(s), b)
    ensures NestedAll(Lower(s, c, n), b, k)
    decreases s, 8
  {
    var p := LowerAll(s.pre, c, n);
    var select := Code.Select(s.value, LowerCases(s.cases, c, n + Len(p) + 1));
    ExprsNest(s.pre, c, n, b, k);
    CasesNest(s.cases, c, n + Len(p) + 1, cont, k);
    GuardedNests(select, c, CountReturns(s), b, k);
    NestedAppend(p, [select] + Guard(c, CountReturns(s) > 0), b, k);
  }

  lemma {:induction false} CasesNest(cases: seq<Case>, c: Ctx, n: nat, cont: bool, k: bool)
    requires CasesEnclosed(cases, cont) && (cont ==> k)
    ensures NestedArms(LowerCases(cases, c, n), k)
    decreases cases, 9
  {
    if cases != [] {
      var body := LowerAll(cases[0].body, c, n + 1);
      var rest := LowerCases(cases[1..], c, n + 1 + Len(body));
      LowerAllNests(cases[0].body, c, n + 1, true, cont, true, k);
      CasesNest(cases[1..], c, n + 1 + Len(body), cont, k);
      assert LowerCases(cases, c, n)[1..] == rest;
    }
  }

  lemma {:induction false} ReturnNests(c: Ctx, result: Option<Store -> Word>, b: bool, k: bool)
    requires TakesReturns(c, 1, b)
    ensures NestedAll(ReturnCode(c, result), b, k)
  {
    match c
    case Entry(outputs) =>
      var code := ReturnCode(c, result);
      assert code[1..] == [Exit];
      NestedOne(Exit, b, k);
    case Inlined(slot, flag, tail) =>
      var x: seq<Code> := if slot.Some? && result.Some? then [SetResult(slot.value, result.value)] else [];
      var y: seq<Code> := if flag.Some? then [SetFlag(flag.value, true)] else [];
      if x != [] { NestedOne(x[0], b, k); }
      if y != [] { NestedOne(y[0], b, k); }
      NestedOne(Leave, b, k);
      NestedAppend(y, [Leave], b, k);
      NestedAppend(x, if tail then [] else y + [Leave], b, k);
  }

  lemma {:induction false} CalleeNests(s: Stmt, m: nat, b: bool, k: bool)
    requires s.Call? && Enclosed(s.body, false, false)
    ensures NestedAll(CalleeCode(s, m), b, k)
    decreases s, 7
  {
    var c := CalleeCtx(s, m);
    var w := Wrapped(c, Lower(s.body, c, BodyAt(s, m)));
    var end := [Step(s.copyOut), UseResult(c.result, s.use)];
    DeclarationsNest(s, m, b, k);
    WrapperNests(s, m, b, k);
    NestedOne(end[1], b, k);
    assert end[1..] == [end[1]];
    NestedAppend(w, end, b, k);
    NestedAppend(Declarations(s, m), w + end, b, k);
  }

  lemma {:induction false} DeclarationsNest(s: Stmt, m: nat, b: bool, k: bool)
    requires s.Call?
    ensures NestedAll(Declarations(s, m), b, k)
  {
    var c := CalleeCtx(s, m);
    var x: seq<Code> := if s.nonVoid then [Slot] else [];
    var y: seq<Code> := if HasFlag(c) then [Slot, SetFlag(c.returned.value, false)] else [];
    NestedOne(Slot, b, k);
    if y != [] {
      assert y[1..] == [y[1]];
      NestedOne(y[1], b, k);
    }
    NestedAppend(x, y, b, k);
  }

  /** The wrapper gives the returns of its body something to break out of. */
  lemma {:induction false} WrapperNests(s: Stmt, m: nat, b: bool, k: bool)
    requires s.Call? && Enclosed(s.body, false, false)
    ensures var c := CalleeCtx(s, m); NestedAll(Wrapped(c, Lower(s.body, c, BodyAt(s, m))), b, k)
    decreases s, 6
  {
    var c := CalleeCtx(s, m);
    var body := Lower(s.body, c, BodyAt(s, m));
    if c.tail {
      LowerNests(s.body, c, BodyAt(s, m), false, false, b, k);
    } else {
      LowerNests(s.body, c, BodyAt(s, m), false, false, true, false);
      NestedOne(Leave, true, false);
      NestedAppend(body, [Leave], true, false);
      NestedOne(Wrapped(c, body)[0], b, k);
    }
  }

  // ----- whole functions -----

  /** f is what an entry point is lowered to: those markers, around any straight-line code. */
  ghost predicate IsLowering(f: Func, body: Stmt, outputs: (Store, Option<Word>) -> Store) {
    Enclosed(body, false, false) &&
    var ts := FlatAll(LowerEntry(body, outputs, 0));
    |f.insts| == |ts| && Spells(f.insts, 0, ts)
  }

  lemma {:induction false} EntryNests(body: Stmt, outputs: (Store, Option<Word>) -> Store)
    requires Enclosed(body, false, false)
    ensures NestedAll(LowerEntry(body, outputs, 0), false, false)
  {
    LowerNests(body, Entry(outputs), 0, false, false, false, false);
    NestedOne(Exit, false, false);
    NestedAppend(Lower(body, Entry(outputs), 0), [Exit], false, false);
  }

  lemma {:induction false} MarkersPass(f: Func, body: Stmt, outputs: (Store, Option<Word>) -> Store)
    requires IsLowering(f, body, outputs)
    ensures forall i :: 0 <= i < |f.insts| ==> MarkerOk(f.insts, i)
    ensures StackAt(f.insts, |f.insts|) == []
    ensures ContinuesHaveSections(f)
  {
    var code := LowerEntry(body, outputs, 0);
    EntryNests(body, outputs);
    RowIsGood(f.insts, 0, code, false, false);
    AllBalanced(f.insts, 0, code, |FlatAll(code)|);
    forall i | 0 <= i < |f.insts|
      ensures MarkerOk(f.insts, i)
    {
      assert Good(f.insts, i);
    }
    forall i: nat, c: nat | i < |f.insts| && f.insts[i].op.Continue? && IsTarget(f.insts, i, c, true)
      ensures HasLaterArm(f.insts, c)
    {
      assert Good(f.insts, i);
    }
  }

  /** So for lowered functions the operand checks alone are enough: no run finds an operand that
      was not computed, although the verifier accepts other functions whose runs do. */
  lemma {:induction false} LoweredRunsAreSafe(f: Func, body: Stmt, outputs: (Store, Option<Word>) -> Store,
                                              run: seq<Machine.State>, k: nat)
    requires IsLowering(f, body, outputs)
    requires forall i :: 0 <= i < |f.insts| ==> AuxInPool(f, f.insts[i])
    requires forall i, x :: 0 <= i < |f.insts| && IsOperand(f, f.insts[i], x) ==> OperandOk(f, i, x)
    requires IsRun(f.insts, run) && k < |run|
    ensures WellFormed(f) && OperandsReady(f, run, k)
  {
    MarkersPass(f, body, outputs);
    forall i | 0 <= i < |f.insts|
      ensures InstOk(f, i)
    {
    }
    SectionsMakeRunsSafe(f, run, k);
  }
}
