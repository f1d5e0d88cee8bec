/** What the shape of a statement says about how it can end. */
module SourceOutcomes {
  import opened Ir
  import opened SourceRuns
  import opened Lowering

  lemma {:induction false} InsideLoopCounts(s: Stmt)
    ensures ReturnInsideLoop(s, true) <==> CountReturns(s) > 0
    ensures ReturnInsideLoop(s, false) ==> CountReturns(s) > 0
    decreases s, 1
  {
    match s
    case Block(stmts) => InsideLoopCountsAll(stmts);
    case If(_, _, yes, no) =>
      InsideLoopCounts(yes);
      if no.Some? { InsideLoopCounts(no.value); }
    case For(_, _, _, body, _) => InsideLoopCounts(body);
    case Do(body, _, _) => InsideLoopCounts(body);
    case Switch(_, _, cases) => InsideLoopCountsCases(cases);
    case _ =>
  }

  lemma {:induction false} InsideLoopCountsAll(stmts: seq<Stmt>)
    ensures AnyInsideLoop(stmts, true) <==> CountAll(stmts) > 0
    ensures AnyInsideLoop(stmts, false) ==> CountAll(stmts) > 0
    decreases stmts, 1
  {
    if stmts != [] {
      InsideLoopCounts(stmts[0]);
      InsideLoopCountsAll(stmts[1..]);
    }
  }

  lemma {:induction false} InsideLoopCountsCases(cases: seq<Case>)
    ensures CasesInsideLoop(cases) <==> CountCases(cases) > 0
    decreases cases, 1
  {
    if cases != [] {
      InsideLoopCountsAll(cases[0].body);
      InsideLoopCountsCases(cases[1..]);
    }
  }

  lemma {:induction false} ExprIsEnclosed(s: Stmt)
    requires IsExpr(s)
    ensures Enclosed(s, false, false) && CountReturns(s) == 0
    decreases s, 1
  {
    match s
    case Block(stmts) => ExprsAreEnclosed(stmts);
    case If(_, _, yes, no) =>
      ExprIsEnclosed(yes);
      if no.Some? { ExprIsEnclosed(no.value); }
    case _ =>
  }

  lemma {:induction false} ExprsAreEnclosed(stmts: seq<Stmt>)
    requires AreExprs(stmts)
    ensures AllEnclosed(stmts, false, false) && CountAll(stmts) == 0
    decreases stmts, 1
  {
    if stmts != [] {
      ExprIsEnclosed(stmts[0]);
      ExprsAreEnclosed(stmts[1..]);
    }
  }

  /** A body that never returns needs no wrapper, and one that returns from no loop or switch no flag. */
  lemma {:induction false} ShapeAsNeeded(s: Stmt, m: nat)
    requires s.Call?
    ensures CountReturns(s.body) == 0 ==> CalleeCtx(s, m).tail
    ensures HasFlag(CalleeCtx(s, m)) ==> !CalleeCtx(s, m).tail && ReturnInsideLoop(s.body, false) && CountReturns(s.body) > 0
  {
    InsideLoopCounts(s.body);
  }

  /** Which outcomes can reach the surroundings of a statement. */
  ghost predicate Fits(o: Outcome, brk: bool, cont: bool, count: nat) {
    (o.Broke? ==> brk) && (o.Continued? ==> cont) && (o.Returned? ==> count > 0)
  }

  lemma {:induction false} OutcomeFits(fuel: nat, s: Stmt, st: Store, brk: bool, cont: bool)
    requires Enclosed(s, brk, cont)
    ensures Fits(Exec(fuel, s, st), brk, cont, CountReturns(s))
    decreases fuel, s, 1
  {
    match s
    case Block(stmts) => OutcomeFitsAll(fuel, stmts, st, brk, cont);
    case If(pre, cond, yes, no) =>
      ExprsFit(fuel, pre, st);
      var o := ExecAll(fuel, pre, st);
      if o.Normal? {
        OutcomeFits(fuel, yes, o.st, brk, cont);
        if no.Some? { OutcomeFits(fuel, no.value, o.st, brk, cont); }
      }
    case For(init, _, _, _, _) =>
      ExprsFit(fuel, init, st);
      var o := ExecAll(fuel, init, st);
      if o.Normal? { ForFits(fuel, s, o.st, brk, cont); }
    case Do(_, _, _) => DoFits(fuel, s, st, brk, cont);
    case Switch(pre, value, cases) =>
      ExprsFit(fuel, pre, st);
      var o := ExecAll(fuel, pre, st);
      if o.Normal? { CasesFit(fuel, cases, Chosen(Tags(cases), value(o.st)), o.st, cont); }
    case Return(pre, _) => ExprsFit(fuel, pre, st);
    case Call(args, body, _, _, _) =>
      ExprsFit(fuel, args, st);
    case _ =>
  }

  lemma {:induction false} OutcomeFitsAll(fuel: nat, stmts: seq<Stmt>, st: Store, brk: bool, cont: bool)
    requires AllEnclosed(stmts, brk, cont)
    ensures Fits(ExecAll(fuel, stmts, st), brk, cont, CountAll(stmts))
    decreases fuel, stmts, 1
  {
    if stmts != [] {
      OutcomeFits(fuel, stmts[0], st, brk, cont);
      var o := Exec(fuel, stmts[0], st);
      if o.Normal? { OutcomeFitsAll(fuel, stmts[1..], o.st, brk, cont); }
    }
  }

  lemma {:induction false} ExprsFit(fuel: nat, stmts: seq<Stmt>, st: Store)
    requires AreExprs(stmts)
    ensures Fits(ExecAll(fuel, stmts, st), false, false, 0)
    decreases fuel, stmts, 2
  {
    ExprsAreEnclosed(stmts);
    OutcomeFitsAll(fuel, stmts, st, false, false);
  }

  lemma {:induction false} CasesFit(fuel: nat, cases: seq<Case>, k: nat, st: Store, cont: bool)
    requires CasesEnclosed(cases, cont)
    ensures Fits(ExecCases(fuel, cases, k, st), true, cont, CountCases(cases))
    decreases fuel, cases, 1
  {
    if cases == [] {
    } else if k > 0 {
      CasesFit(fuel, cases[1..], k - 1, st, cont);
    } else {
      OutcomeFitsAll(fuel, cases[0].body, st, true, cont);
      var o := ExecAll(fuel, cases[0].body, st);
      if o.Normal? { CasesFit(fuel, cases[1..], 0, o.st, cont); }
    }
  }

  lemma {:induction false} ForFits(fuel: nat, s: Stmt, st: Store, brk: bool, cont: bool)
    requires s.For? && Enclosed(s, brk, cont)
    ensures Fits(ExecFor(fuel, s, st), false, false, CountReturns(s.body))
    decreases fuel, s, 0
  {
    ExprsFit(fuel, s.pre, st);
    var o := ExecAll(fuel, s.pre, st);
    if o.Normal? {
      OutcomeFits(fuel, s.body, o.st, true, true);
      var p := Exec(fuel, s.body, o.st);
      if p.Normal? || p.Continued? {
        ExprsFit(fuel, s.inc, p.st);
        var q := ExecAll(fuel, s.inc, p.st);
        if q.Normal? && fuel > 0 { ForFits(fuel - 1, s, q.st, brk, cont); }
        assert Fits(ForAgain(fuel, s, p.st), false, false, CountReturns(s.body));
      }
    }
  }

  lemma {:induction false} DoFits(fuel: nat, s: Stmt, st: Store, brk: bool, cont: bool)
    requires s.Do? && Enclosed(s, brk, cont)
    ensures Fits(ExecDo(fuel, s, st), false, false, CountReturns(s.body))
    decreases fuel, s, 0
  {
    OutcomeFits(fuel, s.body, st, true, true);
    var p := Exec(fuel, s.body, st);
    if p.Normal? || p.Continued? {
      ExprsFit(fuel, s.pre, p.st);
      var q := ExecAll(fuel, s.pre, p.st);
      if q.Normal? && fuel > 0 { DoFits(fuel - 1, s, q.st, brk, cont); }
      assert Fits(DoAgain(fuel, s, p.st), false, false, CountReturns(s.body));
    }
  }
}
