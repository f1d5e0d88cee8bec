/** Inlining preserves meaning: lowered code ends the way its source does, with the same
    store, returns included. */
module EarlyReturns {
  import opened Ir
  import opened SourceRuns
  import opened LoweredRuns
  import opened Lowering
  import opened SourceOutcomes

  // ----- how runs correspond -----

  ghost predicate SameBelow(n: nat, a: State, b: State) {
    forall k: nat :: k < n ==> ResultOf(a, k) == ResultOf(b, k) && FlagOf(a, k) == FlagOf(b, k)
  }

  /** As SameBelow, but for the slots of the context itself. */
  ghost predicate OthersSame(c: Ctx, n: nat, a: State, b: State)
    requires c.Inlined?
  {
    forall k: nat :: k < n ==>
      (c.result == Some(k) || ResultOf(a, k) == ResultOf(b, k)) &&
      (c.returned == Some(k) || FlagOf(a, k) == FlagOf(b, k))
  }

  /** The context's slots are declared, and nothing has returned yet. */
  ghost predicate Ready(c: Ctx, n: nat, st: State) {
    c.Inlined? ==>
      (c.tail ==> c.returned.None?) && (c.result.Some? ==> c.result.value < n) &&
      (c.returned.Some? ==> c.returned.value < n && !FlagOf(st, c.returned.value))
  }

  /** A body returned: its value is in the result slot and the flag is up. */
  ghost predicate Delivered(c: Ctx, n: nat, st: State, s: Store, v: Option<Word>, r: State)
    requires c.Inlined?
  {
    && r.store == s && OthersSame(c, n, st, r)
    && (c.result.Some? && v.Some? ==> ResultOf(r, c.result.value) == v)
    && (c.returned.Some? ==> FlagOf(r, c.returned.value))
  }

  /** Source outcome o corresponds to what the lowered code did from st; `past` when the code has
      already left the loop or switch the return sits in. */
  ghost predicate Matches(c: Ctx, n: nat, st: State, o: Outcome, r: Effect, past: bool) {
    match o
    case Normal(s) => r.Went? && r.st.store == s && SameBelow(n, st, r.st)
    case Broke(s) => r.Left? && r.st.store == s && SameBelow(n, st, r.st)
    case Continued(s) => r.Nexted? && r.st.store == s && SameBelow(n, st, r.st)
    case Discarded(s) => r.Killed? && r.st.store == s
    case Returned(s, v) =>
      (match c
       case Entry(outputs) => r.Exited? && r.st.store == outputs(s, v)
       case Inlined(_, _, tail) =>
         (if tail || past then r.Went? else r.Left?) && Delivered(c, n, st, s, v, r.st))
    case Undefined => true
    case NoFuel => r.Spent?
  }

  lemma {:induction false} MatchesLater(c: Ctx, n: nat, a: State, m: nat, b: State, o: Outcome, r: Effect, past: bool)
    requires n <= m && SameBelow(n, a, b) && Matches(c, m, b, o, r, past)
    ensures Matches(c, n, a, o, r, past)
  {
  }

  lemma {:induction false} ReadyLater(c: Ctx, n: nat, a: State, m: nat, b: State)
    requires Ready(c, n, a) && n <= m && SameBelow(n, a, b)
    ensures Ready(c, m, b)
  {
  }

  /** The shape of the context fits the returns of s. */
  ghost predicate Suits(c: Ctx, s: Stmt) {
    c.Inlined? ==> (c.tail ==> CountReturns(s) == 0) &&
                   (!c.tail && c.returned.None? ==> !ReturnInsideLoop(s, false))
  }

  ghost predicate SuitsAll(c: Ctx, stmts: seq<Stmt>) {
    c.Inlined? ==> (c.tail ==> CountAll(stmts) == 0) &&
                   (!c.tail && c.returned.None? ==> !AnyInsideLoop(stmts, false))
  }

  ghost predicate SuitsCases(c: Ctx, cases: seq<Case>) {
    c.Inlined? && (c.tail || c.returned.None?) ==> CountCases(cases) == 0
  }

  // ----- statements in a row -----

  lemma {:induction false} SuitsPart(c: Ctx, stmts: seq<Stmt>)
    requires stmts != [] && SuitsAll(c, stmts)
    ensures Suits(c, stmts[0]) && SuitsAll(c, stmts[1..])
  {
  }

  /** Code a runs, then code b from wherever a fell off its end. */
  lemma {:induction false} Chain(fuel: nat, c: Ctx, n: nat, m: nat, st: State, a: seq<Code>, b: seq<Code>, o: Outcome, p: Outcome, past: bool)
    requires n <= m && Matches(c, n, st, o, RunAll(fuel, a, st), false)
    requires o.Normal? ==>
      var r := RunAll(fuel, a, st);
      r.Went? && Matches(c, m, r.st, p, RunAll(fuel, b, r.st), past)
    requires !o.Normal? ==> p == o && !(o.Returned? && c.Inlined? && (c.tail || past))
    ensures Matches(c, n, st, p, RunAll(fuel, a + b, st), past)
  {
    RunAppend(fuel, a, b, st);
  }

  lemma {:induction false} AllMatch(fuel: nat, stmts: seq<Stmt>, c: Ctx, n: nat, st: State, brk: bool, cont: bool)
    requires AllEnclosed(stmts, brk, cont) && SuitsAll(c, stmts) && Ready(c, n, st)
    ensures Matches(c, n, st, ExecAll(fuel, stmts, st.store), RunAll(fuel, LowerAll(stmts, c, n), st), false)
    decreases fuel, stmts, 1
  {
    if stmts != [] {
      SuitsPart(c, stmts);
      StmtMatches(fuel, stmts[0], c, n, st, brk, cont);
      OutcomeFits(fuel, stmts[0], st.store, brk, cont);
      var first := Lower(stmts[0], c, n);
      var m := n + Len(first);
      var o := Exec(fuel, stmts[0], st.store);
      if o.Normal? {
        var r := RunAll(fuel, first, st);
        ReadyLater(c, n, st, m, r.st);
        AllMatch(fuel, stmts[1..], c, m, r.st, brk, cont);
      }
      Chain(fuel, c, n, m, st, first, LowerAll(stmts[1..], c, m), o, ExecAll(fuel, stmts, st.store), false);
    }
  }

  /** Code of expressions: it falls off its end, or the whole run is over. */
  lemma {:induction false} ExprsMatch(fuel: nat, stmts: seq<Stmt>, c: Ctx, n: nat, st: State)
    requires AreExprs(stmts) && Ready(c, n, st)
    ensures Matches(c, n, st, ExecAll(fuel, stmts, st.store), RunAll(fuel, LowerAll(stmts, c, n), st), false)
    ensures Fits(ExecAll(fuel, stmts, st.store), false, false, 0)
    decreases fuel, stmts, 2
  {
    ExprsFit(fuel, stmts, st.store);
    ExprsAreEnclosed(stmts);
    InsideLoopCountsAll(stmts);
    AllMatch(fuel, stmts, c, n, st, false, false);
  }

  // ----- one statement -----

  lemma {:induction false} StmtMatches(fuel: nat, s: Stmt, c: Ctx, n: nat, st: State, brk: bool, cont: bool)
    requires Enclosed(s, brk, cont) && Suits(c, s) && Ready(c, n, st)
    ensures Matches(c, n, st, Exec(fuel, s, st.store), RunAll(fuel, Lower(s, c, n), st), false)
    decreases fuel, s, 9
  {
    match s
    case Block(stmts) => AllMatch(fuel, stmts, c, n, st, brk, cont);
    case If(_, _, _, _) => IfMatches(fuel, s, c, n, st, brk, cont);
    case For(_, _, _, _, _) => ForMatches(fuel, s, c, n, st, brk, cont);
    case Do(_, _, _) => DoMatches(fuel, s, c, n, st, brk, cont);
    case Switch(_, _, _) => SwitchMatches(fuel, s, c, n, st, brk, cont);
    case Return(_, _) => ReturnMatches(fuel, s, c, n, st);
    case Call(_, _, _, _, _) => CallMatches(fuel, s, c, n, st);
    case _ => RunOne(fuel, Lower(s, c, n)[0], st);
  }

  lemma {:induction false} IfMatches(fuel: nat, s: Stmt, c: Ctx, n: nat, st: State, brk: bool, cont: bool)
    requires s.If? && Enclosed(s, brk, cont) && Suits(c, s) && Ready(c, n, st)
    ensures Matches(c, n, st, Exec(fuel, s, st.store), RunAll(fuel, Lower(s, c, n), st), false)
    decreases fuel, s, 8
  {
    ExprsMatch(fuel, s.pre, c, n, st);
    var p := LowerAll(s.pre, c, n);
    var m := n + Len(p);
    var o := ExecAll(fuel, s.pre, st.store);
    if o.Normal? {
      var r := RunAll(fuel, p, st).st;
      ReadyLater(c, n, st, m, r);
      BranchMatches(fuel, s, c, m, r, brk, cont);
    }
    Chain(fuel, c, n, m, st, p, [IfBranch(s, c, m)], o, Exec(fuel, s, st.store), false);
  }

  lemma {:induction false} BranchMatches(fuel: nat, s: Stmt, c: Ctx, m: nat, st: State, brk: bool, cont: bool)
    requires s.If? && Enclosed(s, brk, cont) && Suits(c, s) && Ready(c, m, st)
    ensures Matches(c, m, st,
                    if s.cond(st.store) then Exec(fuel, s.yes, st.store)
                    else if s.no.Some? then Exec(fuel, s.no.value, st.store) else Normal(st.store),
                    RunAll(fuel, [IfBranch(s, c, m)], st), false)
    decreases fuel, s, 7
  {
    RunOne(fuel, IfBranch(s, c, m), st);
    if s.cond(st.store) {
      ReadyLater(c, m, st, m + 1, st);
      StmtMatches(fuel, s.yes, c, m + 1, st, brk, cont);
      MatchesLater(c, m, st, m + 1, st, Exec(fuel, s.yes, st.store), RunAll(fuel, Lower(s.yes, c, m + 1), st), false);
    } else if s.no.Some? {
      var k := m + 1 + Len(Lower(s.yes, c, m + 1)) + 1;
      ReadyLater(c, m, st, k, st);
      StmtMatches(fuel, s.no.value, c, k, st, brk, cont);
      MatchesLater(c, m, st, k, st, Exec(fuel, s.no.value, st.store), RunAll(fuel, Lower(s.no.value, c, k), st), false);
    }
  }

  lemma {:induction false} ReturnMatches(fuel: nat, s: Stmt, c: Ctx, n: nat, st: State)
    requires s.Return? && AreExprs(s.pre) && Ready(c, n, st)
    requires c.Inlined? ==> !c.tail
    ensures Matches(c, n, st, Exec(fuel, s, st.store), RunAll(fuel, Lower(s, c, n), st), false)
    decreases fuel, s, 8
  {
    ExprsMatch(fuel, s.pre, c, n, st);
    var p := LowerAll(s.pre, c, n);
    var o := ExecAll(fuel, s.pre, st.store);
    if o.Normal? {
      var r := RunAll(fuel, p, st).st;
      ReadyLater(c, n, st, n, r);
      ReturnCodeRuns(fuel, c, n, r, s.result);
    }
    Chain(fuel, c, n, n, st, p, ReturnCode(c, s.result), o, Exec(fuel, s, st.store), false);
  }

  function ValueOf(result: Option<Store -> Word>, st: Store): Option<Word> {
    if result.Some? then Some(result.value(st)) else None
  }

  lemma {:induction false} ReturnCodeRuns(fuel: nat, c: Ctx, n: nat, st: State, result: Option<Store -> Word>)
    requires Ready(c, n, st)
    ensures Matches(c, n, st, Returned(st.store, ValueOf(result, st.store)), RunAll(fuel, ReturnCode(c, result), st), false)
  {
    match c
    case Entry(outputs) =>
      var s1 := st.(store := outputs(st.store, ValueOf(result, st.store)));
      var code := ReturnCode(c, result);
      assert Run(fuel, code[0], st) == Went(s1);
      RunOne(fuel, Exit, s1);
      assert code[1..] == [Exit];
    case Inlined(slot, flag, tail) =>
      var a := if slot.Some? && result.Some? then [SetResult(slot.value, result.value)] else [];
      var b := if flag.Some? then [SetFlag(flag.value, true)] else [];
      var s1 := if slot.Some? && result.Some? then st.(results := st.results[slot.value := result.value(st.store)]) else st;
      var s2 := if flag.Some? then s1.(flags := s1.flags[flag.value := true]) else s1;
      if a != [] { RunOne(fuel, a[0], st); }
      assert RunAll(fuel, a, st) == Went(s1);
      if tail {
        assert ReturnCode(c, result) == a;
      } else {
        if b != [] { RunOne(fuel, b[0], s1); }
        RunOne(fuel, Leave, s2);
        RunAppend(fuel, b, [Leave], s1);
        RunAppend(fuel, a, b + [Leave], st);
      }
  }

  // ----- loops and switches -----

  /** What the guard behind a loop or switch makes of its outcome. */
  lemma {:induction false} GuardMatches(fuel: nat, c: Ctx, n: nat, st: State, code: Code, o: Outcome, has: bool)
    requires Ready(c, n, st) && Matches(c, n, st, o, Run(fuel, code, st), true)
    requires o.Returned? && c.Inlined? ==> has && !c.tail && c.returned.Some?
    ensures Matches(c, n, st, o, RunAll(fuel, [code] + Guard(c, has), st), false)
  {
    RunOne(fuel, code, st);
    RunAppend(fuel, [code], Guard(c, has), st);
    if !o.Undefined? && Run(fuel, code, st).Went? {
      var r := Run(fuel, code, st).st;
      if Guard(c, has) != [] {
        RunOne(fuel, Guard(c, has)[0], r);
        RunOne(fuel, Leave, r);
        assert FlagOf(r, c.returned.value) <==> o.Returned?;
      }
    }
  }

  /** Only a context with a flag can have a return inside a loop or switch. */
  lemma {:induction false} ReturnsNeedFlag(c: Ctx, s: Stmt, o: Outcome, brk: bool, cont: bool, count: nat)
    requires (s.For? || s.Do? || s.Switch?) && Suits(c, s) && Fits(o, brk, cont, count) && count <= CountReturns(s)
    ensures o.Returned? && c.Inlined? ==> !c.tail && c.returned.Some?
  {
    match s
    case For(_, _, _, body, _) => InsideLoopCounts(body);
    case Do(body, _, _) => InsideLoopCounts(body);
    case Switch(_, _, cases) => InsideLoopCountsCases(cases);
  }

  lemma {:induction false} SuitsBody(c: Ctx, s: Stmt)
    requires (s.For? || s.Do?) && Suits(c, s)
    ensures Suits(c, s.body)
  {
    InsideLoopCounts(s.body);
  }

  lemma {:induction false} ForMatches(fuel: nat, s: Stmt, c: Ctx, n: nat, st: State, brk: bool, cont: bool)
    requires s.For? && Enclosed(s, brk, cont) && Suits(c, s) && Ready(c, n, st)
    ensures Matches(c, n, st, Exec(fuel, s, st.store), RunAll(fuel, Lower(s, c, n), st), false)
    decreases fuel, s, 8
  {
    ExprsMatch(fuel, s.init, c, n, st);
    var i := LowerAll(s.init, c, n);
    var m := n + Len(i);
    var o := ExecAll(fuel, s.init, st.store);
    var has := CountReturns(s.body) > 0;
    if o.Normal? {
      var r := RunAll(fuel, i, st).st;
      ReadyLater(c, n, st, m, r);
      ForLoopMatches(fuel, s, c, m, r, brk, cont);
      ForFits(fuel, s, r.store, brk, cont);
      ReturnsNeedFlag(c, s, ExecFor(fuel, s, r.store), false, false, CountReturns(s.body));
      GuardMatches(fuel, c, m, r, ForLoop(s, c, m), ExecFor(fuel, s, r.store), has);
    }
    Chain(fuel, c, n, m, st, i, [ForLoop(s, c, m)] + Guard(c, has), o, Exec(fuel, s, st.store), false);
  }

  lemma {:induction false} ForLoopMatches(fuel: nat, s: Stmt, c: Ctx, m: nat, st: State, brk: bool, cont: bool)
    requires s.For? && Enclosed(s, brk, cont) && Suits(c, s) && Ready(c, m, st)
    ensures Matches(c, m, st, ExecFor(fuel, s, st.store), RunLoop(fuel, ForLoop(s, c, m), st), true)
    decreases fuel, s, 7
  {
    var x := ForHead(s, c, m + 1);
    var k := m + 1 + Len(x);
    var b := Lower(s.body, c, k);
    var code := ForLoop(s, c, m);
    RunAppend(fuel, x, b, st);
    ForTestRuns(fuel, s, c, m, st);
    var o := ExecAll(fuel, s.pre, st.store);
    if o.Normal? && (s.test.None? || s.test.value(o.st)) {
      var r := RunAll(fuel, x, st).st;
      ReadyLater(c, m, st, k, r);
      SuitsBody(c, s);
      StmtMatches(fuel, s.body, c, k, r, true, true);
      OutcomeFits(fuel, s.body, r.store, true, true);
      ReturnsNeedFlag(c, s, Exec(fuel, s.body, r.store), true, true, CountReturns(s.body));
      var p := Exec(fuel, s.body, r.store);
      if p.Normal? || p.Continued? {
        var t := RunAll(fuel, b, r).st;
        ReadyLater(c, k, r, k, t);
        ForAgainMatches(fuel, s, c, m, t, brk, cont);
        MatchesLater(c, m, st, m, t, ForAgain(fuel, s, p.st), LoopAgain(fuel, code, t), true);
      } else {
        MatchesLater(c, m, st, k, r, p, RunAll(fuel, b, r), false);
      }
    }
  }

  /** The exit test at the head of the body: it falls through exactly when the source's holds. */
  lemma {:induction false} ForTestRuns(fuel: nat, s: Stmt, c: Ctx, m: nat, st: State)
    requires s.For? && AreExprs(s.pre) && Ready(c, m, st)
    ensures var o := ExecAll(fuel, s.pre, st.store);
            var r := RunAll(fuel, ForHead(s, c, m + 1), st);
            Fits(o, false, false, 0) &&
            if o.Normal? && s.test.Some? && !s.test.value(o.st)
            then r.Left? && r.st.store == o.st && SameBelow(m, st, r.st)
            else Matches(c, m, st, o, r, false)
    decreases fuel, s, 6
  {
    var p := LowerAll(s.pre, c, m + 1);
    ReadyLater(c, m, st, m + 1, st);
    ExprsMatch(fuel, s.pre, c, m + 1, st);
    RunAppend(fuel, p, LoopExit(s.test), st);
    var o := ExecAll(fuel, s.pre, st.store);
    if o.Normal? && s.test.Some? {
      var r := RunAll(fuel, p, st).st;
      RunOne(fuel, LoopExit(s.test)[0], r);
      RunOne(fuel, Leave, r);
    }
    MatchesLater(c, m, st, m + 1, st, o, RunAll(fuel, p, st), false);
  }

  lemma {:induction false} ForAgainMatches(fuel: nat, s: Stmt, c: Ctx, m: nat, st: State, brk: bool, cont: bool)
    requires s.For? && Enclosed(s, brk, cont) && Suits(c, s) && Ready(c, m, st)
    ensures Matches(c, m, st, ForAgain(fuel, s, st.store), LoopAgain(fuel, ForLoop(s, c, m), st), true)
    decreases fuel, s, 6
  {
    var code := ForLoop(s, c, m);
    var k := m + 1 + Len(ForBody(s, c, m + 1)) + 1;
    assert code.cont == LowerAll(s.inc, c, k);
    ReadyLater(c, m, st, k, st);
    ExprsMatch(fuel, s.inc, c, k, st);
    MatchesLater(c, m, st, k, st, ExecAll(fuel, s.inc, st.store), RunAll(fuel, code.cont, st), false);
    var o := ExecAll(fuel, s.inc, st.store);
    if o.Normal? && fuel > 0 {
      var r := RunAll(fuel, code.cont, st).st;
      ReadyLater(c, m, st, m, r);
      ForLoopMatches(fuel - 1, s, c, m, r, brk, cont);
      MatchesLater(c, m, st, m, r, ExecFor(fuel - 1, s, r.store), RunLoop(fuel - 1, code, r), true);
    }
  }

  lemma {:induction false} DoMatches(fuel: nat, s: Stmt, c: Ctx, n: nat, st: State, brk: bool, cont: bool)
    requires s.Do? && Enclosed(s, brk, cont) && Suits(c, s) && Ready(c, n, st)
    ensures Matches(c, n, st, Exec(fuel, s, st.store), RunAll(fuel, Lower(s, c, n), st), false)
    decreases fuel, s, 8
  {
    DoLoopMatches(fuel, s, c, n, st, brk, cont);
    DoFits(fuel, s, st.store, brk, cont);
    ReturnsNeedFlag(c, s, ExecDo(fuel, s, st.store), false, false, CountReturns(s.body));
    GuardMatches(fuel, c, n, st, DoLoop(s, c, n), ExecDo(fuel, s, st.store), CountReturns(s.body) > 0);
  }

  lemma {:induction false} DoLoopMatches(fuel: nat, s: Stmt, c: Ctx, m: nat, st: State, brk: bool, cont: bool)
    requires s.Do? && Enclosed(s, brk, cont) && Suits(c, s) && Ready(c, m, st)
    ensures Matches(c, m, st, ExecDo(fuel, s, st.store), RunLoop(fuel, DoLoop(s, c, m), st), true)
    decreases fuel, s, 7
  {
    var code := DoLoop(s, c, m);
    ReadyLater(c, m, st, m + 1, st);
    SuitsBody(c, s);
    StmtMatches(fuel, s.body, c, m + 1, st, true, true);
    OutcomeFits(fuel, s.body, st.store, true, true);
    ReturnsNeedFlag(c, s, Exec(fuel, s.body, st.store), true, true, CountReturns(s.body));
    var p := Exec(fuel, s.body, st.store);
    MatchesLater(c, m, st, m + 1, st, p, RunAll(fuel, code.body, st), false);
    if p.Normal? || p.Continued? {
      var t := RunAll(fuel, code.body, st).st;
      ReadyLater(c, m, st, m, t);
      DoAgainMatches(fuel, s, c, m, t, brk, cont);
      MatchesLater(c, m, st, m, t, DoAgain(fuel, s, p.st), LoopAgain(fuel, code, t), true);
    }
  }

  lemma {:induction false} DoAgainMatches(fuel: nat, s: Stmt, c: Ctx, m: nat, st: State, brk: bool, cont: bool)
    requires s.Do? && Enclosed(s, brk, cont) && Suits(c, s) && Ready(c, m, st)
    ensures Matches(c, m, st, DoAgain(fuel, s, st.store), LoopAgain(fuel, DoLoop(s, c, m), st), true)
    decreases fuel, s, 6
  {
    var code := DoLoop(s, c, m);
    var k := m + 1 + Len(code.body) + 1;
    ReadyLater(c, m, st, k, st);
    ExprsMatch(fuel, s.pre, c, k, st);
    MatchesLater(c, m, st, k, st, ExecAll(fuel, s.pre, st.store), RunAll(fuel, code.cont, st), false);
    var o := ExecAll(fuel, s.pre, st.store);
    if o.Normal? && fuel > 0 {
      var r := RunAll(fuel, code.cont, st).st;
      ReadyLater(c, m, st, m, r);
      DoLoopMatches(fuel - 1, s, c, m, r, brk, cont);
      MatchesLater(c, m, st, m, r, ExecDo(fuel - 1, s, r.store), RunLoop(fuel - 1, code, r), true);
    }
  }

  lemma {:induction false} SwitchMatches(fuel: nat, s: Stmt, c: Ctx, n: nat, st: State, brk: bool, cont: bool)
    requires s.Switch? && Enclosed(s, brk, cont) && Suits(c, s) && Ready(c, n, st)
    ensures Matches(c, n, st, Exec(fuel, s, st.store), RunAll(fuel, Lower(s, c, n), st), false)
    decreases fuel, s, 8
  {
    ExprsMatch(fuel, s.pre, c, n, st);
    var p := LowerAll(s.pre, c, n);
    var m := n + Len(p) + 1;
    var select := Code.Select(s.value, LowerCases(s.cases, c, m));
    var has := CountReturns(s) > 0;
    var o := ExecAll(fuel, s.pre, st.store);
    if o.Normal? {
      var r := RunAll(fuel, p, st).st;
      ReadyLater(c, n, st, m, r);
      SameTags(s.cases, c, m);
      InsideLoopCountsCases(s.cases);
      var from := Chosen(Tags(s.cases), s.value(r.store));
      var q := ExecCases(fuel, s.cases, from, r.store);
      CasesMatch(fuel, s.cases, from, c, m, r, cont);
      CasesFit(fuel, s.cases, from, r.store, cont);
      ReturnsNeedFlag(c, s, q, true, cont, CountCases(s.cases));
      GuardMatches(fuel, c, m, r, select, if q.Broke? then Normal(q.st) else q, has);
    }
    Chain(fuel, c, n, m, st, p, [select] + Guard(c, has), o, Exec(fuel, s, st.store), false);
  }

  lemma {:induction false} CasesMatch(fuel: nat, cases: seq<Case>, k: nat, c: Ctx, n: nat, st: State, cont: bool)
    requires CasesEnclosed(cases, cont) && SuitsCases(c, cases) && Ready(c, n, st)
    ensures Matches(c, n, st, ExecCases(fuel, cases, k, st.store), RunArms(fuel, LowerCases(cases, c, n), k, st), false)
    decreases fuel, cases, 1
  {
    if cases != [] {
      var body := LowerAll(cases[0].body, c, n + 1);
      var m := n + 1 + Len(body);
      var rest := LowerCases(cases[1..], c, m);
      assert LowerCases(cases, c, n)[1..] == rest;
      ReadyLater(c, n, st, n + 1, st);
      ReadyLater(c, n, st, m, st);
      if k > 0 {
        CasesMatch(fuel, cases[1..], k - 1, c, m, st, cont);
        MatchesLater(c, n, st, m, st, ExecCases(fuel, cases, k, st.store), RunArms(fuel, rest, k - 1, st), false);
      } else {
        InsideLoopCountsAll(cases[0].body);
        AllMatch(fuel, cases[0].body, c, n + 1, st, true, cont);
        OutcomeFitsAll(fuel, cases[0].body, st.store, true, cont);
        var o := ExecAll(fuel, cases[0].body, st.store);
        if o.Normal? {
          var r := RunAll(fuel, body, st).st;
          ReadyLater(c, n + 1, st, m, r);
          CasesMatch(fuel, cases[1..], 0, c, m, r, cont);
          MatchesLater(c, n, st, m, r, ExecCases(fuel, cases, k, st.store), RunArms(fuel, rest, 0, r), false);
        } else {
          MatchesLater(c, n, st, n + 1, st, o, RunAll(fuel, body, st), false);
        }
      }
    }
  }

  // ----- calls -----

  /** A body whose only return is its tail stores the result and falls off its end. */
  lemma {:induction false} TailMatches(fuel: nat, stmts: seq<Stmt>, c: Ctx, n: nat, st: State)
    requires AllEnclosed(stmts, false, false) && Ready(c, n, st) && c.Inlined? && c.tail
    requires stmts != [] && stmts[|stmts| - 1].Return? && CountAll(stmts) == 1
    ensures Matches(c, n, st, ExecAll(fuel, stmts, st.store), RunAll(fuel, LowerAll(stmts, c, n), st), false)
    decreases fuel, stmts, 1
  {
    var first := Lower(stmts[0], c, n);
    var m := n + Len(first);
    var o := Exec(fuel, stmts[0], st.store);
    if |stmts| == 1 {
      assert stmts[1..] == [];
      TailReturnMatches(fuel, stmts[0], c, n, st);
      assert LowerAll(stmts, c, n) == first;
    } else {
      LastCounts(stmts[1..]);
      StmtMatches(fuel, stmts[0], c, n, st, false, false);
      OutcomeFits(fuel, stmts[0], st.store, false, false);
      if o.Normal? {
        var r := RunAll(fuel, first, st);
        ReadyLater(c, n, st, m, r.st);
        TailMatches(fuel, stmts[1..], c, m, r.st);
      }
      Chain(fuel, c, n, m, st, first, LowerAll(stmts[1..], c, m), o, ExecAll(fuel, stmts, st.store), false);
    }
  }

  lemma {:induction false} LastCounts(stmts: seq<Stmt>)
    requires stmts != [] && stmts[|stmts| - 1].Return?
    ensures CountAll(stmts) >= 1
  {
    if |stmts| > 1 {
      LastCounts(stmts[1..]);
    }
  }

  lemma {:induction false} TailReturnMatches(fuel: nat, s: Stmt, c: Ctx, n: nat, st: State)
    requires s.Return? && AreExprs(s.pre) && Ready(c, n, st) && c.Inlined? && c.tail
    ensures Matches(c, n, st, Exec(fuel, s, st.store), RunAll(fuel, Lower(s, c, n), st), false)
    decreases fuel, s, 8
  {
    ExprsMatch(fuel, s.pre, c, n, st);
    var p := LowerAll(s.pre, c, n);
    var code := ReturnCode(c, s.result);
    var o := ExecAll(fuel, s.pre, st.store);
    RunAppend(fuel, p, code, st);
    if o.Normal? {
      var r := RunAll(fuel, p, st).st;
      ReadyLater(c, n, st, n, r);
      ReturnCodeRuns(fuel, c, n, r, s.result);
      MatchesLater(c, n, st, n, r, Exec(fuel, s, st.store), RunAll(fuel, code, r), false);
    }
  }

  /** An inlined body, wrapped or not, always falls off its end once it has run. */
  lemma {:induction false} BodyMatches(fuel: nat, s: Stmt, m: nat, n: nat, st: State)
    requires s.Call? && Enclosed(s.body, false, false) && Ready(CalleeCtx(s, m), n, st)
    ensures var c := CalleeCtx(s, m);
            Matches(c, n, st, Exec(fuel, s.body, st.store), RunAll(fuel, Wrapped(c, Lower(s.body, c, n)), st), true)
    decreases fuel, s, 6
  {
    var c, body := CalleeCtx(s, m), s.body;
    var o := Exec(fuel, body, st.store);
    var b := Lower(body, c, n);
    OutcomeFits(fuel, body, st.store, false, false);
    if c.tail {
      if CountReturns(body) == 0 {
        StmtMatches(fuel, body, c, n, st, false, false);
      } else {
        TailMatches(fuel, body.stmts, c, n, st);
      }
    } else {
      StmtMatches(fuel, body, c, n, st, false, false);
      RunOne(fuel, Wrapped(c, b)[0], st);
      RunAppend(fuel, b, [Leave], st);
      if o.Normal? {
        RunOne(fuel, Leave, RunAll(fuel, b, st).st);
      }
    }
  }

  /** The declarations of a call leave its flag down and touch no older slot. */
  lemma {:induction false} DeclarationsRun(fuel: nat, s: Stmt, m: nat, st: State)
    requires s.Call?
    ensures var r := RunAll(fuel, Declarations(s, m), st);
            r.Went? && r.st.store == st.store && SameBelow(m, st, r.st) &&
            Ready(CalleeCtx(s, m), m + Len(Declarations(s, m)), r.st)
  {
    var c := CalleeCtx(s, m);
    var a: seq<Code> := if s.nonVoid then [Slot] else [];
    var b: seq<Code> := if HasFlag(c) then [Slot, SetFlag(c.returned.value, false)] else [];
    FlatAppend(a, b);
    RunAppend(fuel, a, b, st);
    if s.nonVoid { RunOne(fuel, Slot, st); }
    assert RunAll(fuel, a, st) == Went(st);
    if HasFlag(c) {
      RunOne(fuel, b[1], st);
      assert b[1..] == [b[1]];
      assert FlatAll(b) == Flat(b[0]) + FlatAll(b[1..]);
    }
  }

  /** After the body: write back the out arguments, hand over the result. */
  lemma {:induction false} FinishMatches(fuel: nat, s: Stmt, m: nat, k: nat, before: State, n: nat, st: State, o: Outcome, r: Effect, c: Ctx)
    requires s.Call? && n <= m <= k && SameBelow(m, before, st)
    requires Matches(CalleeCtx(s, m), k, st, o, r, true) && (o.Normal? || o.Returned?)
    ensures Matches(c, n, before, Finished(s, o), RunAll(fuel, [Step(s.copyOut), UseResult(CalleeCtx(s, m).result, s.use)], r.st), false)
  {
    var tail := [Step(s.copyOut), UseResult(CalleeCtx(s, m).result, s.use)];
    assert tail[1..] == [tail[1]];
    var mid := r.st.(store := s.copyOut(r.st.store));
    assert Run(fuel, tail[0], r.st) == Went(mid);
    RunOne(fuel, tail[1], mid);
  }

  lemma {:induction false} CallMatches(fuel: nat, s: Stmt, c: Ctx, n: nat, st: State)
    requires s.Call? && AreExprs(s.args) && Enclosed(s.body, false, false) && Ready(c, n, st)
    ensures Matches(c, n, st, Exec(fuel, s, st.store), RunAll(fuel, Lower(s, c, n), st), false)
    decreases fuel, s, 8
  {
    ExprsMatch(fuel, s.args, c, n, st);
    var a := LowerAll(s.args, c, n);
    var m := n + Len(a);
    var o := ExecAll(fuel, s.args, st.store);
    if o.Normal? {
      var r := RunAll(fuel, a, st).st;
      CalleeMatches(fuel, s, c, m, r);
    }
    Chain(fuel, c, n, m, st, a, CalleeCode(s, m), o, Exec(fuel, s, st.store), false);
  }

  lemma {:induction false} CalleeMatches(fuel: nat, s: Stmt, c: Ctx, m: nat, st: State)
    requires s.Call? && Enclosed(s.body, false, false)
    ensures Matches(c, m, st, Finished(s, Exec(fuel, s.body, st.store)), RunAll(fuel, CalleeCode(s, m), st), false)
    decreases fuel, s, 7
  {
    var inner := CalleeCtx(s, m);
    var k := BodyAt(s, m);
    var w := Wrapped(inner, Lower(s.body, inner, k));
    var tail := [Step(s.copyOut), UseResult(inner.result, s.use)];
    DeclarationsRun(fuel, s, m, st);
    var r := RunAll(fuel, Declarations(s, m), st).st;
    ReadyLater(inner, m + Len(Declarations(s, m)), r, k, r);
    BodyMatches(fuel, s, m, k, r);
    OutcomeFits(fuel, s.body, st.store, false, false);
    RunAppend(fuel, Declarations(s, m), w + tail, st);
    RunAppend(fuel, w, tail, r);
    var o := Exec(fuel, s.body, st.store);
    if o.Normal? || o.Returned? {
      FinishMatches(fuel, s, m, k, st, m, r, o, RunAll(fuel, w, r), c);
    }
  }
}
