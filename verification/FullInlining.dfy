/** The whole of an entry point, every call inlined: what its lowered code does is what its
    source does, whether it ends or not. */
module FullInlining {
  import opened Ir
  import opened SourceRuns
  import opened SourceOutcomes
  import opened LoweredRuns
  import opened Lowering
  import opened EarlyReturns

  // ----- fuel is only a device -----

  /** A statement that ends with some fuel ends the same way with more. */
  lemma {:induction false} MoreFuel(fuel: nat, s: Stmt, st: Store)
    requires !Exec(fuel, s, st).NoFuel?
    ensures Exec(fuel + 1, s, st) == Exec(fuel, s, st)
    decreases fuel, s, 1
  {
    match s
    case Block(stmts) => MoreFuelAll(fuel, stmts, st);
    case If(pre, cond, yes, no) =>
      MoreFuelAll(fuel, pre, st);
      var o := ExecAll(fuel, pre, st);
      if o.Normal? {
        if cond(o.st) { MoreFuel(fuel, yes, o.st); } else if no.Some? { MoreFuel(fuel, no.value, o.st); }
      }
    case For(init, _, _, _, _) =>
      MoreFuelAll(fuel, init, st);
      var o := ExecAll(fuel, init, st);
      if o.Normal? { MoreFuelFor(fuel, s, o.st); }
    case Do(_, _, _) => MoreFuelDo(fuel, s, st);
    case Switch(pre, value, cases) =>
      MoreFuelAll(fuel, pre, st);
      var o := ExecAll(fuel, pre, st);
      if o.Normal? { MoreFuelCases(fuel, cases, Chosen(Tags(cases), value(o.st)), o.st); }
    case Return(pre, _) => MoreFuelAll(fuel, pre, st);
    case Call(args, body, _, _, _) =>
      MoreFuelAll(fuel, args, st);
      var o := ExecAll(fuel, args, st);
      if o.Normal? { MoreFuel(fuel, body, o.st); }
    case _ =>
  }

  lemma {:induction false} MoreFuelAll(fuel: nat, stmts: seq<Stmt>, st: Store)
    requires !ExecAll(fuel, stmts, st).NoFuel?
    ensures ExecAll(fuel + 1, stmts, st) == ExecAll(fuel, stmts, st)
    decreases fuel, stmts, 1
  {
    if stmts != [] {
      MoreFuel(fuel, stmts[0], st);
      var o := Exec(fuel, stmts[0], st);
      if o.Normal? { MoreFuelAll(fuel, stmts[1..], o.st); }
    }
  }

  lemma {:induction false} MoreFuelCases(fuel: nat, cases: seq<Case>, k: nat, st: Store)
    requires !ExecCases(fuel, cases, k, st).NoFuel?
    ensures ExecCases(fuel + 1, cases, k, st) == ExecCases(fuel, cases, k, st)
    decreases fuel, cases, 1
  {
    if cases == [] {
    } else if k > 0 {
      MoreFuelCases(fuel, cases[1..], k - 1, st);
    } else {
      MoreFuelAll(fuel, cases[0].body, st);
      var o := ExecAll(fuel, cases[0].body, st);
      if o.Normal? { MoreFuelCases(fuel, cases[1..], 0, o.st); }
    }
  }

  lemma {:induction false} MoreFuelFor(fuel: nat, s: Stmt, st: Store)
    requires s.For? && !ExecFor(fuel, s, st).NoFuel?
    ensures ExecFor(fuel + 1, s, st) == ExecFor(fuel, s, st)
    decreases fuel, s, 0
  {
    MoreFuelAll(fuel, s.pre, st);
    var o := ExecAll(fuel, s.pre, st);
    if o.Normal? && (s.test.None? || s.test.value(o.st)) {
      MoreFuel(fuel, s.body, o.st);
      var p := Exec(fuel, s.body, o.st);
      if p.Normal? || p.Continued? {
        MoreFuelAll(fuel, s.inc, p.st);
        var q := ExecAll(fuel, s.inc, p.st);
        if q.Normal? && fuel > 0 { MoreFuelFor(fuel - 1, s, q.st); }
        assert ForAgain(fuel + 1, s, p.st) == ForAgain(fuel, s, p.st);
      }
    }
  }

  lemma {:induction false} MoreFuelDo(fuel: nat, s: Stmt, st: Store)
    requires s.Do? && !ExecDo(fuel, s, st).NoFuel?
    ensures ExecDo(fuel + 1, s, st) == ExecDo(fuel, s, st)
    decreases fuel, s, 0
  {
    MoreFuel(fuel, s.body, st);
    var p := Exec(fuel, s.body, st);
    if p.Normal? || p.Continued? {
      MoreFuelAll(fuel, s.pre, p.st);
      var q := ExecAll(fuel, s.pre, p.st);
      if q.Normal? && s.cond(q.st) && fuel > 0 { MoreFuelDo(fuel - 1, s, q.st); }
      assert DoAgain(fuel + 1, s, p.st) == DoAgain(fuel, s, p.st);
    }
  }

  lemma {:induction false} MuchMoreFuel(fuel: nat, more: nat, s: Stmt, st: Store)
    requires !Exec(fuel, s, st).NoFuel? && fuel <= more
    ensures Exec(more, s, st) == Exec(fuel, s, st)
    decreases more
  {
    if fuel < more {
      MuchMoreFuel(fuel, more - 1, s, st);
      MoreFuel(more - 1, s, st);
    }
  }

  /** So a statement has one meaning: it ends with one outcome, or it runs for ever. */
  ghost predicate Ends(s: Stmt, st: Store, o: Outcome) {
    o != NoFuel && exists fuel: nat :: Exec(fuel, s, st) == o
  }

  ghost predicate Diverges(s: Stmt, st: Store) {
    forall fuel: nat :: Exec(fuel, s, st).NoFuel?
  }

  lemma {:induction false} OneMeaning(s: Stmt, st: Store, o: Outcome, p: Outcome)
    requires Ends(s, st, o) && Ends(s, st, p)
    ensures o == p && !Diverges(s, st)
  {
    var f: nat :| Exec(f, s, st) == o;
    var g: nat :| Exec(g, s, st) == p;
    MuchMoreFuel(f, if f < g then g else f, s, st);
    MuchMoreFuel(g, if f < g then g else f, s, st);
  }

  ghost predicate CodeEnds(code: seq<Code>, st: State, r: Effect) {
    r != Spent && exists fuel: nat :: RunAll(fuel, code, st) == r
  }

  ghost predicate CodeDiverges(code: seq<Code>, st: State) {
    forall fuel: nat :: RunAll(fuel, code, st).Spent?
  }

  // ----- entry points -----

  /** What the outputs must be once the source has ended with o. */
  ghost predicate EntryEnds(outputs: (Store, Option<Word>) -> Store, o: Outcome, r: Effect) {
    match o
    case Normal(s) => r.Exited? && r.st.store == s
    case Returned(s, v) => r.Exited? && r.st.store == outputs(s, v)
    case Discarded(s) => r.Killed? && r.st.store == s
    case NoFuel => r.Spent?
    case Undefined => true
    case _ => false       // nothing is left to break out of
  }

  lemma {:induction false} EntryRun(fuel: nat, body: Stmt, outputs: (Store, Option<Word>) -> Store, n: nat, st: State)
    requires Enclosed(body, false, false)
    ensures EntryEnds(outputs, Exec(fuel, body, st.store), RunAll(fuel, LowerEntry(body, outputs, n), st))
  {
    var c := Entry(outputs);
    var code := Lower(body, c, n);
    StmtMatches(fuel, body, c, n, st, false, false);
    OutcomeFits(fuel, body, st.store, false, false);
    var r := RunAll(fuel, code, st);
    if code != [] && code[|code| - 1].Exit? {
      var front := code[..|code| - 1];
      assert code == front + [Exit];
      RunAppend(fuel, front, [Exit], st);
      if RunAll(fuel, front, st).Went? {
        RunOne(fuel, Exit, RunAll(fuel, front, st).st);
      }
    } else {
      RunAppend(fuel, code, [Exit], st);
      if r.Went? {
        RunOne(fuel, Exit, r.st);
      }
    }
  }

  /** An entry point that ends leaves the store its source leaves; one that runs for ever is
      lowered to code that does. */
  lemma {:induction false} EntryKeepsMeaning(body: Stmt, outputs: (Store, Option<Word>) -> Store, n: nat, st: State)
    requires Enclosed(body, false, false)
    ensures var code := LowerEntry(body, outputs, n);
            && (forall o :: Ends(body, st.store, o) && !o.Undefined? ==>
                  exists r :: CodeEnds(code, st, r) && EntryEnds(outputs, o, r))
            && (Diverges(body, st.store) ==> CodeDiverges(code, st))
            && (CodeDiverges(code, st) ==> Diverges(body, st.store) || Ends(body, st.store, Undefined))
  {
    var code := LowerEntry(body, outputs, n);
    forall o | Ends(body, st.store, o) && !o.Undefined?
      ensures exists r :: CodeEnds(code, st, r) && EntryEnds(outputs, o, r)
    {
      var fuel: nat :| Exec(fuel, body, st.store) == o;
      EntryRun(fuel, body, outputs, n, st);
      assert CodeEnds(code, st, RunAll(fuel, code, st));
    }
    forall fuel: nat
      ensures EntryEnds(outputs, Exec(fuel, body, st.store), RunAll(fuel, code, st))
    {
      EntryRun(fuel, body, outputs, n, st);
    }
    if CodeDiverges(code, st) && !Diverges(body, st.store) {
      var fuel: nat :| !Exec(fuel, body, st.store).NoFuel?;
      assert RunAll(fuel, code, st).Spent?;
      assert Ends(body, st.store, Exec(fuel, body, st.store));
    }
  }

  /** One inlined call, from its declarations to the use of its result, wherever it stands:
      control falls off its end with the store and the value the call has in the source, and no
      older slot has changed. */
  lemma {:induction false} CallKeepsMeaning(fuel: nat, call: Stmt, m: nat, st: State)
    requires call.Call? && Enclosed(call.body, false, false)
    ensures var o := Exec(fuel, call.body, st.store);
            var r := RunAll(fuel, CalleeCode(call, m), st);
            && (o.Normal? && !call.nonVoid ==>
                  r.Went? && r.st.store == call.use(call.copyOut(o.st), None) && SameBelow(m, st, r.st))
            && (o.Returned? && (call.nonVoid ==> o.value.Some?) ==>
                  r.Went? && SameBelow(m, st, r.st) &&
                  r.st.store == call.use(call.copyOut(o.st), if call.nonVoid then o.value else None))
            && (o.Discarded? ==> r.Killed? && r.st.store == o.st)
            && (o.NoFuel? ==> r.Spent?)
  {
    CalleeMatches(fuel, call, Entry((s, v) => s), m, st);
  }
}
