/** Whole entry points: their instructions, executed one after the other by the step machine, do what
    the source does. */
module FlatMeaning {
  import opened Ir
  import opened ControlFlow
  import opened Machine
  import opened SourceRuns
  import opened LoweredRuns
  import opened Lowering
  import opened LoweredSafety
  import opened FullInlining
  import opened FlatRuns
  import opened FlatRefines

  /** p is what an entry point is lowered to. */
  ghost predicate Emits(p: Stream, body: Stmt, outputs: (Store, Option<Word>) -> Store) {
    Enclosed(body, false, false) && Means(p) && p.ts == FlatAll(LowerEntry(body, outputs, 0))
  }

  function Start(st: LoweredRuns.State): Config {
    Config(START, st)
  }

  /** The run from a executes a return (a discard) with the variables in `store`, and halts. */
  ghost predicate EndsIn(p: Stream, a: Config, c: Code, store: Store)
    requires |p.insts| == |p.ts|
  {
    exists b: Config, n: nat ::
      StopsAt(p, c, b.st, b) && b.st.store == store && Goes(p, a, b, n) && Goes(p, a, Config(Halted, b.st), n + 1)
  }

  ghost predicate RunsOn(p: Stream, a: Config)
    requires |p.insts| == |p.ts|
  {
    forall n: nat :: LastsFor(p, a, n)
  }

  ghost predicate LastsFor(p: Stream, a: Config, n: nat)
    requires |p.insts| == |p.ts|
  {
    exists b :: Goes(p, a, b, n)
  }

  /** What the source asks of the stream when it ends with o. */
  ghost predicate Realises(p: Stream, a: Config, outputs: (Store, Option<Word>) -> Store, o: Outcome)
    requires |p.insts| == |p.ts|
  {
    match o
    case Normal(s) => EndsIn(p, a, Exit, s)
    case Returned(s, v) => EndsIn(p, a, Exit, outputs(s, v))
    case Discarded(s) => EndsIn(p, a, Kill, s)
    case Undefined => true
    case _ => false
  }

  lemma {:induction false} EntryDoes(p: Stream, body: Stmt, outputs: (Store, Option<Word>) -> Store, st: LoweredRuns.State, fuel: nat)
    requires Emits(p, body, outputs)
    ensures Does(p, Start(st), Place([], |p.ts|, false, false), fuel, RunAll(fuel, LowerEntry(body, outputs, 0), st))
  {
    EntryNests(body, outputs);
    assert p.ts[0..|p.ts|] == p.ts;
    RowDoes(p, Start(st), 0, LowerEntry(body, outputs, 0), Place([], |p.ts|, false, false), fuel);
  }

  lemma {:induction false} Stopping(p: Stream, a: Config, b: Config, n: nat, c: Code)
    requires |p.insts| == |p.ts| && Goes(p, a, b, n) && StopsAt(p, c, b.st, b) && (c.Exit? || c.Kill?)
    ensures EndsIn(p, a, c, b.st.store)
  {
    var end := Config(Halted, b.st);
    OneMove(p, b, end);
    GoesOn(p, a, b, n, end, 1);
  }

  lemma {:induction false} EndIsRealised(p: Stream, body: Stmt, outputs: (Store, Option<Word>) -> Store, st: LoweredRuns.State, fuel: nat)
    requires Emits(p, body, outputs)
    ensures var o := Exec(fuel, body, st.store);
            if o.NoFuel? then LastsFor(p, Start(st), fuel) else Realises(p, Start(st), outputs, o)
  {
    EntryRun(fuel, body, outputs, 0, st);
    EntryDoes(p, body, outputs, st, fuel);
    var r := RunAll(fuel, LowerEntry(body, outputs, 0), st);
    var b: Config, n: nat :|
      Goes(p, Start(st), b, n) && Arrives(p, Place([], |p.ts|, false, false), r, b) && (r.Spent? ==> fuel <= n);
    match r
    case Exited(_) => Stopping(p, Start(st), b, n, Exit);
    case Killed(_) => Stopping(p, Start(st), b, n, Kill);
    case Spent => var c := GoesVia(p, Start(st), b, fuel, n - fuel);
    case _ =>
  }

  lemma {:induction false} HaltedIsLast(p: Stream, a: Config, st: LoweredRuns.State, n: nat)
    requires |p.insts| == |p.ts| && Goes(p, a, Config(Halted, st), n)
    ensures !LastsFor(p, a, n + 1)
  {
    if LastsFor(p, a, n + 1) {
      var b :| Goes(p, a, b, n + 1);
      var c := GoesVia(p, a, b, n, 1);
      RunsAreDeterministic(p, a, c, Config(Halted, st), n);
      assert false;
    }
  }

  lemma {:induction false} EndingIsNotForEver(p: Stream, a: Config, c: Code, store: Store)
    requires |p.insts| == |p.ts| && EndsIn(p, a, c, store)
    ensures !RunsOn(p, a)
  {
    var b: Config, n: nat :|
      StopsAt(p, c, b.st, b) && b.st.store == store && Goes(p, a, b, n) && Goes(p, a, Config(Halted, b.st), n + 1);
    HaltedIsLast(p, a, b.st, n + 1);
  }

  /** A stream ends in one way, with one store. */
  lemma {:induction false} StreamEndsOnce(p: Stream, a: Config, c: Code, c': Code, store: Store, store': Store)
    requires |p.insts| == |p.ts| && EndsIn(p, a, c, store) && EndsIn(p, a, c', store')
    ensures c == c' && store == store'
  {
    var b: Config, n: nat :|
      StopsAt(p, c, b.st, b) && b.st.store == store && Goes(p, a, b, n) && Goes(p, a, Config(Halted, b.st), n + 1);
    var b': Config, n': nat :|
      StopsAt(p, c', b'.st, b') && b'.st.store == store' && Goes(p, a, b', n') && Goes(p, a, Config(Halted, b'.st), n' + 1);
    if n < n' {
      HaltsFirst(p, a, b.st, n + 1, b', n');
    } else if n' < n {
      HaltsFirst(p, a, b'.st, n' + 1, b, n);
    } else {
      RunsAreDeterministic(p, a, b, b', n);
    }
  }

  lemma {:induction false} HaltsFirst(p: Stream, a: Config, st: LoweredRuns.State, m: nat, b: Config, n: nat)
    requires |p.insts| == |p.ts| && Goes(p, a, Config(Halted, st), m) && Goes(p, a, b, n) && m <= n
    ensures b == Config(Halted, st)
  {
    var c := GoesVia(p, a, b, m, n - m);
    RunsAreDeterministic(p, a, c, Config(Halted, st), m);
  }

  /** The stream ends as the source does: by a return or a discard, with the store the source leaves;
      and it runs for ever exactly when the source does. */
  lemma {:induction false} StreamKeepsMeaning(p: Stream, body: Stmt, outputs: (Store, Option<Word>) -> Store, st: LoweredRuns.State)
    requires Emits(p, body, outputs)
    ensures forall o :: Ends(body, st.store, o) ==> Realises(p, Start(st), outputs, o)
    ensures Diverges(body, st.store) ==> RunsOn(p, Start(st))
    ensures RunsOn(p, Start(st)) ==> Diverges(body, st.store) || Ends(body, st.store, Undefined)
  {
    forall o | Ends(body, st.store, o)
      ensures Realises(p, Start(st), outputs, o)
    {
      var fuel: nat :| Exec(fuel, body, st.store) == o;
      EndIsRealised(p, body, outputs, st, fuel);
    }
    if Diverges(body, st.store) {
      forall n: nat
        ensures LastsFor(p, Start(st), n)
      {
        EndIsRealised(p, body, outputs, st, n);
      }
    } else if RunsOn(p, Start(st)) {
      var fuel: nat :| !Exec(fuel, body, st.store).NoFuel?;
      var o := Exec(fuel, body, st.store);
      EndIsRealised(p, body, outputs, st, fuel);
      NotForEver(p, Start(st), outputs, o);
    }
  }

  lemma {:induction false} NotForEver(p: Stream, a: Config, outputs: (Store, Option<Word>) -> Store, o: Outcome)
    requires |p.insts| == |p.ts| && Realises(p, a, outputs, o) && RunsOn(p, a)
    ensures o.Undefined?
  {
    match o
    case Normal(s) => EndingIsNotForEver(p, a, Exit, s);
    case Returned(s, v) => EndingIsNotForEver(p, a, Exit, outputs(s, v));
    case Discarded(s) => EndingIsNotForEver(p, a, Kill, s);
    case _ =>
  }
}
