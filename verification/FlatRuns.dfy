/** Runs of the emitted stream with its data: the step machine over the markers, each choice settled by
    the store as the instruction's token says. */
module FlatRuns {
  import opened Ir
  import opened ControlFlow
  import opened Verifier
  import opened Machine
  import opened SourceRuns
  import opened LoweredRuns
  import opened LoweredMarkers

  /** A function's instructions, and what each of them means. */
  datatype Stream = Stream(insts: seq<Inst>, ts: seq<Token>)

  /** Position in the step machine, and the variables. */
  datatype Config = Config(at: Machine.State, st: LoweredRuns.State)

  // A back edge has a condition exactly when its token has.
  predicate MeansAt(p: Stream, i: nat)
    requires i < |p.insts| == |p.ts|
  {
    Writes(p.ts[i], p.insts[i].op) && (p.ts[i].TEndLoop? ==> (p.ts[i].again.Some? <==> p.insts[i].args[0] != NONE))
  }

  ghost predicate Means(p: Stream) {
    |p.insts| == |p.ts| && forall i: nat {:trigger MeansAt(p, i)} :: i < |p.insts| ==> MeansAt(p, i)
  }

  // ----- one move -----

  /** How many later arms of construct c start before position m. */
  function Sections(insts: seq<Inst>, c: nat, m: nat): nat
    requires m <= |insts|
  {
    if m == 0 then 0
    else Sections(insts, c, m - 1) + if Belongs(insts, m - 1, c) && Splits(insts[m - 1].op) then 1 else 0
  }

  /** Marker m starts the k-th later arm of c. */
  predicate IsNth(insts: seq<Inst>, c: nat, k: nat, m: nat) {
    m < |insts| && Belongs(insts, m, c) && Splits(insts[m].op) && Sections(insts, c, m) == k
  }

  ghost predicate EntersNth(insts: seq<Inst>, c: nat, k: nat, t: Machine.State) {
    exists m: nat :: IsNth(insts, c, k, m) && Enters(m, t)
  }

  /** The continue section of loop c, or its end if it has none. */
  ghost predicate ContinuesTo(insts: seq<Inst>, c: nat, t: Machine.State) {
    if HasLaterArm(insts, c) then EntersNth(insts, c, 0, t) else ReachesEnd(insts, c, t)
  }

  /** The innermost construct of a stack that a break (a continue) leaves. */
  ghost predicate Innermost(insts: seq<Inst>, st: seq<Frame>, only: bool, c: nat) {
    exists d: nat :: InnermostAt(insts, st, only, d) && st[d].construct == c
  }

  predicate InnermostAt(insts: seq<Inst>, st: seq<Frame>, only: bool, d: nat) {
    && d < |st| && st[d].construct < |insts| && Target(insts[st[d].construct].op, only)
    && forall e :: d < e < |st| && st[e].construct < |insts| ==> !Target(insts[st[e].construct].op, only)
  }

  /** A break, or a continue, from under these constructs leads to t. */
  ghost predicate JumpsTo(insts: seq<Inst>, st: seq<Frame>, only: bool, t: Machine.State) {
    exists c: nat :: Innermost(insts, st, only, c) && if only then ContinuesTo(insts, c, t) else Leaves(insts, c, t)
  }

  /** What the instruction does to the variables. */
  function After(t: Token, st: LoweredRuns.State): LoweredRuns.State {
    match t
    case Plain(c) =>
      (match Run(0, c, st)
       case Went(s) => s
       case _ => st)
    case _ => st
  }

  /** Whether the back edge is taken. */
  predicate Repeats(again: Option<Store -> bool>, st: LoweredRuns.State) {
    again.None? || again.value(st.store)
  }

  ghost predicate MovesTo(p: Stream, i: nat, st: LoweredRuns.State, t: Machine.State)
    requires i < |p.insts| == |p.ts|
  {
    var open := StackAt(p.insts, i);
    match p.ts[i]
    case TIf(cond) =>
      if Test(cond, st) then Enters(i, t)
      else if HasLaterArm(p.insts, i) then EntersNth(p.insts, i, 0, t)
      else Leaves(p.insts, i, t)
    case TSwitch(key, tags) =>
      var k := Chosen(tags, key(st.store));
      if k < |tags| then EntersNth(p.insts, i, k, t) else Leaves(p.insts, i, t)
    case TElse => open != [] && Leaves(p.insts, Last(open).construct, t)
    case TLoop | TLoopContinue | TCase(_) => Enters(i, t)
    case TEndLoop(again) =>
      open != [] && if Repeats(again, st) then Enters(Last(open).construct, t) else t == Running(i + 1, None)
    case TEndIf | TEndSwitch => t == Running(i + 1, None)
    case Plain(c) => MovesPlain(p.insts, i, c, t)
  }

  ghost predicate MovesPlain(insts: seq<Inst>, i: nat, c: Code, t: Machine.State)
    requires i < |insts|
  {
    match c
    case Leave => JumpsTo(insts, StackAt(insts, i), false, t)
    case Next => JumpsTo(insts, StackAt(insts, i), true, t)
    case Exit => t == Halted
    case Kill => t == Halted
    case _ => t == Running(i + 1, None)
  }

  ghost predicate Move(p: Stream, a: Config, b: Config)
    requires |p.insts| == |p.ts|
  {
    && a.at.Running? && a.at.pc < |p.insts|
    && b.st == After(p.ts[a.at.pc], a.st) && MovesTo(p, a.at.pc, a.st, b.at)
  }

  // ----- moves are steps of the machine -----

  lemma {:induction false} NthIsLater(insts: seq<Inst>, c: nat, k: nat, t: Machine.State)
    requires EntersNth(insts, c, k, t)
    ensures EntersLaterArm(insts, c, t) && HasLaterArm(insts, c)
  {
  }

  lemma {:induction false} JumpIsStep(insts: seq<Inst>, i: nat, t: Machine.State)
    requires i < |insts| && (insts[i].op.Break? || insts[i].op.Continue?)
    requires JumpsTo(insts, StackAt(insts, i), insts[i].op.Continue?, t)
    ensures StepFrom(insts, i, t)
  {
    var only := insts[i].op.Continue?;
    var c: nat :| Innermost(insts, StackAt(insts, i), only, c) && if only then ContinuesTo(insts, c, t) else Leaves(insts, c, t);
    InnermostIsTarget(insts, i, only, c);
    if only {
      ContinuesToIs(insts, c, t);
      ContinueIsStep(insts, i, c, t);
    } else {
      BreakIsStep(insts, i, c, t);
    }
  }

  lemma {:induction false} ContinueIsStep(insts: seq<Inst>, i: nat, c: nat, t: Machine.State)
    requires i < |insts| && insts[i].op.Continue? && IsTarget(insts, i, c, true) && ContinuesAt(insts, c, t)
    ensures StepFrom(insts, i, t)
  {
  }

  lemma {:induction false} BreakIsStep(insts: seq<Inst>, i: nat, c: nat, t: Machine.State)
    requires i < |insts| && insts[i].op.Break? && IsTarget(insts, i, c, false) && Leaves(insts, c, t)
    ensures StepFrom(insts, i, t)
  {
  }

  lemma {:induction false} InnermostIsTarget(insts: seq<Inst>, i: nat, only: bool, c: nat)
    requires i < |insts| && Innermost(insts, StackAt(insts, i), only, c)
    ensures IsTarget(insts, i, c, only)
  {
    var d: nat :| InnermostAt(insts, StackAt(insts, i), only, d) && StackAt(insts, i)[d].construct == c;
    assert TargetDepth(insts, i, d, only);
  }

  lemma {:induction false} ContinuesToIs(insts: seq<Inst>, c: nat, t: Machine.State)
    requires ContinuesTo(insts, c, t)
    ensures ContinuesAt(insts, c, t)
  {
    if HasLaterArm(insts, c) {
      NthIsLater(insts, c, 0, t);
    }
  }

  /** Every move of the stream is a step of the machine. */
  lemma {:induction false} MoveIsStep(p: Stream, a: Config, b: Config)
    requires Means(p) && Move(p, a, b)
    ensures Machine.Step(p.insts, a.at, b.at)
  {
    var i := a.at.pc;
    assert MeansAt(p, i);
    match p.ts[i]
    case Plain(c) => PlainIsStep(p.insts, i, c, b.at);
    case TIf(_) => LaterIsStep(p.insts, i, 0, b.at);
    case TSwitch(key, tags) => LaterIsStep(p.insts, i, Chosen(tags, key(a.st.store)), b.at);
    case _ => MarkerIsStep(p, i, a.st, b.at);
  }

  lemma {:induction false} LaterIsStep(insts: seq<Inst>, i: nat, k: nat, t: Machine.State)
    requires i < |insts| && (insts[i].op.If? || insts[i].op.Switch?)
    ensures EntersNth(insts, i, k, t) ==> HasLaterArm(insts, i) && EntersLaterArm(insts, i, t) && StepFrom(insts, i, t)
  {
    if EntersNth(insts, i, k, t) {
      NthIsLater(insts, i, k, t);
    }
  }

  lemma {:induction false} MarkerIsStep(p: Stream, i: nat, st: LoweredRuns.State, t: Machine.State)
    requires i < |p.insts| == |p.ts| && MeansAt(p, i) && MovesTo(p, i, st, t)
    requires !p.ts[i].Plain? && !p.ts[i].TIf? && !p.ts[i].TSwitch?
    ensures StepFrom(p.insts, i, t)
  {
  }

  lemma {:induction false} PlainIsStep(insts: seq<Inst>, i: nat, c: Code, t: Machine.State)
    requires i < |insts| && Writes(Plain(c), insts[i].op) && MovesPlain(insts, i, c, t)
    ensures StepFrom(insts, i, t)
  {
    if c.Leave? || c.Next? {
      JumpIsStep(insts, i, t);
    }
  }

  // ----- and leave no choice -----

  lemma {:induction false} SectionsGrow(insts: seq<Inst>, c: nat, m: nat, n: nat)
    requires m <= n <= |insts|
    ensures Sections(insts, c, m) <= Sections(insts, c, n)
    decreases n
  {
    if m < n {
      SectionsGrow(insts, c, m, n - 1);
      SectionsAfter(insts, c, n - 1);
    }
  }

  lemma {:induction false} SectionsAfter(insts: seq<Inst>, c: nat, m: nat)
    requires m < |insts|
    ensures Sections(insts, c, m) <= Sections(insts, c, m + 1)
    ensures Belongs(insts, m, c) && Splits(insts[m].op) ==> Sections(insts, c, m) < Sections(insts, c, m + 1)
  {
  }

  lemma {:induction false} OneNth(insts: seq<Inst>, c: nat, k: nat, m: nat, n: nat)
    requires IsNth(insts, c, k, m) && IsNth(insts, c, k, n)
    ensures m == n
  {
    if m < n {
      NthIsBefore(insts, c, k, m, n);
    } else if n < m {
      NthIsBefore(insts, c, k, n, m);
    }
  }

  lemma {:induction false} NthIsBefore(insts: seq<Inst>, c: nat, k: nat, m: nat, n: nat)
    requires IsNth(insts, c, k, m) && m < n <= |insts|
    ensures k < Sections(insts, c, n)
  {
    SectionsAfter(insts, c, m);
    SectionsGrow(insts, c, m + 1, n);
  }

  lemma {:induction false} NthIsOne(insts: seq<Inst>, c: nat, k: nat, t: Machine.State, u: Machine.State)
    requires EntersNth(insts, c, k, t) && EntersNth(insts, c, k, u)
    ensures t == u
  {
    var m: nat :| IsNth(insts, c, k, m) && Enters(m, t);
    var n: nat :| IsNth(insts, c, k, n) && Enters(n, u);
    OneNth(insts, c, k, m, n);
  }

  lemma {:induction false} LeavingIsOne(insts: seq<Inst>, c: nat, t: Machine.State, u: Machine.State)
    requires Leaves(insts, c, t) && Leaves(insts, c, u)
    ensures t == u
  {
    var m: nat :| IsEnd(insts, m, c) && t == Running(m + 1, None);
    var n: nat :| IsEnd(insts, n, c) && u == Running(n + 1, None);
    ConstructEndsOnce(insts, c, m, n);
  }

  lemma {:induction false} ContinuingIsOne(insts: seq<Inst>, c: nat, t: Machine.State, u: Machine.State)
    requires ContinuesTo(insts, c, t) && ContinuesTo(insts, c, u)
    ensures t == u
  {
    if HasLaterArm(insts, c) {
      NthIsOne(insts, c, 0, t, u);
    } else {
      var m: nat :| IsEnd(insts, m, c) && t == Running(m, None);
      var n: nat :| IsEnd(insts, n, c) && u == Running(n, None);
      ConstructEndsOnce(insts, c, m, n);
    }
  }

  lemma {:induction false} InnermostIsOne(insts: seq<Inst>, st: seq<Frame>, only: bool, c: nat, c': nat)
    requires Innermost(insts, st, only, c) && Innermost(insts, st, only, c')
    ensures c == c'
  {
  }

  lemma {:induction false} JumpIsOne(insts: seq<Inst>, st: seq<Frame>, only: bool, t: Machine.State, u: Machine.State)
    requires JumpsTo(insts, st, only, t) && JumpsTo(insts, st, only, u)
    ensures t == u
  {
    var c: nat :| Innermost(insts, st, only, c) && if only then ContinuesTo(insts, c, t) else Leaves(insts, c, t);
    var c': nat :| Innermost(insts, st, only, c') && if only then ContinuesTo(insts, c', u) else Leaves(insts, c', u);
    InnermostIsOne(insts, st, only, c, c');
    if only {
      ContinuingIsOne(insts, c, t, u);
    } else {
      LeavingIsOne(insts, c, t, u);
    }
  }

  /** From one configuration there is at most one move. */
  lemma {:induction false} MovesAreDeterministic(p: Stream, a: Config, b: Config, b': Config)
    requires |p.insts| == |p.ts| && Move(p, a, b) && Move(p, a, b')
    ensures b == b'
  {
    var i, t, u := a.at.pc, b.at, b'.at;
    match p.ts[i]
    case Plain(c) =>
      if c.Leave? || c.Next? { JumpIsOne(p.insts, StackAt(p.insts, i), c.Next?, t, u); }
    case TIf(cond) =>
      if !Test(cond, a.st) { LaterOrOut(p.insts, i, 0, HasLaterArm(p.insts, i), t, u); }
    case TSwitch(key, tags) =>
      var k := Chosen(tags, key(a.st.store));
      LaterOrOut(p.insts, i, k, k < |tags|, t, u);
    case TElse => LeavingIsOne(p.insts, Last(StackAt(p.insts, i)).construct, t, u);
    case _ =>
  }

  lemma {:induction false} LaterOrOut(insts: seq<Inst>, c: nat, k: nat, later: bool, t: Machine.State, u: Machine.State)
    requires if later then EntersNth(insts, c, k, t) && EntersNth(insts, c, k, u) else Leaves(insts, c, t) && Leaves(insts, c, u)
    ensures t == u
  {
    if later {
      NthIsOne(insts, c, k, t, u);
    } else {
      LeavingIsOne(insts, c, t, u);
    }
  }

  // ----- runs -----

  /** b is n moves behind a. */
  ghost predicate Goes(p: Stream, a: Config, b: Config, n: nat)
    requires |p.insts| == |p.ts|
    decreases n
  {
    if n == 0 then a == b else exists c :: Move(p, a, c) && Goes(p, c, b, n - 1)
  }

  lemma {:induction false} MoveGoes(p: Stream, a: Config, x: Config, b: Config, n: nat)
    requires |p.insts| == |p.ts| && Move(p, a, x) && Goes(p, x, b, n)
    ensures Goes(p, a, b, n + 1)
  {
  }

  lemma {:induction false} GoesOn(p: Stream, a: Config, b: Config, m: nat, c: Config, n: nat)
    requires |p.insts| == |p.ts| && Goes(p, a, b, m) && Goes(p, b, c, n)
    ensures Goes(p, a, c, m + n)
    decreases m
  {
    if m > 0 {
      var x :| Move(p, a, x) && Goes(p, x, b, m - 1);
      GoesOn(p, x, b, m - 1, c, n);
      MoveGoes(p, a, x, c, m - 1 + n);
    }
  }

  lemma {:induction false} OneMove(p: Stream, a: Config, b: Config)
    requires |p.insts| == |p.ts| && Move(p, a, b)
    ensures Goes(p, a, b, 1)
  {
    assert Goes(p, b, b, 0);
  }

  /** Where n moves lead is determined. */
  lemma {:induction false} RunsAreDeterministic(p: Stream, a: Config, b: Config, b': Config, n: nat)
    requires |p.insts| == |p.ts| && Goes(p, a, b, n) && Goes(p, a, b', n)
    ensures b == b'
    decreases n
  {
    if n > 0 {
      var c :| Move(p, a, c) && Goes(p, c, b, n - 1);
      var c' :| Move(p, a, c') && Goes(p, c', b', n - 1);
      MovesAreDeterministic(p, a, c, c');
      RunsAreDeterministic(p, c, b, b', n - 1);
    }
  }

  lemma {:induction false} FirstMove(p: Stream, a: Config, b: Config, n: nat) returns (x: Config)
    requires |p.insts| == |p.ts| && n > 0 && Goes(p, a, b, n)
    ensures Move(p, a, x) && Goes(p, x, b, n - 1)
  {
    x :| Move(p, a, x) && Goes(p, x, b, n - 1);
  }

  lemma {:induction false} GoesVia(p: Stream, a: Config, b: Config, m: nat, n: nat) returns (c: Config)
    requires |p.insts| == |p.ts| && Goes(p, a, b, m + n)
    ensures Goes(p, a, c, m) && Goes(p, c, b, n)
    decreases m
  {
    c := a;
    if m > 0 {
      var x := FirstMove(p, a, b, m + n);
      c := GoesVia(p, x, b, m - 1, n);
      MoveGoes(p, a, x, c, m - 1);
    }
  }

  /** The positions of a run of the stream are a run of the machine. */
  lemma {:induction false} GoesIsRun(p: Stream, past: seq<Machine.State>, a: Config, b: Config, n: nat) returns (run: seq<Machine.State>)
    requires Means(p) && IsRun(p.insts, past) && Last(past) == a.at && Goes(p, a, b, n)
    ensures IsRun(p.insts, run) && Last(run) == b.at && |run| == |past| + n
    decreases n
  {
    run := past;
    if n > 0 {
      var c :| Move(p, a, c) && Goes(p, c, b, n - 1);
      MoveIsStep(p, a, c);
      RunGrows(p.insts, past, c.at);
      run := GoesIsRun(p, past + [c.at], c, b, n - 1);
    }
  }

  lemma {:induction false} RunGrows(insts: seq<Inst>, run: seq<Machine.State>, t: Machine.State)
    requires IsRun(insts, run) && Machine.Step(insts, Last(run), t)
    ensures IsRun(insts, run + [t])
  {
    var next := run + [t];
    forall n | 0 <= n < |next| - 1
      ensures Machine.Step(insts, next[n], next[n + 1])
    {
      if n < |run| - 1 {
        assert Machine.Step(insts, run[n], run[n + 1]);
      }
    }
  }
}
