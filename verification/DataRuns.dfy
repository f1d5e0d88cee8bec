/** Runs with their values and memory: the step machine, with each instruction doing what it means
    and each condition deciding. */
module DataRuns {
  import opened Ir
  import opened ControlFlow
  import opened Verifier
  import opened Machine
  import opened SameShape
  import opened Semantics

  /** A program to run: instruction by instruction its list, the name its value goes by, and where its
      variable lives; and the name that stands for an operand. */
  datatype Stream = Stream(insts: seq<Inst>, lists: seq<seq<nat>>, names: seq<nat>, homes: seq<Value>, sees: nat -> nat) {
    predicate Sized() {
      |lists| == |names| == |homes| == |insts| && forall p, q :: 0 <= p < q < |names| ==> names[p] != names[q]
    }
  }

  datatype Config = Config(at: State, values: map<nat, Value>, memory: Memory)

  ghost function Look(w: World, values: map<nat, Value>, name: nat): Value {
    if name in values then values[name] else w.unset
  }

  ghost function Getting(w: World, s: Stream, values: map<nat, Value>): nat -> Value {
    (x: nat) => Look(w, values, s.sees(x))
  }

  // ----- where control goes -----

  /** Marker m starts the case of the switch at c that a literal of these selects. */
  predicate Selected(insts: seq<Inst>, c: nat, m: nat, key: nat, literals: seq<nat>) {
    Belongs(insts, m, c) && insts[m].op.Case? && insts[m].args[1] == 0 &&
    insts[m].args[0] < |literals| && literals[insts[m].args[0]] == key
  }

  ghost predicate AnySelected(insts: seq<Inst>, c: nat, key: nat, literals: seq<nat>) {
    exists m: nat :: Selected(insts, c, m, key, literals)
  }

  predicate IsDefault(insts: seq<Inst>, c: nat, m: nat) {
    Belongs(insts, m, c) && insts[m].op.Case? && insts[m].args[1] != 0
  }

  ghost predicate AnyDefault(insts: seq<Inst>, c: nat) {
    exists m: nat :: IsDefault(insts, c, m)
  }

  ghost predicate GoesToCase(insts: seq<Inst>, c: nat, key: nat, literals: seq<nat>, t: State) {
    if AnySelected(insts, c, key, literals) then exists m: nat :: Selected(insts, c, m, key, literals) && Enters(m, t)
    else if AnyDefault(insts, c) then exists m: nat :: IsDefault(insts, c, m) && Enters(m, t)
    else Leaves(insts, c, t)
  }

  /** The step to t is the one the choice asks for. */
  ghost predicate Obeys(insts: seq<Inst>, i: nat, choice: Choice, t: State)
    requires i < |insts|
  {
    match choice
    case Onward => true
    case Test(holds) => if insts[i].op.If? then holds <==> Enters(i, t) else holds <==> t != Running(i + 1, None)
    case Match(key, literals) => GoesToCase(insts, i, key, literals, t)
  }

  lemma {:induction false} SelectedAlike(f: seq<Inst>, g: seq<Inst>, c: nat, m: nat, key: nat, literals: seq<nat>)
    requires Alike(f, g) && Selected(f, c, m, key, literals)
    ensures Selected(g, c, m, key, literals)
  {
    BelongsAlike(f, g, m, c);
  }

  lemma {:induction false} DefaultAlike(f: seq<Inst>, g: seq<Inst>, c: nat, m: nat)
    requires Alike(f, g) && IsDefault(f, c, m)
    ensures IsDefault(g, c, m)
  {
    BelongsAlike(f, g, m, c);
  }

  lemma {:induction false} AnyAlike(f: seq<Inst>, g: seq<Inst>, c: nat, key: nat, literals: seq<nat>)
    requires Alike(f, g)
    ensures AnySelected(f, c, key, literals) ==> AnySelected(g, c, key, literals)
    ensures AnyDefault(f, c) ==> AnyDefault(g, c)
  {
    if AnySelected(f, c, key, literals) {
      var m: nat :| Selected(f, c, m, key, literals);
      SelectedAlike(f, g, c, m, key, literals);
    }
    if AnyDefault(f, c) {
      var m: nat :| IsDefault(f, c, m);
      DefaultAlike(f, g, c, m);
    }
  }

  lemma {:induction false} CaseAlike(f: seq<Inst>, g: seq<Inst>, c: nat, key: nat, literals: seq<nat>, t: State)
    requires Alike(f, g) && GoesToCase(f, c, key, literals, t)
    ensures GoesToCase(g, c, key, literals, t)
  {
    Backwards(f, g);
    AnyAlike(f, g, c, key, literals);
    AnyAlike(g, f, c, key, literals);
    if AnySelected(f, c, key, literals) {
      var m: nat :| Selected(f, c, m, key, literals) && Enters(m, t);
      SelectedAlike(f, g, c, m, key, literals);
    } else if AnyDefault(f, c) {
      var m: nat :| IsDefault(f, c, m) && Enters(m, t);
      DefaultAlike(f, g, c, m);
    } else {
      LeavesAlike(f, g, c, t);
    }
  }

  lemma {:induction false} ObeysAlike(f: seq<Inst>, g: seq<Inst>, i: nat, choice: Choice, t: State)
    requires Alike(f, g) && i < |f| && Obeys(f, i, choice, t)
    ensures Obeys(g, i, choice, t)
  {
    assert SameMarker(f[i], g[i]);
    if choice.Match? {
      CaseAlike(f, g, i, choice.key, choice.literals, t);
    }
  }

  // ----- one step -----

  /** What instruction p does, with these values for its operands. */
  ghost function Outcome(w: World, s: Stream, p: nat, get: nat -> Value, values: map<nat, Value>, m: Memory, at: State): Config
    requires s.Sized() && p < |s.insts|
  {
    var inst := s.insts[p];
    Config(at, if Yields(inst) then values[s.names[p] := ResultOf(w, inst, s.lists[p], s.homes[p], get, m)] else values,
           MemoryAfter(w, inst, s.lists[p], get, m))
  }

  ghost predicate DataStep(w: World, s: Stream, a: Config, b: Config)
    requires s.Sized()
  {
    Step(s.insts, a.at, b.at) && Does(w, s, a.at.pc, Getting(w, s, a.values), a, b)
  }

  ghost predicate Does(w: World, s: Stream, p: nat, get: nat -> Value, a: Config, b: Config)
    requires s.Sized() && p < |s.insts|
  {
    Obeys(s.insts, p, ChoiceOf(w, s.insts[p], s.lists[p], get), b.at) && b == Outcome(w, s, p, get, a.values, a.memory, b.at)
  }

  ghost predicate IsDataRun(w: World, s: Stream, run: seq<Config>)
    requires s.Sized()
  {
    run != [] && forall k {:trigger run[k]} :: 0 <= k < |run| - 1 ==> DataStep(w, s, run[k], run[k + 1])
  }

  // ----- the same program by other names -----

  /** The values that both know are the same. */
  ghost predicate SameValues(s: Stream, t: Stream, values: map<nat, Value>, values': map<nat, Value>)
    requires |s.names| == |t.names|
  {
    forall p: nat {:trigger SameValueAt(s, t, values, values', p)} :: p < |s.names| ==> SameValueAt(s, t, values, values', p)
  }

  ghost predicate SameValueAt(s: Stream, t: Stream, values: map<nat, Value>, values': map<nat, Value>, p: nat)
    requires p < |s.names| == |t.names|
  {
    && (s.names[p] in values <==> t.names[p] in values')
    && (s.names[p] in values ==> values[s.names[p]] == values'[t.names[p]])
  }

  ghost predicate SameConfig(s: Stream, t: Stream, a: Config, c: Config)
    requires |s.names| == |t.names|
  {
    a.at == c.at && a.memory == c.memory && SameValues(s, t, a.values, c.values)
  }

  /** x in the one and y in the other name the value computed at the same place. */
  ghost predicate SameName(s: Stream, t: Stream, x: nat, y: nat)
    requires |s.names| == |t.names|
  {
    exists q: nat :: NamedAt(s, t, x, y, q)
  }

  ghost predicate NamedAt(s: Stream, t: Stream, x: nat, y: nat, q: nat)
    requires |s.names| == |t.names|
  {
    q < |s.names| && s.names[q] == s.sees(x) && t.names[q] == t.sees(y)
  }

  ghost predicate ArgSame(s: Stream, t: Stream, p: nat, a: nat)
    requires s.Sized() && t.Sized() && p < |s.insts| == |t.insts| && a < 4
  {
    if a in ValueArgMask(s.insts[p]) then SameName(s, t, s.insts[p].args[a], t.insts[p].args[a])
    else s.insts[p].args[a] == t.insts[p].args[a]
  }

  ghost predicate EntrySame(s: Stream, t: Stream, p: nat, k: nat)
    requires s.Sized() && t.Sized() && p < |s.insts| == |t.insts| && k < |s.lists[p]| == |t.lists[p]|
  {
    if AuxHoldsValues(s.insts[p].op) then SameName(s, t, s.lists[p][k], t.lists[p][k]) else s.lists[p][k] == t.lists[p][k]
  }

  ghost predicate InstSame(s: Stream, t: Stream, p: nat)
    requires s.Sized() && t.Sized() && p < |s.insts| == |t.insts|
  {
    && s.insts[p].op == t.insts[p].op && s.insts[p].typ == t.insts[p].typ && s.homes[p] == t.homes[p]
    && SameMarker(s.insts[p], t.insts[p]) && |s.lists[p]| == |t.lists[p]|
    && (forall a: nat {:trigger ArgSame(s, t, p, a)} :: a < 4 ==> ArgSame(s, t, p, a))
    && (forall k: nat {:trigger EntrySame(s, t, p, k)} :: k < |s.lists[p]| ==> EntrySame(s, t, p, k))
  }

  ghost predicate SameProgram(s: Stream, t: Stream) {
    && s.Sized() && t.Sized() && |s.insts| == |t.insts|
    && forall p: nat {:trigger InstSame(s, t, p)} :: p < |s.insts| ==> InstSame(s, t, p)
  }

  lemma {:induction false} SameLook(w: World, s: Stream, t: Stream, a: map<nat, Value>, c: map<nat, Value>, x: nat, y: nat)
    requires |s.names| == |t.names| && SameValues(s, t, a, c) && SameName(s, t, x, y)
    ensures Getting(w, s, a)(x) == Getting(w, t, c)(y)
  {
    var q: nat :| NamedAt(s, t, x, y, q);
    assert SameValueAt(s, t, a, c, q);
    assert Look(w, a, s.sees(x)) == Look(w, c, t.sees(y));
  }

  /** Operands that are the same get the same values. */
  ghost predicate Agree(s: Stream, t: Stream, get: nat -> Value, get': nat -> Value)
    requires |s.names| == |t.names|
  {
    forall x: nat, y: nat {:trigger SameName(s, t, x, y)} :: SameName(s, t, x, y) ==> get(x) == get'(y)
  }

  lemma {:induction false} GettingsAgree(w: World, s: Stream, t: Stream, a: map<nat, Value>, c: map<nat, Value>)
    requires |s.names| == |t.names| && SameValues(s, t, a, c)
    ensures Agree(s, t, Getting(w, s, a), Getting(w, t, c))
  {
    forall x: nat, y: nat | SameName(s, t, x, y)
      ensures Getting(w, s, a)(x) == Getting(w, t, c)(y)
    {
      SameLook(w, s, t, a, c, x, y);
    }
  }

  lemma {:induction false} SameInst(s: Stream, t: Stream, p: nat, get: nat -> Value, get': nat -> Value)
    requires SameProgram(s, t) && p < |s.insts| && Agree(s, t, get, get')
    ensures Renamed(s.insts[p], s.lists[p], get, t.insts[p], t.lists[p], get')
  {
    assert InstSame(s, t, p);
    forall b: nat | b < 4
      ensures SameArg(s.insts[p], t.insts[p], b, get, get')
    {
      assert ArgSame(s, t, p, b);
    }
    forall k: nat | k < |s.lists[p]|
      ensures SameEntry(s.insts[p].op, s.lists[p], t.lists[p], k, get, get')
    {
      assert EntrySame(s, t, p, k);
    }
  }

  /** So instruction p does the same in both. */
  lemma {:induction false} SameDeed(w: World, s: Stream, t: Stream, p: nat, get: nat -> Value, get': nat -> Value, m: Memory)
    requires SameProgram(s, t) && p < |s.insts| && Agree(s, t, get, get')
    ensures s.insts[p].typ == t.insts[p].typ && s.insts[p].op == t.insts[p].op
    ensures ResultOf(w, t.insts[p], t.lists[p], t.homes[p], get', m) == ResultOf(w, s.insts[p], s.lists[p], s.homes[p], get, m)
    ensures MemoryAfter(w, t.insts[p], t.lists[p], get', m) == MemoryAfter(w, s.insts[p], s.lists[p], get, m)
    ensures ChoiceOf(w, t.insts[p], t.lists[p], get') == ChoiceOf(w, s.insts[p], s.lists[p], get)
  {
    assert InstSame(s, t, p);
    SameInst(s, t, p, get, get');
    RenamedDoesTheSame(w, s.insts[p], s.lists[p], s.homes[p], get, t.insts[p], t.lists[p], get', m);
  }

  lemma {:induction false} OneMoreValue(s: Stream, t: Stream, a: map<nat, Value>, c: map<nat, Value>, p: nat, v: Value)
    requires s.Sized() && t.Sized() && |s.insts| == |t.insts| && p < |s.insts| && SameValues(s, t, a, c)
    ensures SameValues(s, t, a[s.names[p] := v], c[t.names[p] := v])
  {
    forall q: nat {:trigger SameValueAt(s, t, a[s.names[p] := v], c[t.names[p] := v], q)} | q < |s.names|
      ensures SameValueAt(s, t, a[s.names[p] := v], c[t.names[p] := v], q)
    {
      assert SameValueAt(s, t, a, c, q);
      if q < p { assert s.names[q] != s.names[p] && t.names[q] != t.names[p]; }
      if p < q { assert s.names[p] != s.names[q] && t.names[p] != t.names[q]; }
    }
  }

  lemma {:induction false} ShapesAlike(s: Stream, t: Stream)
    requires SameProgram(s, t)
    ensures Alike(s.insts, t.insts)
  {
    forall p: nat | p < |s.insts|
      ensures SameMarker(s.insts[p], t.insts[p])
    {
      assert InstSame(s, t, p);
    }
  }

  lemma {:induction false} SameOutcome(w: World, s: Stream, t: Stream, p: nat, get: nat -> Value, get': nat -> Value, a: Config, c: Config, at: State)
    requires SameProgram(s, t) && p < |s.insts| && Agree(s, t, get, get') && SameConfig(s, t, a, c)
    ensures SameConfig(s, t, Outcome(w, s, p, get, a.values, a.memory, at), Outcome(w, t, p, get', c.values, c.memory, at))
  {
    SameDeed(w, s, t, p, get, get', a.memory);
    OneMoreValue(s, t, a.values, c.values, p, ResultOf(w, s.insts[p], s.lists[p], s.homes[p], get, a.memory));
  }

  lemma {:induction false} DoesTheSame(w: World, s: Stream, t: Stream, p: nat, get: nat -> Value, get': nat -> Value,
                                       a: Config, b: Config, c: Config, d: Config)
    requires SameProgram(s, t) && p < |s.insts| && Agree(s, t, get, get') && SameConfig(s, t, a, c)
    requires Does(w, s, p, get, a, b) && d == Outcome(w, t, p, get', c.values, c.memory, b.at)
    ensures Does(w, t, p, get', c, d) && SameConfig(s, t, b, d)
  {
    ShapesAlike(s, t);
    SameDeed(w, s, t, p, get, get', a.memory);
    SameOutcome(w, s, t, p, get, get', a, c, b.at);
    ObeysAlike(s.insts, t.insts, p, ChoiceOf(w, s.insts[p], s.lists[p], get), b.at);
  }

  /** Where the one program can step, so can the other, to the same memory and the same values. */
  lemma {:induction false} StepFollows(w: World, s: Stream, t: Stream, a: Config, b: Config, c: Config) returns (d: Config)
    requires SameProgram(s, t) && SameConfig(s, t, a, c) && DataStep(w, s, a, b)
    ensures DataStep(w, t, c, d) && SameConfig(s, t, b, d)
  {
    var p := a.at.pc;
    d := Outcome(w, t, p, Getting(w, t, c.values), c.values, c.memory, b.at);
    GettingsAgree(w, s, t, a.values, c.values);
    DoesTheSame(w, s, t, p, Getting(w, s, a.values), Getting(w, t, c.values), a, b, c, d);
    ShapesAlike(s, t);
    StepsAlike(s.insts, t.insts, p, b.at);
  }

  // ----- both ways -----

  lemma {:induction false} MaskSame(s: Stream, t: Stream, p: nat)
    requires s.Sized() && t.Sized() && p < |s.insts| == |t.insts| && InstSame(s, t, p)
    ensures ValueArgMask(s.insts[p]) == ValueArgMask(t.insts[p])
  {
    assert ArgSame(s, t, p, 3);
    assert s.insts[p].op.Atomic? ==> 3 !in ValueArgMask(s.insts[p]);
  }

  lemma {:induction false} NameBack(s: Stream, t: Stream, x: nat, y: nat)
    requires |s.names| == |t.names| && SameName(s, t, x, y)
    ensures SameName(t, s, y, x)
  {
    var q: nat :| NamedAt(s, t, x, y, q);
    assert NamedAt(t, s, y, x, q);
  }

  lemma {:induction false} InstBack(s: Stream, t: Stream, p: nat)
    requires s.Sized() && t.Sized() && p < |s.insts| == |t.insts| && InstSame(s, t, p)
    ensures InstSame(t, s, p)
  {
    MaskSame(s, t, p);
    forall a: nat | a < 4
      ensures ArgSame(t, s, p, a)
    {
      assert ArgSame(s, t, p, a);
      if a in ValueArgMask(s.insts[p]) { NameBack(s, t, s.insts[p].args[a], t.insts[p].args[a]); }
    }
    forall k: nat | k < |t.lists[p]|
      ensures EntrySame(t, s, p, k)
    {
      assert EntrySame(s, t, p, k);
      if AuxHoldsValues(s.insts[p].op) { NameBack(s, t, s.lists[p][k], t.lists[p][k]); }
    }
  }

  lemma {:induction false} ProgramBack(s: Stream, t: Stream)
    requires SameProgram(s, t)
    ensures SameProgram(t, s)
  {
    forall p: nat | p < |t.insts|
      ensures InstSame(t, s, p)
    {
      assert InstSame(s, t, p);
      InstBack(s, t, p);
    }
  }

  ghost predicate RunsTogether(s: Stream, t: Stream, run: seq<Config>, run': seq<Config>)
    requires |s.names| == |t.names|
  {
    |run'| == |run| && forall k {:trigger run[k]} {:trigger run'[k]} :: 0 <= k < |run| ==> SameConfig(s, t, run[k], run'[k])
  }

  /** So every run of the one is a run of the other. */
  lemma {:induction false} RunFollows(w: World, s: Stream, t: Stream, run: seq<Config>, c: Config) returns (run': seq<Config>)
    requires SameProgram(s, t) && IsDataRun(w, s, run) && SameConfig(s, t, run[0], c)
    ensures IsDataRun(w, t, run') && run'[0] == c && RunsTogether(s, t, run, run')
    decreases |run|
  {
    if |run| == 1 {
      run' := [c];
    } else {
      var n := |run| - 1;
      var front := run[..n];
      RunShortens(w, s, run);
      var front' := RunFollows(w, s, t, front, c);
      var d := StepFollows(w, s, t, run[n - 1], run[n], front'[n - 1]);
      run' := front' + [d];
      RunExtends(w, t, front', d);
      TogetherExtends(s, t, run, front', d);
    }
  }

  lemma {:induction false} RunShortens(w: World, s: Stream, run: seq<Config>)
    requires s.Sized() && IsDataRun(w, s, run) && |run| > 1
    ensures var n := |run| - 1; IsDataRun(w, s, run[..n]) && DataStep(w, s, run[n - 1], run[n])
  {
    var n := |run| - 1;
    var front := run[..n];
    assert run[n - 1] == run[n - 1];
    forall k | 0 <= k < |front| - 1
      ensures DataStep(w, s, front[k], front[k + 1])
    {
      assert front[k] == run[k] && front[k + 1] == run[k + 1];
    }
  }

  lemma {:induction false} RunExtends(w: World, s: Stream, run: seq<Config>, d: Config)
    requires s.Sized() && IsDataRun(w, s, run) && DataStep(w, s, run[|run| - 1], d)
    ensures IsDataRun(w, s, run + [d])
  {
    var next := run + [d];
    forall k | 0 <= k < |next| - 1
      ensures DataStep(w, s, next[k], next[k + 1])
    {
      if k < |run| - 1 {
        assert next[k] == run[k] && next[k + 1] == run[k + 1];
      }
    }
  }

  lemma {:induction false} TogetherExtends(s: Stream, t: Stream, run: seq<Config>, front': seq<Config>, d: Config)
    requires |s.names| == |t.names| && |run| > 0 && RunsTogether(s, t, run[..|run| - 1], front')
    requires SameConfig(s, t, run[|run| - 1], d)
    ensures RunsTogether(s, t, run, front' + [d])
  {
    var front := run[..|run| - 1];
    forall k | 0 <= k < |run|
      ensures SameConfig(s, t, run[k], (front' + [d])[k])
    {
      if k < |front| {
        assert front[k] == run[k] && SameConfig(s, t, front[k], front'[k]);
      }
    }
  }

  /** A run from the start, with nothing computed yet, gets here with this memory. */
  ghost predicate GetsTo(w: World, s: Stream, m: Memory, at: State, now: Memory)
    requires s.Sized()
  {
    exists run :: GetsToBy(w, s, m, at, now, run)
  }

  ghost predicate GetsToBy(w: World, s: Stream, m: Memory, at: State, now: Memory, run: seq<Config>)
    requires s.Sized()
  {
    IsDataRun(w, s, run) && run[0] == Config(START, map[], m) && Last(run).at == at && Last(run).memory == now
  }

  lemma {:induction false} GetsToToo(w: World, s: Stream, t: Stream, m: Memory, at: State, now: Memory)
    requires SameProgram(s, t) && GetsTo(w, s, m, at, now)
    ensures GetsTo(w, t, m, at, now)
  {
    var run :| GetsToBy(w, s, m, at, now, run);
    var c := Config(START, map[], m);
    assert SameConfig(s, t, c, c);
    var run' := RunFollows(w, s, t, run, c);
    assert SameConfig(s, t, run[|run| - 1], run'[|run| - 1]);
    assert GetsToBy(w, t, m, at, now, run');
  }

  /** Programs that are the same but for names get to the same places with the same memory. */
  lemma {:induction false} SameProgramsDoTheSame(w: World, s: Stream, t: Stream, m: Memory, at: State, now: Memory)
    requires SameProgram(s, t)
    ensures GetsTo(w, s, m, at, now) <==> GetsTo(w, t, m, at, now)
  {
    ProgramBack(s, t);
    if GetsTo(w, s, m, at, now) { GetsToToo(w, s, t, m, at, now); }
    if GetsTo(w, t, m, at, now) { GetsToToo(w, t, s, m, at, now); }
  }

  // ----- plain functions -----

  /** A function as it stands: values go by the index that computes them. */
  function Plain(f: Func, homes: seq<Value>): (s: Stream)
    requires |homes| == |f.insts|
    ensures s.Sized() && s.insts == f.insts && s.homes == homes
    ensures forall p: nat {:trigger s.names[p]} :: p < |f.insts| ==> s.names[p] == p
    ensures forall p: nat {:trigger s.lists[p]} :: p < |f.insts| ==> s.lists[p] == ListAt(f, f.insts[p])
    ensures forall x: nat {:trigger s.sees(x)} :: s.sees(x) == x
  {
    Stream(f.insts, seq(|f.insts|, i requires 0 <= i < |f.insts| => ListAt(f, f.insts[i])),
           seq<nat>(|f.insts|, i => i), homes, (x: nat) => x)
  }

  /** The list of an instruction; nops have none. */
  function ListAt(f: Func, inst: Inst): seq<nat> {
    if inst.op.Nop? || !AuxInPool(f, inst) then [] else ListOf(f, inst)
  }
}
