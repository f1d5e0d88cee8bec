/** When a pass keeps what a function does: its replacements have, wherever they are used, the value of
    what they replace, and what it kills writes nothing and steers nothing. */
module SoundEdits {
  import opened Ir
  import opened ControlFlow
  import opened Machine
  import opened SameShape
  import opened Semantics
  import opened DataRuns
  import opened EditModel
  import opened EditMeaning
  import opened EditInPlace
  import opened EditRuns

  ghost predicate KillsNoMarker(e: Edits) {
    e.Shaped() && forall i: nat {:trigger e.repl[i]} :: i < e.Base() && e.repl[i] != 0 ==> !IsMarker(e.insts[i].op)
  }

  /** What the edits assume of the instruction that runs next: each of its operands has the value of what
      it resolves to; if it is dead, it leaves memory as it is. */
  ghost predicate SoundAt(w: World, e: Edits, i: nat, values: map<nat, Value>, m: Memory)
    requires e.ChainsOk() && i < e.Base()
  {
    if e.Live(i) then
      forall x: nat {:trigger IsOperand(e.Fn(), e.insts[i], x)} :: IsOperand(e.Fn(), e.insts[i], x) ==>
        Look(w, values, x) == Look(w, values, e.Resolve(x))
    else MemoryAfter(w, e.insts[i], ListAt(e.Fn(), e.insts[i]), Named(w, values), m) == m
  }

  ghost function Named(w: World, values: map<nat, Value>): nat -> Value {
    (x: nat) => Look(w, values, x)
  }

  ghost predicate SoundOn(w: World, e: Edits, run: seq<Config>) {
    e.ChainsOk() && forall k: nat {:trigger run[k]} :: k < |run| && run[k].at.Running? && run[k].at.pc < e.Base() ==>
      SoundAt(w, e, run[k].at.pc, run[k].values, run[k].memory)
  }

  /** Same place, same memory, and the same values of everything that is kept. */
  ghost predicate Kept(e: Edits, a: Config, c: Config)
    requires e.Shaped()
  {
    a.at == c.at && a.memory == c.memory && forall i: nat {:trigger KeptAt(a, c, i)} :: i < e.Base() && e.Live(i) ==> KeptAt(a, c, i)
  }

  ghost predicate KeptAt(a: Config, c: Config, i: nat) {
    (i in a.values <==> i in c.values) && (i in a.values ==> a.values[i] == c.values[i])
  }

  lemma {:induction false} ShapeStays(e: Edits, homes: seq<Value>)
    requires e.Contract() && KillsNoMarker(e) && |homes| == e.Base()
    ensures Alike(e.insts, Standing(e, homes).insts)
  {
    var t := Standing(e, homes);
    forall i: nat | i < e.Base()
      ensures SameMarker(e.insts[i], t.insts[i])
    {
      assert t.insts[i] == StandingInst(e, i);
    }
  }

  /** A kept operand is read the same. */
  lemma {:induction false} OperandKept(w: World, e: Edits, homes: seq<Value>, a: Config, c: Config, i: nat, x: nat)
    requires e.Contract() && e.added == [] && |homes| == e.Base() && i < e.Base() && e.Live(i) && Kept(e, a, c)
    requires SoundAt(w, e, i, a.values, a.memory) && IsOperand(e.Fn(), e.insts[i], x)
    ensures Look(w, a.values, x) == Look(w, c.values, e.Resolve(x))
  {
    assert e.Get(i) == e.insts[i] && e.UseOk(i, x);
    assert KeptAt(a, c, e.Resolve(x));
  }

  lemma {:induction false} LiveDeedKept(w: World, e: Edits, a: Config, i: nat, home: Value, get: nat -> Value, get': nat -> Value)
    requires e.Contract() && i < e.Base() && e.Live(i)
    requires forall x: nat {:trigger IsOperand(e.Fn(), e.insts[i], x)} :: IsOperand(e.Fn(), e.insts[i], x) ==> get(x) == get'(x)
    ensures var inst, list := e.insts[i], ListAt(e.Fn(), e.insts[i]);
            && ResultOf(w, inst, list, home, get, a.memory) == ResultOf(w, inst, list, home, get', a.memory)
            && MemoryAfter(w, inst, list, get, a.memory) == MemoryAfter(w, inst, list, get', a.memory)
            && ChoiceOf(w, inst, list, get) == ChoiceOf(w, inst, list, get')
  {
    assert e.Get(i) == e.insts[i] && AuxInPool(e.Fn(), e.Get(i));
    OnlyOperandsMatter(w, e.Fn(), e.insts[i], home, get, get', a.memory);
  }

  lemma {:induction false} ValuesKept(e: Edits, a: Config, c: Config, b: Config, d: Config, i: nat, has: bool, v: Value)
    requires e.Shaped() && i < e.Base() && Kept(e, a, c) && b.at == d.at && b.memory == d.memory
    requires b.values == if has then a.values[i := v] else a.values
    requires d.values == if has && e.Live(i) then c.values[i := v] else c.values
    ensures Kept(e, b, d)
  {
    forall j: nat | j < e.Base() && e.Live(j)
      ensures KeptAt(b, d, j)
    {
      assert KeptAt(a, c, j);
    }
  }

  lemma {:induction false} LiveStep(w: World, e: Edits, homes: seq<Value>, a: Config, b: Config, c: Config, d: Config, i: nat,
                                    get: nat -> Value, get': nat -> Value)
    requires e.Contract() && e.added == [] && KillsNoMarker(e) && |homes| == e.Base() && i < e.Base() && e.Live(i)
    requires Kept(e, a, c) && SoundAt(w, e, i, a.values, a.memory)
    requires (forall x: nat {:trigger get(x)} :: get(x) == Look(w, a.values, x)) &&
             (forall x: nat {:trigger get'(x)} :: get'(x) == Look(w, c.values, e.Resolve(x)))
    requires Does(w, Plain(e.Fn(), homes), i, get, a, b)
    requires d == Outcome(w, Standing(e, homes), i, get', c.values, c.memory, b.at)
    ensures Does(w, Standing(e, homes), i, get', c, d) && Kept(e, b, d)
  {
    var s, t := Plain(e.Fn(), homes), Standing(e, homes);
    forall x: nat | IsOperand(e.Fn(), e.insts[i], x)
      ensures get(x) == get'(x)
    {
      OperandKept(w, e, homes, a, c, i, x);
    }
    LiveDeedKept(w, e, a, i, homes[i], get, get');
    assert s.insts[i] == t.insts[i] == e.insts[i] && s.lists[i] == t.lists[i] == ListAt(e.Fn(), e.insts[i]);
    assert s.names[i] == t.names[i] == i;
    ShapeStays(e, homes);
    ObeysAlike(e.insts, t.insts, i, ChoiceOf(w, e.insts[i], s.lists[i], get), b.at);
    ValuesKept(e, a, c, b, d, i, Yields(e.insts[i]), ResultOf(w, e.insts[i], s.lists[i], homes[i], get, a.memory));
  }

  lemma {:induction false} DeadStep(w: World, e: Edits, homes: seq<Value>, a: Config, b: Config, c: Config, d: Config, i: nat,
                                    get: nat -> Value, get': nat -> Value)
    requires e.Contract() && KillsNoMarker(e) && |homes| == e.Base() && i < e.Base() && !e.Live(i)
    requires Kept(e, a, c) && SoundAt(w, e, i, a.values, a.memory) && get == Named(w, a.values)
    requires Does(w, Plain(e.Fn(), homes), i, get, a, b)
    requires d == Outcome(w, Standing(e, homes), i, get', c.values, c.memory, b.at)
    ensures Does(w, Standing(e, homes), i, get', c, d) && Kept(e, b, d)
  {
    var s, t := Plain(e.Fn(), homes), Standing(e, homes);
    assert s.insts[i] == e.insts[i] && s.names[i] == i && s.lists[i] == ListAt(e.Fn(), e.insts[i]);
    assert t.insts[i].op.Nop?;
    ValuesKept(e, a, c, b, d, i, Yields(e.insts[i]), ResultOf(w, e.insts[i], s.lists[i], homes[i], get, a.memory));
  }

  /** Where the function steps, so does the edited one. */
  lemma {:induction false} StepKept(w: World, e: Edits, homes: seq<Value>, a: Config, b: Config, c: Config) returns (d: Config)
    requires e.Contract() && e.added == [] && KillsNoMarker(e) && |homes| == e.Base()
    requires DataStep(w, Plain(e.Fn(), homes), a, b) && Kept(e, a, c) && SoundAt(w, e, a.at.pc, a.values, a.memory)
    ensures DataStep(w, Standing(e, homes), c, d) && Kept(e, b, d)
  {
    var s, t, i := Plain(e.Fn(), homes), Standing(e, homes), a.at.pc;
    var get, get' := Getting(w, s, a.values), Getting(w, t, c.values);
    d := Outcome(w, t, i, get', c.values, c.memory, b.at);
    ShapeStays(e, homes);
    StepsAlike(e.insts, t.insts, i, b.at);
    if e.Live(i) {
      LiveStep(w, e, homes, a, b, c, d, i, get, get');
    } else {
      SameGetting(w, e, homes, a, b, i);
      DeadStep(w, e, homes, a, b, c, d, i, Named(w, a.values), get');
    }
  }

  lemma {:induction false} SameGetting(w: World, e: Edits, homes: seq<Value>, a: Config, b: Config, i: nat)
    requires |homes| == e.Base() && i < e.Base() && Does(w, Plain(e.Fn(), homes), i, Getting(w, Plain(e.Fn(), homes), a.values), a, b)
    ensures Does(w, Plain(e.Fn(), homes), i, Named(w, a.values), a, b)
  {
    var s := Plain(e.Fn(), homes);
    GetsSame(w, s.insts[i], s.lists[i], homes[i], Getting(w, s, a.values), Named(w, a.values), a.memory);
  }

  /** Reading the same values is all that counts. */
  lemma {:induction false} GetsSame(w: World, inst: Inst, list: seq<nat>, home: Value, get: nat -> Value, get': nat -> Value, m: Memory)
    requires forall x: nat :: get(x) == get'(x)
    ensures ResultOf(w, inst, list, home, get, m) == ResultOf(w, inst, list, home, get', m)
    ensures MemoryAfter(w, inst, list, get, m) == MemoryAfter(w, inst, list, get', m)
    ensures ChoiceOf(w, inst, list, get) == ChoiceOf(w, inst, list, get')
  {
    forall a: nat | a < 4
      ensures Semantics.SameArg(inst, inst, a, get, get')
    {
    }
    forall k: nat | k < |list|
      ensures SameEntry(inst.op, list, list, k, get, get')
    {
    }
    RenamedDoesTheSame(w, inst, list, home, get, inst, list, get', m);
  }

  ghost predicate KeptAll(e: Edits, run: seq<Config>, run': seq<Config>)
    requires e.Shaped()
  {
    |run'| == |run| && forall k: nat {:trigger Kept(e, run[k], run'[k])} :: k < |run| ==> Kept(e, run[k], run'[k])
  }

  lemma {:induction false} KeptExtends(e: Edits, run: seq<Config>, front: seq<Config>, d: Config)
    requires e.Shaped() && run != [] && KeptAll(e, run[..|run| - 1], front) && Kept(e, run[|run| - 1], d)
    ensures KeptAll(e, run, front + [d])
  {
    forall k: nat | k < |run|
      ensures Kept(e, run[k], (front + [d])[k])
    {
      if k < |run| - 1 { assert Kept(e, run[..|run| - 1][k], front[k]); }
    }
  }

  lemma {:induction false} SoundShortens(w: World, e: Edits, run: seq<Config>)
    requires SoundOn(w, e, run) && |run| > 1
    ensures var n := |run| - 1;
            SoundOn(w, e, run[..n]) &&
            (run[n - 1].at.Running? && run[n - 1].at.pc < e.Base() ==> SoundAt(w, e, run[n - 1].at.pc, run[n - 1].values, run[n - 1].memory))
  {
    var n := |run| - 1;
    assert run[n - 1] == run[n - 1];
    forall k: nat | k < |run[..n]| && run[..n][k].at.Running? && run[..n][k].at.pc < e.Base()
      ensures SoundAt(w, e, run[..n][k].at.pc, run[..n][k].values, run[..n][k].memory)
    {
      assert run[k] == run[..n][k];
    }
  }

  /** Every run of the function on which the edits are sound is a run of the edited function. */
  lemma {:induction false} SoundEditsKeepRuns(w: World, e: Edits, homes: seq<Value>, run: seq<Config>) returns (run': seq<Config>)
    requires e.Contract() && e.added == [] && KillsNoMarker(e) && |homes| == e.Base()
    requires IsDataRun(w, Plain(e.Fn(), homes), run) && SoundOn(w, e, run)
    ensures IsDataRun(w, Standing(e, homes), run') && run'[0] == run[0] && KeptAll(e, run, run')
    decreases |run|
  {
    if |run| == 1 {
      run' := run;
    } else {
      RunShortens(w, Plain(e.Fn(), homes), run);
      SoundShortens(w, e, run);
      var front := SoundEditsKeepRuns(w, e, homes, run[..|run| - 1]);
      run' := LastStepKept(w, e, homes, run, front, run[|run| - 2], run[|run| - 1]);
    }
  }

  lemma {:induction false} LastStepKept(w: World, e: Edits, homes: seq<Value>, run: seq<Config>, front: seq<Config>, a: Config, b: Config)
    returns (run': seq<Config>)
    requires e.Contract() && e.added == [] && KillsNoMarker(e) && |homes| == e.Base()
    requires |run| > 1 && a == run[|run| - 2] && b == run[|run| - 1] && DataStep(w, Plain(e.Fn(), homes), a, b)
    requires SoundAt(w, e, a.at.pc, a.values, a.memory)
    requires IsDataRun(w, Standing(e, homes), front) && KeptAll(e, run[..|run| - 1], front)
    ensures IsDataRun(w, Standing(e, homes), run') && run'[0] == front[0] && KeptAll(e, run, run')
  {
    assert Kept(e, run[..|run| - 1][|run| - 2], front[|run| - 2]);
    var d := StepKept(w, e, homes, a, b, front[|run| - 2]);
    RunExtends(w, Standing(e, homes), front, d);
    KeptExtends(e, run, front, d);
    run' := front + [d];
  }

  /** So the function that an in-place commit leaves gets where the original got, with its memory. */
  lemma {:induction false} SoundCommitKeepsMeaning(w: World, e: Edits, homes: seq<Value>, m: Memory, at: State, now: Memory, run: seq<Config>)
    requires e.Contract() && e.added == [] && KillsNoMarker(e) && LiteralsStay(e) && |homes| == e.Base()
    requires GetsToBy(w, Plain(e.Fn(), homes), m, at, now, run) && SoundOn(w, e, run)
    ensures GetsTo(w, InPlace(e, homes), m, at, now)
  {
    var run' := SoundEditsKeepRuns(w, e, homes, run);
    assert Kept(e, run[|run| - 1], run'[|run| - 1]);
    assert GetsToBy(w, Standing(e, homes), m, at, now, run');
    InPlaceKeepsMeaning(w, e, homes, m, at, now);
  }
}
