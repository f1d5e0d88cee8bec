/** What the emitted lines mean: each text does what its instruction does, whatever the emitter takes the
    instruction for. */
module WgslMeaning {
  import opened Ir
  import opened ControlFlow
  import opened Machine
  import opened Semantics
  import opened DataRuns
  import opened StraightLine
  import opened Inlining
  import opened InlinedText
  import opened WgslView

  /** The facts about types are the machine's. */
  ghost predicate Suits(w: World, f: Func, facts: seq<Facts>) {
    |facts| == |f.insts| && forall i :: 0 <= i < |f.insts| && f.insts[i].op.Intrinsic? ==>
      (facts[i].void <==> f.insts[i].typ == NONE || w.isVoid(f.insts[i].typ))
  }

  // ----- what the classes promise -----

  /** What does not count as an effect changes no memory. */
  lemma {:induction false} QuietChangesNothing(w: World, inst: Inst, t: Facts, list: seq<nat>, get: nat -> Value, m: Memory)
    requires !HasEffect(inst, t) && (inst.op.Intrinsic? ==> (t.void <==> inst.typ == NONE || w.isVoid(inst.typ)))
    ensures MemoryAfter(w, inst, list, get, m) == m
  {
  }

  /** What is neither a read nor an effect looks at none. */
  lemma {:induction false} OthersLookAtNothing(w: World, inst: Inst, t: Facts, list: seq<nat>, home: Value, get: nat -> Value, m: Memory, n: Memory)
    requires !HasEffect(inst, t) && !KindOf(inst, t).Read?
    ensures ResultOf(w, inst, list, home, get, m) == ResultOf(w, inst, list, home, get, n)
  {
  }

  /** What the back end can only write as statements of their own. */
  predicate HasNoExpression(inst: Inst, t: Facts) {
    match inst.op
    case Store | Insert | ImageStore | ImageAtomic | Atomic | SpirvAsm => true
    case Select => t.aggregate
    case Intrinsic => t.statement
    case _ => IsMarker(inst.op)
  }

  /** That is never folded into an expression. */
  lemma {:induction false} StatementsAreNotFolded(f: Func, facts: seq<Facts>, x: nat)
    requires IsOrdered(f, facts) && View(f, facts).Valid() && x < |f.insts| && HasNoExpression(f.insts[x], facts[x])
    ensures !Spelled(View(f, facts), x)
  {
    NoExpressionIsStatement(f.insts[x], facts[x]);
    KindIs(f, facts, x);
    StatementsStand(View(f, facts), x);
  }

  lemma {:induction false} NoExpressionIsStatement(inst: Inst, t: Facts)
    requires HasNoExpression(inst, t)
    ensures KindOf(inst, t).Statement?
  {
  }

  lemma {:induction false} KindIs(f: Func, facts: seq<Facts>, x: nat)
    requires |facts| == |f.insts| && ListsInPool(f) && x < |f.insts|
    ensures View(f, facts).items[x].kind == KindOf(f.insts[x], facts[x])
  {
  }

  lemma {:induction false} StatementsStand(p: Program, x: nat)
    requires p.Valid() && x < p.Count() && p.items[x].kind.Statement?
    ensures !Spelled(p, x)
  {
  }

  // ----- the meaning of a text -----

  function IndexIn(xs: seq<nat>, x: nat): (k: nat)
    ensures k <= |xs| && (k < |xs| <==> x in xs) && (k < |xs| ==> xs[k] == x)
  {
    if xs == [] || xs[0] == x then 0 else 1 + IndexIn(xs[1..], x)
  }

  /** The values of the operands, as the texts that stand for them give them. */
  ghost function Picking(w: World, xs: seq<nat>, args: seq<Value>): nat -> Value {
    (x: nat) => if IndexIn(xs, x) < |args| then args[IndexIn(xs, x)] else w.unset
  }

  ghost function Compute(w: World, f: Func, homes: seq<Value>, i: nat, args: seq<Value>, m: Memory): Value {
    if i < |f.insts| == |homes| && Yields(f.insts[i]) && AuxInPool(f, f.insts[i]) then
      ResultOf(w, f.insts[i], ListAt(f, f.insts[i]), homes[i], Picking(w, OperandsOf(f, i), args), m)
    else w.unset
  }

  ghost function Write(w: World, f: Func, i: nat, args: seq<Value>, m: Memory): Memory {
    if i < |f.insts| && AuxInPool(f, f.insts[i]) then
      MemoryAfter(w, f.insts[i], ListAt(f, f.insts[i]), Picking(w, OperandsOf(f, i), args), m)
    else m
  }

  /** A compare-exchange is a loop, since the weak form may fail for no reason. */
  predicate IsRetried(f: Func, i: nat) {
    i < |f.insts| && f.insts[i].op.Atomic? && f.insts[i].args[3] % 0x100 == 8
  }

  ghost function MeaningOf(w: World, f: Func, homes: seq<Value>): (s: Meaning)
    ensures forall i: nat, args, m {:trigger s.compute(i, args, m)} :: s.compute(i, args, m) == Compute(w, f, homes, i, args, m)
    ensures forall i: nat, args, m {:trigger s.write(i, args, m)} :: s.write(i, args, m) == Write(w, f, i, args, m)
    ensures forall i: nat {:trigger s.again(i)} :: s.again(i) <==> IsRetried(f, i)
  {
    Meaning((i: nat, args: seq<Value>, m: Memory) => Compute(w, f, homes, i, args, m),
            (i: nat, args: seq<Value>, m: Memory) => Write(w, f, i, args, m),
            (i: nat) => IsRetried(f, i))
  }

  lemma {:induction false} MeaningFits(w: World, f: Func, facts: seq<Facts>, homes: seq<Value>)
    requires Suits(w, f, facts) && ListsInPool(f) && |homes| == |f.insts|
    ensures Fits(View(f, facts), MeaningOf(w, f, homes))
  {
    var p, s := View(f, facts), MeaningOf(w, f, homes);
    forall i: nat, args: seq<Value>, m: Memory, n: Memory | i < p.Count() && !p.items[i].kind.Read? && !p.items[i].effect
      ensures s.compute(i, args, m) == s.compute(i, args, n)
    {
      OthersLookAtNothing(w, f.insts[i], facts[i], ListAt(f, f.insts[i]), homes[i], Picking(w, OperandsOf(f, i), args), m, n);
    }
    forall i: nat, args: seq<Value>, m: Memory | i < p.Count() && !p.items[i].effect
      ensures s.write(i, args, m) == m
    {
      QuietChangesNothing(w, f.insts[i], facts[i], ListAt(f, f.insts[i]), Picking(w, OperandsOf(f, i), args), m);
    }
  }

  // ----- the instructions, one after the other -----

  ghost function Start(m: Memory): Config {
    Config(START, map[], m)
  }

  /** After the first n. */
  ghost function RanTo(w: World, s: Stream, m: Memory, n: nat): Config
    requires s.Sized() && n <= |s.insts|
  {
    if n == 0 then Start(m)
    else
      var a := RanTo(w, s, m, n - 1);
      DataRuns.Outcome(w, s, n - 1, Getting(w, s, a.values), a.values, a.memory, Running(n, None))
  }

  lemma {:induction false} NextIsStep(w: World, f: Func, homes: seq<Value>, m: Memory, n: nat)
    requires NoMarkers(f) && |homes| == |f.insts| && n < |f.insts|
    ensures var s := Plain(f, homes); DataStep(w, s, RanTo(w, s, m, n), RanTo(w, s, m, n + 1))
  {
  }

  lemma {:induction false} RanIsRun(w: World, f: Func, homes: seq<Value>, m: Memory, n: nat) returns (run: seq<Config>)
    requires NoMarkers(f) && |homes| == |f.insts| && n <= |f.insts|
    ensures var s := Plain(f, homes);
            IsDataRun(w, s, run) && run[0] == Start(m) && |run| == n + 1 && run[n] == RanTo(w, s, m, n)
  {
    if n == 0 {
      run := [Start(m)];
    } else {
      run := RanIsRun(w, f, homes, m, n - 1);
      NextIsStep(w, f, homes, m, n - 1);
      RunExtends(w, Plain(f, homes), run, RanTo(w, Plain(f, homes), m, n));
      run := run + [RanTo(w, Plain(f, homes), m, n)];
    }
  }

  /** From the only configuration, only to the next. */
  ghost predicate StepsOnly(w: World, s: Stream, m: Memory, run: seq<Config>, k: nat)
    requires s.Sized() && k + 1 < |run|
  {
    k <= |s.insts| && run[k] == RanTo(w, s, m, k) ==> k < |s.insts| && run[k + 1] == RanTo(w, s, m, k + 1)
  }

  lemma {:induction false} AllOnly(w: World, s: Stream, m: Memory, run: seq<Config>, k: nat)
    requires s.Sized() && k < |run| && run[0] == Start(m)
    requires forall j: nat {:trigger StepsOnly(w, s, m, run, j)} :: j < k ==> StepsOnly(w, s, m, run, j)
    ensures k <= |s.insts| && run[k] == RanTo(w, s, m, k)
    decreases k
  {
    if k > 0 {
      AllOnly(w, s, m, run, k - 1);
      assert StepsOnly(w, s, m, run, k - 1);
    }
  }

  /** A straight-line function has no other run. */
  lemma {:induction false} OnlyRun(w: World, f: Func, homes: seq<Value>, m: Memory, run: seq<Config>, k: nat)
    requires NoMarkers(f) && |homes| == |f.insts| && IsDataRun(w, Plain(f, homes), run) && run[0] == Start(m) && k < |run|
    ensures k <= |f.insts| && run[k] == RanTo(w, Plain(f, homes), m, k)
  {
    var s := Plain(f, homes);
    forall j: nat | j < k
      ensures StepsOnly(w, s, m, run, j)
    {
      if j <= |s.insts| && run[j] == RanTo(w, s, m, j) {
        OnlyStep(w, f, homes, m, StepAt(w, s, run, j), run[j + 1], j);
      }
    }
    AllOnly(w, s, m, run, k);
  }

  ghost function StepAt(w: World, s: Stream, run: seq<Config>, k: nat): (a: Config)
    requires s.Sized() && IsDataRun(w, s, run) && k + 1 < |run|
    ensures a == run[k] && DataStep(w, s, a, run[k + 1])
  {
    run[k]
  }

  lemma {:induction false} OnlyStep(w: World, f: Func, homes: seq<Value>, m: Memory, a: Config, b: Config, k: nat)
    requires NoMarkers(f) && |homes| == |f.insts| && k <= |f.insts| && a == RanTo(w, Plain(f, homes), m, k)
    requires DataStep(w, Plain(f, homes), a, b)
    ensures k < |f.insts| && b == RanTo(w, Plain(f, homes), m, k + 1)
  {
    assert a.at == Running(k, None);
  }

  /** So it ends with one memory. */
  lemma {:induction false} EndsOnce(w: World, f: Func, homes: seq<Value>, m: Memory, now: Memory)
    requires NoMarkers(f) && |homes| == |f.insts|
    ensures var s, n := Plain(f, homes), |f.insts|;
            GetsTo(w, s, m, Running(n, None), now) <==> now == RanTo(w, s, m, n).memory
  {
    var s, n := Plain(f, homes), |f.insts|;
    if GetsTo(w, s, m, Running(n, None), now) {
      var run :| GetsToBy(w, s, m, Running(n, None), now, run);
      OnlyRun(w, f, homes, m, run, |run| - 1);
    }
    if now == RanTo(w, s, m, n).memory {
      var run := RanIsRun(w, f, homes, m, n);
      assert GetsToBy(w, s, m, Running(n, None), now, run);
    }
  }

  // ----- and as the emitter orders them -----

  /** Memory and values are the same either way. */
  ghost predicate Tracks(w: World, r: Config, p: Program, s: Meaning, m: Memory, n: nat)
    requires p.Valid() && n <= p.Count()
  {
    r.memory == MemoryAt(p, s, m, n) && forall x: nat {:trigger ValueTracks(w, r, p, s, m, x)} {:trigger ValueOf(p, s, m, x)} :: x < n ==> ValueTracks(w, r, p, s, m, x)
  }

  ghost predicate ValueTracks(w: World, r: Config, p: Program, s: Meaning, m: Memory, x: nat)
    requires p.Valid() && x < p.Count()
  {
    Look(w, r.values, x) == ValueOf(p, s, m, x)
  }

  lemma {:induction false} OperandsListed(f: Func, i: nat, x: nat)
    requires i < |f.insts| && AuxInPool(f, f.insts[i]) && IsOperand(f, f.insts[i], x) && x < |f.insts|
    ensures x in OperandsOf(f, i)
  {
    if a :| a in ValueArgMask(f.insts[i]) && a < 4 && f.insts[i].args[a] == x {
      ArgListed(f, i, a, 4);
    } else {
      var k :| f.insts[i].aux <= k < f.insts[i].aux + f.insts[i].auxCount && k < |f.aux| && f.aux[k] == x;
      EntryListed(f, i, k - f.insts[i].aux, f.insts[i].auxCount);
    }
  }

  lemma {:induction false} ArgListed(f: Func, i: nat, a: nat, n: nat)
    requires i < |f.insts| && a < n <= 4 && a in ValueArgMask(f.insts[i]) && f.insts[i].args[a] < |f.insts|
    ensures f.insts[i].args[a] in ArgsTo(f, i, n)
  {
    if a < n - 1 {
      ArgListed(f, i, a, n - 1);
    }
  }

  lemma {:induction false} EntryListed(f: Func, i: nat, k: nat, n: nat)
    requires i < |f.insts| && AuxInPool(f, f.insts[i]) && k < n <= f.insts[i].auxCount && f.aux[f.insts[i].aux + k] < |f.insts|
    ensures f.aux[f.insts[i].aux + k] in AuxTo(f, i, n)
  {
    if k < n - 1 {
      EntryListed(f, i, k, n - 1);
    }
  }

  lemma {:induction false} ValuesAre(p: Program, s: Meaning, m: Memory, i: nat, k: nat, j: nat)
    requires p.Valid() && i < p.Count() && k <= j < |p.items[i].operands|
    ensures ValuesOf(p, s, m, i, k)[j - k] == ValueOf(p, s, m, p.items[i].operands[j])
    decreases j - k
  {
    if k < j {
      ValuesAre(p, s, m, i, k + 1, j);
    }
  }

  lemma {:induction false} OnlyEarlier(w: World, f: Func, homes: seq<Value>, m: Memory, n: nat)
    requires |homes| == |f.insts| && n <= |f.insts|
    ensures forall x :: x in RanTo(w, Plain(f, homes), m, n).values ==> x < n
  {
    if n > 0 {
      OnlyEarlier(w, f, homes, m, n - 1);
    }
  }

  /** The text that stands for an operand gives the value the operand has. */
  lemma {:induction false} PicksOperand(w: World, f: Func, facts: seq<Facts>, s: Meaning, r: Config, m: Memory, i: nat, x: nat)
    requires IsOrdered(f, facts) && View(f, facts).Valid() && i < |f.insts| && Tracks(w, r, View(f, facts), s, m, i)
    requires IsOperand(f, f.insts[i], x) && forall y :: y in r.values ==> y < i
    ensures Picking(w, OperandsOf(f, i), ValuesOf(View(f, facts), s, m, i, 0))(x) == Look(w, r.values, x)
  {
    var p := View(f, facts);
    assert OrderedAt(f, facts, i);
    assert p.items[i].operands == OperandsOf(f, i);
    if x < |f.insts| {
      OperandsListed(f, i, x);
      PickedIs(w, p, s, m, i, x);
      assert ValueTracks(w, r, p, s, m, x);
    } else if x in OperandsOf(f, i) {
      OperandIsOperand(f, i, IndexIn(OperandsOf(f, i), x));
    }
  }

  lemma {:induction false} PickedIs(w: World, p: Program, s: Meaning, m: Memory, i: nat, x: nat)
    requires p.Valid() && i < p.Count() && x < p.Count() && x in p.items[i].operands
    ensures Picking(w, p.items[i].operands, ValuesOf(p, s, m, i, 0))(x) == ValueOf(p, s, m, x)
  {
    ValuesAre(p, s, m, i, 0, IndexIn(p.items[i].operands, x));
  }

  /** So the text of instruction i does what the instruction does. */
  lemma {:induction false} SameDeedHere(w: World, f: Func, facts: seq<Facts>, s: Meaning, r: Config, m: Memory, i: nat,
                                        home: Value, get: nat -> Value, picked: nat -> Value)
    requires IsOrdered(f, facts) && View(f, facts).Valid() && i < |f.insts| && Tracks(w, r, View(f, facts), s, m, i)
    requires (forall y :: y in r.values ==> y < i) && !f.insts[i].op.Nop?
    requires forall x: nat {:trigger get(x)} :: get(x) == Look(w, r.values, x)
    requires picked == Picking(w, OperandsOf(f, i), ValuesOf(View(f, facts), s, m, i, 0))
    ensures var inst, list := f.insts[i], ListAt(f, f.insts[i]);
            && ResultOf(w, inst, list, home, get, r.memory) == ResultOf(w, inst, list, home, picked, r.memory)
            && MemoryAfter(w, inst, list, get, r.memory) == MemoryAfter(w, inst, list, picked, r.memory)
  {
    forall x: nat | IsOperand(f, f.insts[i], x)
      ensures get(x) == picked(x)
    {
      PicksOperand(w, f, facts, s, r, m, i, x);
    }
    OnlyOperandsMatter(w, f, f.insts[i], home, get, picked, r.memory);
  }

  ghost predicate KeepsTrack(w: World, p: Program, s: Meaning, m: Memory, cs: seq<Config>, k: nat)
    requires p.Valid() && k < p.Count() && k + 1 < |cs|
  {
    Tracks(w, cs[k], p, s, m, k) ==> Tracks(w, cs[k + 1], p, s, m, k + 1)
  }

  lemma {:induction false} TracksAll(w: World, p: Program, s: Meaning, m: Memory, cs: seq<Config>, n: nat)
    requires p.Valid() && n < |cs| && n <= p.Count() && cs[0] == Start(m)
    requires forall k: nat {:trigger KeepsTrack(w, p, s, m, cs, k)} :: k < n ==> KeepsTrack(w, p, s, m, cs, k)
    ensures Tracks(w, cs[n], p, s, m, n)
    decreases n
  {
    if n == 0 {
      TracksStart(w, p, s, m);
    } else {
      TracksAll(w, p, s, m, cs, n - 1);
      assert KeepsTrack(w, p, s, m, cs, n - 1);
    }
  }

  ghost function Configs(w: World, s: Stream, m: Memory): (cs: seq<Config>)
    requires s.Sized()
    ensures |cs| == |s.insts| + 1 && forall k: nat {:trigger cs[k]} :: k < |cs| ==> cs[k] == RanTo(w, s, m, k)
  {
    seq(|s.insts| + 1, k requires 0 <= k <= |s.insts| => RanTo(w, s, m, k))
  }

  lemma {:induction false} TracksOn(w: World, f: Func, facts: seq<Facts>, homes: seq<Value>, m: Memory)
    requires IsOrdered(f, facts) && View(f, facts).Valid() && |homes| == |f.insts|
    ensures Tracks(w, RanTo(w, Plain(f, homes), m, |f.insts|), View(f, facts), MeaningOf(w, f, homes), m, |f.insts|)
  {
    var p, s, cs, n := View(f, facts), MeaningOf(w, f, homes), Configs(w, Plain(f, homes), m), |f.insts|;
    forall k: nat | k < n
      ensures KeepsTrack(w, p, s, m, cs, k)
    {
      if Tracks(w, cs[k], p, s, m, k) {
        TracksNext(w, f, facts, homes, s, cs[k], cs[k + 1], m, k);
      }
    }
    TracksAll(w, p, s, m, cs, n);
  }

  lemma {:induction false} TracksNext(w: World, f: Func, facts: seq<Facts>, homes: seq<Value>, s: Meaning, a: Config, b: Config, m: Memory, i: nat)
    requires IsOrdered(f, facts) && View(f, facts).Valid() && |homes| == |f.insts| && i < |f.insts| && s == MeaningOf(w, f, homes)
    requires a == RanTo(w, Plain(f, homes), m, i) && b == RanTo(w, Plain(f, homes), m, i + 1)
    requires Tracks(w, a, View(f, facts), s, m, i)
    ensures Tracks(w, b, View(f, facts), s, m, i + 1)
  {
    OnlyEarlier(w, f, homes, m, i);
    NextConfig(w, f, homes, m, i);
    TracksOneMore(w, f, facts, homes, s, a, b, m, i);
  }

  lemma {:induction false} TracksStart(w: World, p: Program, s: Meaning, m: Memory)
    requires p.Valid()
    ensures Tracks(w, Start(m), p, s, m, 0)
  {
  }

  /** b is a after instruction i. */
  ghost predicate IsNext(w: World, f: Func, homes: seq<Value>, i: nat, a: Config, b: Config)
    requires |homes| == |f.insts| && i < |f.insts|
  {
    var inst, list, get := f.insts[i], ListAt(f, f.insts[i]), Getting(w, Plain(f, homes), a.values);
    && b.values == (if Yields(inst) then a.values[i := ResultOf(w, inst, list, homes[i], get, a.memory)] else a.values)
    && b.memory == MemoryAfter(w, inst, list, get, a.memory)
  }

  lemma {:induction false} NextConfig(w: World, f: Func, homes: seq<Value>, m: Memory, i: nat)
    requires |homes| == |f.insts| && i < |f.insts|
    ensures IsNext(w, f, homes, i, RanTo(w, Plain(f, homes), m, i), RanTo(w, Plain(f, homes), m, i + 1))
  {
    var s := Plain(f, homes);
    assert s.names[i] == i && s.lists[i] == ListAt(f, f.insts[i]);
  }

  lemma {:induction false} TracksOneMore(w: World, f: Func, facts: seq<Facts>, homes: seq<Value>, s: Meaning, a: Config, b: Config, m: Memory, i: nat)
    requires IsOrdered(f, facts) && View(f, facts).Valid() && |homes| == |f.insts| && i < |f.insts| && s == MeaningOf(w, f, homes)
    requires Tracks(w, a, View(f, facts), s, m, i) && IsNext(w, f, homes, i, a, b) && forall y :: y in a.values ==> y < i
    ensures Tracks(w, b, View(f, facts), s, m, i + 1)
  {
    MemoryOneMore(w, f, facts, homes, s, a, b, m, i);
    ValueOneMore(w, f, facts, homes, s, a, b, m, i);
    OlderStay(w, f, homes, a, b, i);
    TracksExtend(w, View(f, facts), s, a, b, m, i);
  }

  lemma {:induction false} OlderStay(w: World, f: Func, homes: seq<Value>, a: Config, b: Config, i: nat)
    requires |homes| == |f.insts| && i < |f.insts| && IsNext(w, f, homes, i, a, b)
    ensures forall x: nat {:trigger Look(w, b.values, x)} :: x < i ==> Look(w, b.values, x) == Look(w, a.values, x)
  {
  }

  lemma {:induction false} TracksExtend(w: World, p: Program, s: Meaning, a: Config, b: Config, m: Memory, i: nat)
    requires p.Valid() && i < p.Count() && Tracks(w, a, p, s, m, i)
    requires b.memory == MemoryAt(p, s, m, i + 1) && ValueTracks(w, b, p, s, m, i)
    requires forall x: nat {:trigger Look(w, b.values, x)} :: x < i ==> Look(w, b.values, x) == Look(w, a.values, x)
    ensures Tracks(w, b, p, s, m, i + 1)
  {
    forall x: nat {:trigger ValueTracks(w, b, p, s, m, x)} | x < i + 1
      ensures ValueTracks(w, b, p, s, m, x)
    {
      if x < i {
        assert ValueTracks(w, a, p, s, m, x);
      }
    }
  }

  lemma {:induction false} MemoryOneMore(w: World, f: Func, facts: seq<Facts>, homes: seq<Value>, s: Meaning, a: Config, b: Config, m: Memory, i: nat)
    requires IsOrdered(f, facts) && View(f, facts).Valid() && |homes| == |f.insts| && i < |f.insts| && s == MeaningOf(w, f, homes)
    requires Tracks(w, a, View(f, facts), s, m, i) && IsNext(w, f, homes, i, a, b) && forall y :: y in a.values ==> y < i
    ensures b.memory == MemoryAt(View(f, facts), s, m, i + 1)
  {
    var p, args := View(f, facts), ValuesOf(View(f, facts), s, m, i, 0);
    if !f.insts[i].op.Nop? {
      SameDeedHere(w, f, facts, s, a, m, i, homes[i], Getting(w, Plain(f, homes), a.values), Picking(w, OperandsOf(f, i), args));
    }
    assert s.write(i, args, a.memory) == Write(w, f, i, args, a.memory);
    assert MemoryAt(p, s, m, i + 1) == s.write(i, args, a.memory);
  }

  lemma {:induction false} ValueOneMore(w: World, f: Func, facts: seq<Facts>, homes: seq<Value>, s: Meaning, a: Config, b: Config, m: Memory, i: nat)
    requires IsOrdered(f, facts) && View(f, facts).Valid() && |homes| == |f.insts| && i < |f.insts| && s == MeaningOf(w, f, homes)
    requires Tracks(w, a, View(f, facts), s, m, i) && IsNext(w, f, homes, i, a, b) && forall y :: y in a.values ==> y < i
    ensures ValueTracks(w, b, View(f, facts), s, m, i)
  {
    var p, args := View(f, facts), ValuesOf(View(f, facts), s, m, i, 0);
    if Yields(f.insts[i]) {
      SameDeedHere(w, f, facts, s, a, m, i, homes[i], Getting(w, Plain(f, homes), a.values), Picking(w, OperandsOf(f, i), args));
    }
    assert s.compute(i, args, a.memory) == Compute(w, f, homes, i, args, a.memory);
    assert ValueOf(p, s, m, i) == s.compute(i, args, a.memory);
  }

  /** The lines end where the instructions do, with the same memory. */
  ghost predicate LinesDo(w: World, f: Func, facts: seq<Facts>, homes: seq<Value>, lines: seq<Line>, m: Memory)
    requires IsOrdered(f, facts) && View(f, facts).Valid() && |homes| == |f.insts|
  {
    var r := RunLines(View(f, facts), MeaningOf(w, f, homes), lines, m);
    r.At? && GetsTo(w, Plain(f, homes), m, Running(|f.insts|, None), r.memory)
  }

  lemma {:induction false} LinesDoAsInstructions(w: World, f: Func, facts: seq<Facts>, homes: seq<Value>, m: Memory)
    requires IsOrdered(f, facts) && NoMarkers(f) && View(f, facts).Valid() && |homes| == |f.insts| && Suits(w, f, facts)
    ensures LinesDo(w, f, facts, homes, Lines(View(f, facts), |f.insts|), m)
  {
    MeaningFits(w, f, facts, homes);
    InliningKeepsMeaning(View(f, facts), MeaningOf(w, f, homes), m);
    TracksOn(w, f, facts, homes, m);
    EndsOnce(w, f, homes, m, MemoryAt(View(f, facts), MeaningOf(w, f, homes), m, |f.insts|));
  }
}
