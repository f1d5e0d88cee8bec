/** The emitted program: a list of lines, each an expression tree over earlier names, evaluated
    where the line stands. */
module InlinedText {
  import opened Ir
  import opened StraightLine
  import opened Inlining

  /** The text of an expression: a name, or an operation on texts. */
  datatype Tree = Name(id: nat) | Node(id: nat, kids: seq<Tree>)

  /** `let _id = tree;`, or the statement that instruction id is. */
  datatype Line = Line(id: nat, tree: Tree)

  ghost function TextOf(p: Program, x: nat): Tree
    requires p.Valid() && x < p.Count()
    decreases x, 9
  {
    if Spelled(p, x) then Node(x, TextsOf(p, x, 0)) else Name(x)
  }

  ghost function TextsOf(p: Program, i: nat, k: nat): (ts: seq<Tree>)
    requires p.Valid() && i < p.Count() && k <= |p.items[i].operands|
    ensures |ts| == |p.items[i].operands| - k
    decreases i, 1, |p.items[i].operands| - k
  {
    if k == |p.items[i].operands| then [] else [TextOf(p, p.items[i].operands[k])] + TextsOf(p, i, k + 1)
  }

  ghost function LineOf(p: Program, i: nat): Line
    requires p.Valid() && i < p.Count()
  {
    Line(i, Node(i, TextsOf(p, i, 0)))
  }

  /** The lines of the first n instructions. */
  ghost function Lines(p: Program, n: nat): seq<Line>
    requires p.Valid() && n <= p.Count()
  {
    if n == 0 then []
    else Lines(p, n - 1) + if Spelled(p, n - 1) then [] else [LineOf(p, n - 1)]
  }

  // ----- running the lines -----

  /** The value of a text, evaluated now; None when it uses a name that is not there. */
  ghost function Eval(s: Meaning, t: Tree, names: map<nat, Value>, m: Memory): Option<Value>
    decreases t, 1
  {
    match t
    case Name(x) => if x in names then Some(names[x]) else None
    case Node(i, kids) =>
      var args := EvalAll(s, kids, names, m);
      if args.None? then None else Some(s.compute(i, args.value, m))
  }

  ghost function EvalAll(s: Meaning, ts: seq<Tree>, names: map<nat, Value>, m: Memory): Option<seq<Value>>
    decreases ts, 1
  {
    if ts == [] then Some([]) else
      var first, rest := Eval(s, ts[0], names, m), EvalAll(s, ts[1..], names, m);
      if first.None? || rest.None? then None else Some([first.value] + rest.value)
  }

  datatype Outcome = Stuck | At(names: map<nat, Value>, memory: Memory)

  ghost function RunLine(p: Program, s: Meaning, l: Line, names: map<nat, Value>, m: Memory): Outcome
    requires p.Valid()
  {
    match l.tree
    case Name(_) => Stuck
    case Node(_, kids) =>
      var args := EvalAll(s, kids, names, m);
      if args.None? || l.id >= p.Count() then Stuck
      else
        var now := s.write(l.id, args.value, m);
        if s.again(l.id) && EvalAll(s, kids, names, now) != args then Stuck   // the operands must not have changed
        else At(names[l.id := s.compute(l.id, args.value, m)], now)
  }

  ghost function RunLines(p: Program, s: Meaning, lines: seq<Line>, m: Memory): Outcome
    requires p.Valid()
  {
    if lines == [] then At(map[], m) else
      match RunLines(p, s, lines[..|lines| - 1], m)
      case Stuck => Stuck
      case At(names, now) => RunLine(p, s, lines[|lines| - 1], names, now)
  }

  // ----- the emitted program does what the instructions do -----

  /** Every value below n that has a name has the value it was computed with. */
  ghost predicate NamesRight(p: Program, s: Meaning, m: Memory, n: nat, names: map<nat, Value>)
    requires p.Valid() && n <= p.Count()
  {
    forall x :: 0 <= x < n && !Spelled(p, x) ==> x in names && names[x] == ValueOf(p, s, m, x)
  }

  /** Evaluating x's text at position `at` is what the analysis expects. */
  ghost predicate EvaluatedAt(p: Program, x: nat, at: nat)
    requires p.Valid() && x < p.Count()
  {
    Spelled(p, x) && !p.items[x].kind.Fixed? ==> Sink(p, x) == at || Sink(p, x) < 0
  }

  /** A folded read sees, at its sink, the memory it was defined on. */
  lemma {:induction false} SameMemory(p: Program, s: Meaning, m: Memory, x: nat, at: nat)
    requires p.Valid() && Fits(p, s) && at < p.Count() && x < p.Count()
    requires Inlined(p, x) && p.items[x].kind.Read? && Sink(p, x) == at
    ensures MemoryAt(p, s, m, x) == MemoryAt(p, s, m, at)
  {
    assert EffectsBefore(p, at) - EffectsBefore(p, x + 1) == 0;
    forall i | x + 1 <= i < at
      ensures !p.items[i].effect
    {
      NoEffectsBetween(p, x + 1, at, i);
    }
    MemoryStays(p, s, m, x, at);
  }

  lemma {:induction false} TextRight(p: Program, s: Meaning, m: Memory, x: nat, at: nat, names: map<nat, Value>)
    requires p.Valid() && Fits(p, s) && x < at < p.Count()
    requires NamesRight(p, s, m, at, names) && EvaluatedAt(p, x, at)
    ensures Eval(s, TextOf(p, x), names, MemoryAt(p, s, m, at)) == Some(ValueOf(p, s, m, x))
    decreases x, 9
  {
    if Spelled(p, x) {
      assert p.ItemOk(x);
      TextsRight(p, s, m, x, 0, at, names);
      if p.items[x].kind.Read? {
        SameMemory(p, s, m, x, at);
      }
    }
  }

  lemma {:induction false} TextsRight(p: Program, s: Meaning, m: Memory, i: nat, k: nat, at: nat, names: map<nat, Value>)
    requires p.Valid() && Fits(p, s) && i <= at < p.Count() && k <= |p.items[i].operands|
    requires NamesRight(p, s, m, at, names)
    requires Sink(p, i) == at || Sink(p, i) < 0 || p.items[i].kind.Fixed?
    ensures EvalAll(s, TextsOf(p, i, k), names, MemoryAt(p, s, m, at)) == Some(ValuesOf(p, s, m, i, k))
    decreases i, 1, |p.items[i].operands| - k
  {
    if k < |p.items[i].operands| {
      OperandSink(p, i, k);
      var o := p.items[i].operands[k];
      TextRight(p, s, m, o, at, names);
      TextsRight(p, s, m, i, k + 1, at, names);
      var ts := TextsOf(p, i, k);
      assert ts[0] == TextOf(p, o) && ts[1..] == TextsOf(p, i, k + 1);
    }
  }

  /** Memory is what running the first n instructions in order leaves, and every name has its value. */
  ghost predicate IsRight(p: Program, s: Meaning, m: Memory, n: nat, r: Outcome)
    requires p.Valid() && n <= p.Count()
  {
    r.At? && r.memory == MemoryAt(p, s, m, n) && NamesRight(p, s, m, n, r.names)
  }

  /** After the lines of the first n instructions, memory is what running those instructions in
      order leaves, and every name has its value. */
  lemma {:induction false} LinesRight(p: Program, s: Meaning, m: Memory, n: nat)
    requires p.Valid() && Fits(p, s) && n <= p.Count()
    ensures IsRight(p, s, m, n, RunLines(p, s, Lines(p, n), m))
  {
    if n > 0 {
      LinesRight(p, s, m, n - 1);
      var before := RunLines(p, s, Lines(p, n - 1), m);
      if Spelled(p, n - 1) {
        SpelledStep(p, s, m, n - 1, before);
      } else {
        LineStep(p, s, m, n - 1, before);
        OneMoreLine(p, s, Lines(p, n - 1), LineOf(p, n - 1), m);
      }
    } else {
      assert Lines(p, 0) == [];
    }
  }

  lemma {:induction false} SpelledStep(p: Program, s: Meaning, m: Memory, i: nat, r: Outcome)
    requires p.Valid() && Fits(p, s) && i < p.Count() && Spelled(p, i) && IsRight(p, s, m, i, r)
    ensures IsRight(p, s, m, i + 1, r) && Lines(p, i + 1) == Lines(p, i)
  {
    SpelledHasNoEffect(p, i);
  }

  lemma {:induction false} LineStep(p: Program, s: Meaning, m: Memory, i: nat, r: Outcome)
    requires p.Valid() && Fits(p, s) && i < p.Count() && !Spelled(p, i) && IsRight(p, s, m, i, r)
    ensures IsRight(p, s, m, i + 1, RunLine(p, s, LineOf(p, i), r.names, r.memory))
    ensures Lines(p, i + 1) == Lines(p, i) + [LineOf(p, i)]
  {
    LineRight(p, s, m, i, r.names);
  }

  lemma {:induction false} OneMoreLine(p: Program, s: Meaning, lines: seq<Line>, l: Line, m: Memory)
    requires p.Valid() && RunLines(p, s, lines, m).At?
    ensures var before := RunLines(p, s, lines, m);
            RunLines(p, s, lines + [l], m) == RunLine(p, s, l, before.names, before.memory)
  {
    assert (lines + [l])[..|lines|] == lines;
  }

  lemma {:induction false} LineRight(p: Program, s: Meaning, m: Memory, i: nat, names: map<nat, Value>)
    requires p.Valid() && Fits(p, s) && i < p.Count() && !Spelled(p, i) && NamesRight(p, s, m, i, names)
    ensures RunLine(p, s, LineOf(p, i), names, MemoryAt(p, s, m, i)) ==
            At(names[i := ValueOf(p, s, m, i)], MemoryAt(p, s, m, i + 1))
  {
    TextsRight(p, s, m, i, 0, i, names);
    if s.again(i) {
      TextsAreSteady(p, s, i, 0, names, MemoryAt(p, s, m, i), MemoryAt(p, s, m, i + 1));
    }
  }

  // ----- what is spelled more than once -----

  /** The text of x reads no memory. */
  ghost predicate Steady(p: Program, x: nat)
    requires p.Valid() && x < p.Count()
  {
    !Inlined(p, x) && (p.items[x].kind.Path? ==> Sink(p, x) < 0)
  }

  lemma {:induction false} TextIsSteady(p: Program, s: Meaning, x: nat, names: map<nat, Value>, m: Memory, now: Memory)
    requires p.Valid() && Fits(p, s) && x < p.Count() && Steady(p, x)
    ensures Eval(s, TextOf(p, x), names, m) == Eval(s, TextOf(p, x), names, now)
    decreases x, 9
  {
    if Spelled(p, x) {
      assert p.ItemOk(x);
      PathTextsAreSteady(p, s, x, 0, names, m, now);
    }
  }

  lemma {:induction false} PathTextsAreSteady(p: Program, s: Meaning, x: nat, k: nat, names: map<nat, Value>, m: Memory, now: Memory)
    requires p.Valid() && Fits(p, s) && x < p.Count() && k <= |p.items[x].operands|
    requires p.items[x].kind.Fixed? || (p.items[x].kind.Path? && Sink(p, x) < 0)
    ensures EvalAll(s, TextsOf(p, x, k), names, m) == EvalAll(s, TextsOf(p, x, k), names, now)
    decreases x, 1, |p.items[x].operands| - k
  {
    assert p.ItemOk(x);
    if k < |p.items[x].operands| {
      var o := p.items[x].operands[k];
      OperandSink(p, x, k);
      TextIsSteady(p, s, o, names, m, now);
      PathTextsAreSteady(p, s, x, k + 1, names, m, now);
      var ts := TextsOf(p, x, k);
      assert ts[0] == TextOf(p, o) && ts[1..] == TextsOf(p, x, k + 1);
    }
  }

  /** What an instruction spells more than once is not folded into it. */
  lemma {:induction false} TextsAreSteady(p: Program, s: Meaning, i: nat, k: nat, names: map<nat, Value>, m: Memory, now: Memory)
    requires p.Valid() && Fits(p, s) && i < p.Count() && p.items[i].weight > 1 && k <= |p.items[i].operands|
    ensures EvalAll(s, TextsOf(p, i, k), names, m) == EvalAll(s, TextsOf(p, i, k), names, now)
    decreases |p.items[i].operands| - k
  {
    if k < |p.items[i].operands| {
      var o := p.items[i].operands[k];
      assert p.ItemOk(i);
      HeavyUse(p, o, p.Count(), i);
      TextIsSteady(p, s, o, names, m, now);
      TextsAreSteady(p, s, i, k + 1, names, m, now);
      var ts := TextsOf(p, i, k);
      assert ts[0] == TextOf(p, o) && ts[1..] == TextsOf(p, i, k + 1);
    }
  }

  /** What is not written as a statement of its own changes nothing. */
  lemma {:induction false} SpelledHasNoEffect(p: Program, x: nat)
    requires p.Valid() && x < p.Count() && Spelled(p, x)
    ensures !p.items[x].effect
  {
    assert p.ItemOk(x);
    if p.items[x].kind.Pure? {
      assert x in p.items[User(p, x)].operands;
    }
  }

  /** The whole program: same final memory, same arguments to every effect, whatever was folded. */
  lemma {:induction false} InliningKeepsMeaning(p: Program, s: Meaning, m: Memory)
    requires p.Valid() && Fits(p, s)
    ensures var r := RunLines(p, s, Lines(p, p.Count()), m);
            r.At? && r.memory == MemoryAt(p, s, m, p.Count())
  {
    LinesRight(p, s, m, p.Count());
  }
}
