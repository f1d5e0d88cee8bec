/** The body emitter of the WGSL back end over straight-line code: it counts uses, decides what to
    fold, and writes the lines. */
module WgslBody {
  import opened Ir
  import opened Machine
  import opened Semantics
  import opened DataRuns
  import opened StraightLine
  import opened Inlining
  import opened InlinedText
  import opened WgslView
  import opened WgslMeaning

  // ----- counting uses -----

  /** The counters once the first i instructions and, of instruction i, the operands `seen` have
      been noted. */
  ghost predicate Counted(p: Program, uses: seq<nat>, last: seq<int>, i: nat, seen: seq<nat>)
    requires p.Valid() && i < p.Count()
  {
    |uses| == |last| == p.Count() &&
    forall x: nat {:trigger uses[x]} {:trigger last[x]} :: x < p.Count() ==>
      uses[x] == Uses(p, x, i) + p.items[i].weight * CountIn(seen, x) &&
      last[x] == if x in seen then i else LastUse(p, x, i)
  }

  /** The counters once the first n instructions have been noted. */
  ghost predicate AllCounted(p: Program, uses: seq<nat>, last: seq<int>, n: nat)
    requires p.Valid() && n <= p.Count()
  {
    |uses| == |last| == p.Count() &&
    forall x: nat {:trigger uses[x]} {:trigger last[x]} :: x < p.Count() ==>
      uses[x] == Uses(p, x, n) && last[x] == LastUse(p, x, n)
  }

  ghost predicate EffectsCounted(p: Program, effects: seq<nat>, n: nat)
    requires n <= p.Count()
  {
    |effects| == p.Count() + 1 && forall k: nat {:trigger effects[k]} :: k <= n ==> effects[k] == EffectsBefore(p, k)
  }

  lemma {:induction false} NothingSeen(p: Program, uses: seq<nat>, last: seq<int>, i: nat)
    requires p.Valid() && i < p.Count() && AllCounted(p, uses, last, i)
    ensures Counted(p, uses, last, i, [])
  {
    assert forall x :: CountIn([], x) == 0;
  }

  lemma {:induction false} AllSeen(p: Program, uses: seq<nat>, last: seq<int>, i: nat)
    requires p.Valid() && i < p.Count() && Counted(p, uses, last, i, p.items[i].operands)
    ensures AllCounted(p, uses, last, i + 1)
  {
  }

  lemma {:induction false} CountSnoc(s: seq<nat>, v: nat, x: nat)
    ensures CountIn(s + [v], x) == CountIn(s, x) + if v == x then 1 else 0
    ensures x in s + [v] <==> x in s || x == v
  {
    assert (s + [v])[..|s|] == s;
  }

  lemma {:induction false} NoteCounts(p: Program, uses: seq<nat>, last: seq<int>, i: nat, seen: seq<nat>, v: nat)
    requires p.Valid() && i < p.Count() && Counted(p, uses, last, i, seen) && v < p.Count()
    ensures Counted(p, uses[v := uses[v] + p.items[i].weight], last[v := i], i, seen + [v])
  {
    forall x: nat | x < p.Count()
      ensures uses[v := uses[v] + p.items[i].weight][x] == Uses(p, x, i) + p.items[i].weight * CountIn(seen + [v], x)
      ensures last[v := i][x] == if x in seen + [v] then i else LastUse(p, x, i)
    {
      CountSnoc(seen, v, x);
      Distribute(p.items[i].weight, CountIn(seen, x));
    }
  }

  lemma {:induction false} Distribute(w: nat, n: nat)
    ensures w * (n + 1) == w * n + w
  {
  }

  class Analysis {
    const uses: array<nat>
    const last: array<int>
    const effects: array<nat>
    const sink: array<int>
    const ok: array<bool>

    predicate Sized(n: nat)
    {
      && uses.Length == last.Length == sink.Length == ok.Length == n && effects.Length == n + 1
      && uses != effects && last != sink
    }

    constructor (n: nat)
      ensures Sized(n)
      ensures fresh(uses) && fresh(last) && fresh(effects) && fresh(sink) && fresh(ok)
      ensures forall x :: 0 <= x < n ==> uses[x] == 0 && last[x] == -1
      ensures effects[0] == 0
    {
      uses := new nat[n](_ => 0);
      last := new int[n](_ => -1);
      effects := new nat[n + 1](_ => 0);
      sink := new int[n](_ => 0);
      ok := new bool[n](_ => false);
    }

    method Note(p: Program, i: nat, v: nat, w: nat, ghost seen: seq<nat>)
      requires p.Valid() && i < p.Count() && Sized(p.Count()) && w == p.items[i].weight && v < p.Count()
      requires Counted(p, uses[..], last[..], i, seen)
      modifies uses, last
      ensures Counted(p, uses[..], last[..], i, seen + [v])
    {
      NoteCounts(p, uses[..], last[..], i, seen, v);
      ghost var u, l := uses[..], last[..];
      uses[v] := uses[v] + w;
      last[v] := i;
      assert uses[..] == u[v := u[v] + w] && last[..] == l[v := i];
    }

    method NoteArgs(f: Func, p: Program, i: nat)
      requires p.Valid() && p.Count() == |f.insts| && i < p.Count() && Sized(p.Count())
      requires p.items[i].weight == Weight(f.insts[i]) && Counted(p, uses[..], last[..], i, [])
      modifies uses, last
      ensures Counted(p, uses[..], last[..], i, ArgsTo(f, i, 4))
    {
      var mask := ValueArgMask(f.insts[i]);
      for a := 0 to 4
        invariant Counted(p, uses[..], last[..], i, ArgsTo(f, i, a))
      {
        NoteArg(f, p, i, a, a in mask);
      }
    }

    method NoteArg(f: Func, p: Program, i: nat, a: nat, used: bool)
      requires p.Valid() && p.Count() == |f.insts| && i < p.Count() && Sized(p.Count()) && a < 4
      requires used <==> a in ValueArgMask(f.insts[i])
      requires p.items[i].weight == Weight(f.insts[i]) && Counted(p, uses[..], last[..], i, ArgsTo(f, i, a))
      modifies uses, last
      ensures Counted(p, uses[..], last[..], i, ArgsTo(f, i, a + 1))
    {
      var v := f.insts[i].args[a];
      NextArg(f, i, a);
      if used && v < |f.insts| {
        Note(p, i, v, Weight(f.insts[i]), ArgsTo(f, i, a));
      }
    }

    method NoteEntry(f: Func, p: Program, i: nat, k: nat, ghost args: seq<nat>)
      requires p.Valid() && p.Count() == |f.insts| && i < p.Count() && Sized(p.Count())
      requires AuxInPool(f, f.insts[i]) && k < f.insts[i].auxCount
      requires p.items[i].weight == Weight(f.insts[i])
      requires Counted(p, uses[..], last[..], i, args + AuxTo(f, i, k))
      modifies uses, last
      ensures Counted(p, uses[..], last[..], i, args + AuxTo(f, i, k + 1))
    {
      var v := f.aux[f.insts[i].aux + k];
      if v < |f.insts| {
        Note(p, i, v, Weight(f.insts[i]), args + AuxTo(f, i, k));
        assert args + AuxTo(f, i, k) + [v] == args + AuxTo(f, i, k + 1);
      } else {
        assert AuxTo(f, i, k + 1) == AuxTo(f, i, k);
      }
    }

    method NoteAux(f: Func, p: Program, i: nat, ghost args: seq<nat>)
      requires p.Valid() && p.Count() == |f.insts| && i < p.Count() && Sized(p.Count())
      requires AuxInPool(f, f.insts[i])
      requires p.items[i].weight == Weight(f.insts[i]) && Counted(p, uses[..], last[..], i, args)
      modifies uses, last
      ensures Counted(p, uses[..], last[..], i, args + AuxTo(f, i, f.insts[i].auxCount))
    {
      var inst := f.insts[i];
      assert args + [] == args;
      for k := 0 to inst.auxCount
        invariant Counted(p, uses[..], last[..], i, args + AuxTo(f, i, k))
      {
        NoteEntry(f, p, i, k, args);
      }
    }

    method NoteOperands(f: Func, facts: seq<Facts>, p: Program, i: nat)
      requires IsOrdered(f, facts) && p == View(f, facts) && p.Valid() && i < p.Count() && Sized(p.Count())
      requires AllCounted(p, uses[..], last[..], i)
      modifies uses, last
      ensures AllCounted(p, uses[..], last[..], i + 1)
    {
      NothingSeen(p, uses[..], last[..], i);
      NoteArgs(f, p, i);
      if AuxHoldsValues(f.insts[i].op) {
        NoteAux(f, p, i, ArgsTo(f, i, 4));
      } else {
        assert OperandsOf(f, i) == ArgsTo(f, i, 4);
      }
      AllSeen(p, uses[..], last[..], i);
    }

    method NoteEffect(p: Program, i: nat, effect: bool)
      requires p.Valid() && i < p.Count() && Sized(p.Count()) && effect == p.items[i].effect
      requires EffectsCounted(p, effects[..], i)
      modifies effects
      ensures EffectsCounted(p, effects[..], i + 1)
    {
      ghost var before := effects[..];
      assert before[i] == effects[i];
      effects[i + 1] := effects[i] + if effect then 1 else 0;
      assert effects[..] == before[i + 1 := before[i] + if effect then 1 else 0];
    }

    method CountUses(f: Func, facts: seq<Facts>, p: Program)
      requires IsOrdered(f, facts) && p == View(f, facts) && p.Valid() && Sized(p.Count())
      requires forall x :: 0 <= x < p.Count() ==> uses[x] == 0 && last[x] == -1
      requires effects[0] == 0
      modifies uses, last, effects
      ensures AllCounted(p, uses[..], last[..], p.Count())
      ensures EffectsCounted(p, effects[..], p.Count())
    {
      for i := 0 to |f.insts|
        invariant AllCounted(p, uses[..], last[..], i)
        invariant EffectsCounted(p, effects[..], i)
      {
        NoteInst(f, facts, p, i);
      }
    }

    method NoteInst(f: Func, facts: seq<Facts>, p: Program, i: nat)
      requires IsOrdered(f, facts) && p == View(f, facts) && p.Valid() && i < p.Count() && Sized(p.Count())
      requires AllCounted(p, uses[..], last[..], i) && EffectsCounted(p, effects[..], i)
      modifies uses, last, effects
      ensures AllCounted(p, uses[..], last[..], i + 1) && EffectsCounted(p, effects[..], i + 1)
    {
      NoteEffect(p, i, HasEffect(f.insts[i], facts[i]));
      NoteOperands(f, facts, p, i);
    }

    /** Decided for instructions n and up. */
    ghost predicate Decided(p: Program, n: nat)
      requires p.Valid() && n <= p.Count() && Sized(p.Count())
      reads sink, ok
    {
      forall x: nat {:trigger sink[x]} {:trigger ok[x]} :: n <= x < p.Count() ==>
        sink[x] == Sink(p, x) && ok[x] == Inlined(p, x)
    }

    method Decide(p: Program, i: nat)
      requires p.Valid() && i < p.Count() && Sized(p.Count()) && Decided(p, i + 1)
      requires AllCounted(p, uses[..], last[..], p.Count())
      requires EffectsCounted(p, effects[..], p.Count())
      modifies sink, ok
      ensures Decided(p, i)
    {
      assert uses[..][i] == uses[i] && last[..][i] == last[i];
      assert forall k :: 0 <= k <= p.Count() ==> effects[..][k] == effects[k];
      var single := uses[i] == 1 && last[i] >= 0;
      assert single <==> UsedOnce(p, i);
      assert single ==> last[i] == User(p, i);
      sink[i], ok[i] := i, false;
      if p.items[i].kind.Path? {
        sink[i] := if single then sink[last[i]] else -1;
        return;
      }
      if !single {
        return;
      }
      var s := sink[last[i]];
      if s < 0 {
        return;
      }
      if p.items[i].kind.Pure? || (p.items[i].kind.Read? && effects[s] as int - effects[i + 1] == 0) {
        ok[i], sink[i] := true, s;
      }
    }

    method DecideAll(p: Program)
      requires p.Valid() && Sized(p.Count())
      requires AllCounted(p, uses[..], last[..], p.Count())
      requires EffectsCounted(p, effects[..], p.Count())
      modifies sink, ok
      ensures Decided(p, 0)
    {
      for i := p.Count() downto 0
        invariant Decided(p, i)
      {
        Decide(p, i);
      }
    }
  }

  /** Which values fold into their use. */
  method InlineAnalyze(f: Func, facts: seq<Facts>, p: Program) returns (ok: array<bool>)
    requires IsOrdered(f, facts) && p == View(f, facts) && p.Valid()
    ensures ok.Length == p.Count() && forall x: nat {:trigger ok[x]} :: x < p.Count() ==> ok[x] == Inlined(p, x)
  {
    var a := new Analysis(|f.insts|);
    a.CountUses(f, facts, p);
    a.DecideAll(p);
    ok := a.ok;
  }

  // ----- writing the lines -----

  /** The text of a value, given the expressions folded so far. */
  function Val(p: Program, folded: seq<Option<Tree>>, x: nat): Tree
    requires p.Valid() && x < p.Count() <= |folded|
    decreases x, 9
  {
    if folded[x].Some? then folded[x].value
    else match p.items[x].kind
      case Fixed => Node(x, [])
      case Path => Node(x, Vals(p, folded, x, 0))
      case _ => Name(x)
  }

  function Vals(p: Program, folded: seq<Option<Tree>>, i: nat, k: nat): seq<Tree>
    requires p.Valid() && i < p.Count() <= |folded| && k <= |p.items[i].operands|
    decreases i, 1, |p.items[i].operands| - k
  {
    if k == |p.items[i].operands| then []
    else [Val(p, folded, p.items[i].operands[k])] + Vals(p, folded, i, k + 1)
  }

  /** Below n, exactly the values the analysis chose are folded, each as its text. */
  ghost predicate FoldedRight(p: Program, folded: seq<Option<Tree>>, n: nat)
    requires p.Valid() && n <= p.Count() == |folded|
  {
    forall x: nat {:trigger folded[x]} :: x < n ==>
      folded[x] == if Inlined(p, x) then Some(TextOf(p, x)) else None
  }

  lemma {:induction false} ValRight(p: Program, folded: seq<Option<Tree>>, n: nat, x: nat)
    requires p.Valid() && x < n <= p.Count() == |folded| && FoldedRight(p, folded, n)
    ensures Val(p, folded, x) == TextOf(p, x)
    decreases x, 9
  {
    assert folded[x] == if Inlined(p, x) then Some(TextOf(p, x)) else None;
    if p.items[x].kind.Path? && folded[x].None? {
      ValsRight(p, folded, n, x, 0);
    }
  }

  lemma {:induction false} ValsRight(p: Program, folded: seq<Option<Tree>>, n: nat, i: nat, k: nat)
    requires p.Valid() && i <= n <= p.Count() == |folded| && i < p.Count() && FoldedRight(p, folded, n)
    requires k <= |p.items[i].operands|
    ensures Vals(p, folded, i, k) == TextsOf(p, i, k)
    decreases i, 1, |p.items[i].operands| - k
  {
    if k < |p.items[i].operands| {
      ValRight(p, folded, n, p.items[i].operands[k]);
      ValsRight(p, folded, n, i, k + 1);
    }
  }

  method EmitBody(p: Program, ok: array<bool>) returns (lines: seq<Line>)
    requires p.Valid() && ok.Length == p.Count()
    requires forall x: nat {:trigger ok[x]} :: x < p.Count() ==> ok[x] == Inlined(p, x)
    ensures lines == Lines(p, p.Count())
  {
    lines := [];
    var folded: seq<Option<Tree>> := seq(p.Count(), _ => None);
    for i := 0 to p.Count()
      invariant |folded| == p.Count() && FoldedRight(p, folded, i)
      invariant forall x: nat {:trigger folded[x]} :: i <= x < p.Count() ==> folded[x] == None
      invariant lines == Lines(p, i)
    {
      if !p.items[i].kind.Fixed? && !p.items[i].kind.Path? {
        ValsRight(p, folded, i, i, 0);
        var text := Node(i, Vals(p, folded, i, 0));
        if ok[i] {
          folded := folded[i := Some(text)];
        } else {
          lines := lines + [Line(i, text)];
        }
      }
    }
  }

  /** The body of a straight-line function, written out. Run line by line, on any machine and from any
      memory, it ends with the memory that the function ends with when its instructions run one after
      the other. */
  method EmitFunction(f: Func, facts: seq<Facts>) returns (lines: seq<Line>)
    requires IsOrdered(f, facts) && NoMarkers(f)
    ensures View(f, facts).Valid() && lines == Lines(View(f, facts), |f.insts|)
    ensures forall w: World, homes: seq<Value>, m: Memory :: |homes| == |f.insts| && Suits(w, f, facts) ==>
              LinesDo(w, f, facts, homes, lines, m)
  {
    ViewIsValid(f, facts);
    var p := View(f, facts);
    var ok := InlineAnalyze(f, facts, p);
    lines := EmitBody(p, ok);
    forall w: World, homes: seq<Value>, m: Memory | |homes| == |f.insts| && Suits(w, f, facts)
      ensures LinesDo(w, f, facts, homes, lines, m)
    {
      LinesDoAsInstructions(w, f, facts, homes, m);
    }
  }
}
