/** What commits do to runs: the committed function, run with its values and memory, does what the
    instructions do in the committed order when each operand is seen through its replacements. */
module EditRuns {
  import opened Ir
  import opened ControlFlow
  import opened Machine
  import opened SameShape
  import opened Semantics
  import opened DataRuns
  import opened EditModel
  import opened EditMeaning
  import opened EditInPlace

  // ----- the edits, run -----

  ghost function Through(e: Edits): nat -> nat
    requires e.ChainsOk()
  {
    (x: nat) => e.Resolve(x)
  }

  /** The instructions in the committed order, as they are; values go by the ids that compute them, and
      an operand is the value of what it resolves to. */
  ghost function Recorded(e: Edits, homes: seq<Value>): (s: Stream)
    requires e.Contract() && |homes| == |Layout(e)|
    ensures s.Sized() && |s.insts| == |Layout(e)| && s.homes == homes && s.sees == Through(e)
    ensures forall p: nat {:trigger s.insts[p]} {:trigger s.names[p]} {:trigger s.lists[p]} :: p < |Layout(e)| ==>
              && s.names[p] == PlacedAt(e, p) && s.insts[p] == e.Get(PlacedAt(e, p))
              && s.lists[p] == ListAt(e.Fn(), s.insts[p])
  {
    LayoutIsTheOrder(e);
    PlacedOnce(e);
    var n := |Layout(e)|;
    Stream(seq(n, p requires 0 <= p < n => e.Get(PlacedAt(e, p))),
           seq(n, p requires 0 <= p < n => ListAt(e.Fn(), e.Get(PlacedAt(e, p)))),
           Layout(e), homes, Through(e))
  }

  lemma {:induction false} PlacedOnce(e: Edits)
    requires e.Shaped()
    ensures forall p, q :: 0 <= p < q < |Layout(e)| ==> Layout(e)[p] != Layout(e)[q]
  {
    LayoutIsTheOrder(e);
    forall p, q | 0 <= p < q < |Layout(e)|
      ensures Layout(e)[p] != Layout(e)[q]
    {
      BeforeIsStrictOrder(e, Layout(e)[p], Layout(e)[q], Layout(e)[p]);
    }
  }

  // ----- the compacting commit -----

  ghost function Compacted(e: Edits, homes: seq<Value>): (s: Stream)
    requires e.Contract() && |homes| == |Layout(e)|
  {
    Plain(Committed(e), homes)
  }

  lemma {:induction false} OperandNamed(e: Edits, homes: seq<Value>, x: nat, y: nat)
    requires e.Contract() && |homes| == |Layout(e)| && y < |Layout(e)| && PlacedAt(e, y) == e.Resolve(x)
    ensures SameName(Recorded(e, homes), Compacted(e, homes), x, y)
  {
    var s, t := Recorded(e, homes), Compacted(e, homes);
    assert s.names[y] == e.Resolve(x) == s.sees(x) && t.names[y] == y == t.sees(y);
    assert NamedAt(s, t, x, y, y);
  }

  lemma {:induction false} CompactedLists(e: Edits, homes: seq<Value>, p: nat)
    requires e.Contract() && |homes| == |Layout(e)| && p < |Layout(e)|
    ensures var s, t, inst, now := Recorded(e, homes), Compacted(e, homes), e.Get(PlacedAt(e, p)), CommittedInst(e, p);
            && s.insts[p] == inst && t.insts[p] == now && now.op == inst.op && now.auxCount == inst.auxCount
            && if inst.op.Nop? then s.lists[p] == t.lists[p] == []
               else AuxInPool(e.Fn(), inst) && AuxInPool(Committed(e), now) &&
                    s.lists[p] == ListOf(e.Fn(), inst) && t.lists[p] == ListOf(Committed(e), now)
  {
    CommitIsDense(e);
    assert e.Placed(PlacedAt(e, p)) && AuxInPool(e.Fn(), e.Get(PlacedAt(e, p)));
    assert Compacted(e, homes).insts[p] == CommittedInst(e, p);
  }

  lemma {:induction false} CompactedInst(e: Edits, homes: seq<Value>, p: nat)
    requires e.Contract() && |homes| == |Layout(e)| && p < |Layout(e)|
    ensures InstSame(Recorded(e, homes), Compacted(e, homes), p)
  {
    var s, t := Recorded(e, homes), Compacted(e, homes);
    CompactedLists(e, homes, p);
    forall a: nat | a < 4
      ensures ArgSame(s, t, p, a)
    {
      CompactedArg(e, homes, p, a);
    }
    forall k: nat | k < |s.lists[p]|
      ensures EntrySame(s, t, p, k)
    {
      CompactedEntry(e, homes, p, k);
    }
    MarkerKept(e, p);
  }

  lemma {:induction false} CompactedArg(e: Edits, homes: seq<Value>, p: nat, a: nat)
    requires e.Contract() && |homes| == |Layout(e)| && p < |Layout(e)| && a < 4
    ensures ArgSame(Recorded(e, homes), Compacted(e, homes), p, a)
  {
    var inst, now := e.Get(PlacedAt(e, p)), CommittedInst(e, p);
    CompactedLists(e, homes, p);
    ArgMoved(e, p, a);
    if a in ValueArgMask(inst) { OperandNamed(e, homes, inst.args[a], now.args[a]); }
  }

  lemma {:induction false} CompactedEntry(e: Edits, homes: seq<Value>, p: nat, k: nat)
    requires e.Contract() && |homes| == |Layout(e)| && p < |Layout(e)| && k < |Recorded(e, homes).lists[p]|
    ensures var s, t := Recorded(e, homes), Compacted(e, homes); |s.lists[p]| == |t.lists[p]| && EntrySame(s, t, p, k)
  {
    CompactedLists(e, homes, p);
    CompactedSlot(e, homes, p, e.Get(PlacedAt(e, p)), k, Recorded(e, homes).lists[p][k], Compacted(e, homes).lists[p][k]);
  }

  lemma {:induction false} CompactedSlot(e: Edits, homes: seq<Value>, p: nat, inst: Inst, k: nat, x: nat, y: nat)
    requires e.Contract() && |homes| == |Layout(e)| && p < |Layout(e)| && inst == e.Get(PlacedAt(e, p)) && k < inst.auxCount
    requires AuxInPool(e.Fn(), inst) && AuxInPool(Committed(e), CommittedInst(e, p)) && x == ListOf(e.Fn(), inst)[k]
    requires CommittedInst(e, p).auxCount == inst.auxCount && y == ListOf(Committed(e), CommittedInst(e, p))[k]
    ensures if AuxHoldsValues(inst.op) then SameName(Recorded(e, homes), Compacted(e, homes), x, y) else x == y
  {
    SlotMoved(e, p, k);
    if AuxHoldsValues(inst.op) { OperandNamed(e, homes, x, y); }
  }

  lemma {:induction false} MarkerKept(e: Edits, p: nat)
    requires e.Contract() && p < |Layout(e)|
    ensures SameMarker(e.Get(PlacedAt(e, p)), CommittedInst(e, p))
  {
    ArgMoved(e, p, 0);
    ArgMoved(e, p, 1);
    LayoutFits(e);
  }

  lemma {:induction false} CompactedIsSame(e: Edits, homes: seq<Value>)
    requires e.Contract() && |homes| == |Layout(e)|
    ensures SameProgram(Recorded(e, homes), Compacted(e, homes))
  {
    forall p: nat | p < |Layout(e)|
      ensures InstSame(Recorded(e, homes), Compacted(e, homes), p)
    {
      CompactedInst(e, homes, p);
    }
  }

  /** Whatever a run of the recorded edits does, step by step, a run of the committed function does, with
      the same memory and the same values, and the other way round. */
  lemma {:induction false} CompactingKeepsRuns(w: World, e: Edits, homes: seq<Value>, run: seq<Config>, c: Config)
    requires e.Contract() && |homes| == |Layout(e)|
    ensures var s, t := Recorded(e, homes), Compacted(e, homes);
            && (IsDataRun(w, s, run) && SameConfig(s, t, run[0], c) ==>
                  exists run' :: IsDataRun(w, t, run') && run'[0] == c && RunsTogether(s, t, run, run'))
            && (IsDataRun(w, t, run) && SameConfig(t, s, run[0], c) ==>
                  exists run' :: IsDataRun(w, s, run') && run'[0] == c && RunsTogether(t, s, run, run'))
  {
    var s, t := Recorded(e, homes), Compacted(e, homes);
    CompactedIsSame(e, homes);
    ProgramBack(s, t);
    if IsDataRun(w, s, run) && SameConfig(s, t, run[0], c) {
      var run' := RunFollows(w, s, t, run, c);
    }
    if IsDataRun(w, t, run) && SameConfig(t, s, run[0], c) {
      var run' := RunFollows(w, t, s, run, c);
    }
  }

  /** The committed function gets where the recorded edits do, with the same memory. */
  lemma {:induction false} CompactingKeepsMeaning(w: World, e: Edits, homes: seq<Value>, m: Memory, at: State, now: Memory)
    requires e.Contract() && |homes| == |Layout(e)|
    ensures GetsTo(w, Recorded(e, homes), m, at, now) <==> GetsTo(w, Compacted(e, homes), m, at, now)
  {
    CompactedIsSame(e, homes);
    SameProgramsDoTheSame(w, Recorded(e, homes), Compacted(e, homes), m, at, now);
  }

  // ----- the in-place commit -----

  /** Every instruction where it was, the dead ones doing nothing. */
  ghost function Standing(e: Edits, homes: seq<Value>): (s: Stream)
    requires e.Contract() && |homes| == e.Base()
    ensures s.Sized() && |s.insts| == e.Base() && s.homes == homes && s.sees == Through(e)
    ensures forall i: nat {:trigger s.insts[i]} {:trigger s.names[i]} {:trigger s.lists[i]} :: i < e.Base() ==>
              s.names[i] == i && s.insts[i] == StandingInst(e, i) && s.lists[i] == ListAt(e.Fn(), StandingInst(e, i))
  {
    var n := e.Base();
    Stream(seq(n, i requires 0 <= i < n => StandingInst(e, i)),
           seq(n, i requires 0 <= i < n => ListAt(e.Fn(), StandingInst(e, i))),
           seq<nat>(n, i => i), homes, Through(e))
  }

  function StandingInst(e: Edits, i: nat): Inst
    requires e.Shaped() && i < e.Base()
  {
    if e.repl[i] == 0 then e.insts[i] else NopOf(e.insts[i])
  }

  ghost function InPlace(e: Edits, homes: seq<Value>): (s: Stream)
    requires e.Contract() && |homes| == e.Base()
  {
    Plain(Redirected(e), homes)
  }

  lemma {:induction false} StandingNamed(e: Edits, homes: seq<Value>, i: nat, x: nat)
    requires e.Contract() && e.added == [] && |homes| == e.Base() && i < e.Base() && e.UseOk(i, x)
    ensures SameName(Standing(e, homes), InPlace(e, homes), x, e.Resolve(x))
  {
    var s, t, y := Standing(e, homes), InPlace(e, homes), e.Resolve(x);
    assert s.names[y] == y == s.sees(x) && t.names[y] == y == t.sees(y);
    assert NamedAt(s, t, x, y, y);
  }

  lemma {:induction false} StandingEntry(e: Edits, homes: seq<Value>, i: nat, k: nat)
    requires e.Contract() && e.added == [] && LiteralsStay(e) && |homes| == e.Base() && i < e.Base() && e.Live(i)
    requires k < e.insts[i].auxCount
    ensures var s, t := Standing(e, homes), InPlace(e, homes);
            |s.lists[i]| == |t.lists[i]| == e.insts[i].auxCount && EntrySame(s, t, i, k)
  {
    EntryStands(e, homes, i, k);
    StandingSlot(e, homes, i, k, Standing(e, homes).lists[i][k], InPlace(e, homes).lists[i][k]);
  }

  lemma {:induction false} EntryStands(e: Edits, homes: seq<Value>, i: nat, k: nat)
    requires e.Contract() && e.added == [] && |homes| == e.Base() && i < e.Base() && e.Live(i) && k < e.insts[i].auxCount
    ensures var s, t, at := Standing(e, homes), InPlace(e, homes), e.insts[i].aux + k;
            && s.insts[i] == e.insts[i] && |s.lists[i]| == |t.lists[i]| == e.insts[i].auxCount && at < |e.aux|
            && s.lists[i][k] == e.aux[at] && t.lists[i][k] == RedirectAux(e)[at]
  {
    ListsStand(e, homes, i);
    ListEntry(e.Fn(), e.insts[i], k);
    ListEntry(Redirected(e), RedirectInst(e, i), k);
  }

  lemma {:induction false} ListEntry(f: Func, inst: Inst, k: nat)
    requires AuxInPool(f, inst) && k < inst.auxCount
    ensures inst.aux + k < |f.aux| && ListOf(f, inst)[k] == f.aux[inst.aux + k]
  {
  }

  lemma {:induction false} StandingSlot(e: Edits, homes: seq<Value>, i: nat, k: nat, x: nat, y: nat)
    requires e.Contract() && e.added == [] && LiteralsStay(e) && |homes| == e.Base() && i < e.Base() && e.Live(i)
    requires k < e.insts[i].auxCount && e.insts[i].aux + k < |e.aux| && x == e.aux[e.insts[i].aux + k]
    requires y == RedirectAux(e)[e.insts[i].aux + k]
    ensures if AuxHoldsValues(e.insts[i].op) then SameName(Standing(e, homes), InPlace(e, homes), x, y) else x == y
  {
    AfterSlot(e, i, e.insts[i].aux + k);
    if AuxHoldsValues(e.insts[i].op) { StandingNamed(e, homes, i, x); }
  }

  lemma {:induction false} LiveStands(e: Edits, homes: seq<Value>, i: nat)
    requires e.Contract() && e.added == [] && LiteralsStay(e) && |homes| == e.Base() && i < e.Base() && e.Live(i)
    ensures InstSame(Standing(e, homes), InPlace(e, homes), i)
  {
    var s, t := Standing(e, homes), InPlace(e, homes);
    AfterInst(e, i);
    assert s.insts[i] == e.insts[i] && t.insts[i] == After(e).insts[i];
    forall a: nat | a < 4
      ensures ArgSame(s, t, i, a)
    {
      if a in ValueArgMask(e.insts[i]) { StandingNamed(e, homes, i, e.insts[i].args[a]); }
    }
    ListsStand(e, homes, i);
    forall k: nat | k < |s.lists[i]|
      ensures EntrySame(s, t, i, k)
    {
      StandingEntry(e, homes, i, k);
    }
  }

  lemma {:induction false} ListsStand(e: Edits, homes: seq<Value>, i: nat)
    requires e.Contract() && e.added == [] && |homes| == e.Base() && i < e.Base() && e.Live(i)
    ensures var s, t, inst, now := Standing(e, homes), InPlace(e, homes), e.insts[i], RedirectInst(e, i);
            && s.insts[i] == inst && t.insts[i] == now && now.op == inst.op && now.aux == inst.aux && now.auxCount == inst.auxCount
            && AuxInPool(e.Fn(), inst) && AuxInPool(Redirected(e), now)
            && s.lists[i] == ListOf(e.Fn(), inst) && t.lists[i] == ListOf(Redirected(e), now)
  {
    assert Standing(e, homes).insts[i] == e.insts[i];
    assert e.Get(i) == e.insts[i] && AuxInPool(e.Fn(), e.Get(i));
  }

  lemma {:induction false} DeadStands(e: Edits, homes: seq<Value>, i: nat)
    requires e.Contract() && |homes| == e.Base() && i < e.Base() && !e.Live(i)
    ensures InstSame(Standing(e, homes), InPlace(e, homes), i)
  {
    var s, t := Standing(e, homes), InPlace(e, homes);
    assert s.insts[i] == t.insts[i] && s.insts[i].op.Nop?;
    assert ValueArgMask(s.insts[i]) == {};
    assert s.lists[i] == t.lists[i] == [];
  }

  lemma {:induction false} InPlaceIsSame(e: Edits, homes: seq<Value>)
    requires e.Contract() && e.added == [] && LiteralsStay(e) && |homes| == e.Base()
    ensures SameProgram(Standing(e, homes), InPlace(e, homes))
  {
    forall i: nat | i < e.Base()
      ensures InstSame(Standing(e, homes), InPlace(e, homes), i)
    {
      if e.Live(i) { LiveStands(e, homes, i); } else { DeadStands(e, homes, i); }
    }
  }

  /** The same for a commit in place, unless a literal shares its slot with a replaced operand. */
  lemma {:induction false} InPlaceKeepsRuns(w: World, e: Edits, homes: seq<Value>, run: seq<Config>, c: Config)
    requires e.Contract() && e.added == [] && LiteralsStay(e) && |homes| == e.Base()
    ensures var s, t := Standing(e, homes), InPlace(e, homes);
            && (IsDataRun(w, s, run) && SameConfig(s, t, run[0], c) ==>
                  exists run' :: IsDataRun(w, t, run') && run'[0] == c && RunsTogether(s, t, run, run'))
            && (IsDataRun(w, t, run) && SameConfig(t, s, run[0], c) ==>
                  exists run' :: IsDataRun(w, s, run') && run'[0] == c && RunsTogether(t, s, run, run'))
  {
    var s, t := Standing(e, homes), InPlace(e, homes);
    InPlaceIsSame(e, homes);
    ProgramBack(s, t);
    if IsDataRun(w, s, run) && SameConfig(s, t, run[0], c) {
      var run' := RunFollows(w, s, t, run, c);
    }
    if IsDataRun(w, t, run) && SameConfig(t, s, run[0], c) {
      var run' := RunFollows(w, t, s, run, c);
    }
  }

  lemma {:induction false} InPlaceKeepsMeaning(w: World, e: Edits, homes: seq<Value>, m: Memory, at: State, now: Memory)
    requires e.Contract() && e.added == [] && LiteralsStay(e) && |homes| == e.Base()
    ensures GetsTo(w, Standing(e, homes), m, at, now) <==> GetsTo(w, InPlace(e, homes), m, at, now)
  {
    InPlaceIsSame(e, homes);
    SameProgramsDoTheSame(w, Standing(e, homes), InPlace(e, homes), m, at, now);
  }
}
