/** Facts the compacting commit's loops need: positions of ids, and the size of the new pool. */
module EditPositions {
  import opened Ir
  import opened EditModel
  import opened EditMeaning
  import opened EditBuckets

  /** Every id of s has its index in s as its position. */
  ghost predicate Positioned(e: Edits, s: seq<nat>, newpos: seq<nat>) {
    |newpos| == e.Total() && forall p :: 0 <= p < |s| ==> s[p] < e.Total() && newpos[s[p]] == p
  }

  /** The finished positions: every placed id's, and NONE for the dead originals. */
  ghost predicate Planned(e: Edits, newpos: seq<nat>) {
    e.Shaped() && Positioned(e, Layout(e), newpos) &&
    forall i :: 0 <= i < e.Base() && !e.Live(i) ==> newpos[i] == NONE
  }

  /** The result of the counting sort. */
  ghost predicate Sorting(e: Edits, start: seq<nat>, order: seq<nat>) {
    e.Shaped() && |start| == e.Base() + 2 && Filled(e.anchor, e.Base(), |e.anchor|, order) &&
    forall a {:trigger start[a]} :: 0 <= a <= e.Base() + 1 ==> start[a] == Start(e.anchor, a, |e.anchor|)
  }

  lemma {:induction false} BucketRun(e: Edits, start: seq<nat>, order: seq<nat>, i: nat)
    requires Sorting(e, start, order) && i <= e.Base()
    ensures start[i + 1] == start[i] + |InsertsAt(e, i)| && start[i + 1] <= |order| == |e.added|
  {
    assert RunAt(order, Start(e.anchor, i, |e.anchor|), Bucket(e.anchor, i, |e.anchor|));
  }

  lemma {:induction false} BucketEntry(e: Edits, start: seq<nat>, order: seq<nat>, i: nat, q: nat)
    requires Sorting(e, start, order) && i <= e.Base() && q < |InsertsAt(e, i)|
    ensures start[i] + q < |order| && order[start[i] + q] < |e.added|
    ensures e.Base() + order[start[i] + q] == InsertsAt(e, i)[q]
  {
    assert RunAt(order, Start(e.anchor, i, |e.anchor|), Bucket(e.anchor, i, |e.anchor|));
    RunIndex(order, Start(e.anchor, i, |e.anchor|), Bucket(e.anchor, i, |e.anchor|), q);
    BucketMember(e.anchor, i, |e.anchor|, q);
  }

  ghost predicate Finals(e: Edits, final: seq<nat>)
  {
    e.ChainsOk() && |final| == e.Total() && forall v :: 0 <= v < |final| ==> final[v] == FinalId(e, v)
  }

  /** The instructions from i on are still there to be read. */
  predicate Unread(e: Edits, insts: seq<Inst>, i: nat) {
    |insts| == e.Base() && forall j :: i <= j < |insts| ==> insts[j] == e.insts[j]
  }

  lemma {:induction false} PositionNext(e: Edits, s: seq<nat>, v: nat, newpos: seq<nat>)
    requires Positioned(e, s, newpos) && v < e.Total() && v !in s
    ensures Positioned(e, s + [v], newpos[v := |s|])
  {
  }

  /** The layout up to the j-th insert anchored at i. */
  function InsertsTo(e: Edits, i: nat, j: nat): seq<nat>
    requires e.Shaped() && i <= e.Base() && j <= |InsertsAt(e, i)|
  {
    LayoutTo(e, i) + InsertsAt(e, i)[..j]
  }

  lemma {:induction false} InsertIsNew(e: Edits, i: nat, j: nat)
    requires e.Shaped() && i <= e.Base() && j < |InsertsAt(e, i)|
    ensures e.Base() <= InsertsAt(e, i)[j] < e.Total() && InsertsAt(e, i)[j] !in InsertsTo(e, i, j)
    ensures InsertsTo(e, i, j + 1) == InsertsTo(e, i, j) + [InsertsAt(e, i)[j]]
  {
    LayoutToSorted(e, i);
    AppendInserts(e, LayoutTo(e, i), i);
    InsertsAtSorted(e, i);
    var s, at := LayoutTo(e, i) + InsertsAt(e, i), |LayoutTo(e, i)| + j;
    assert s[at] == InsertsAt(e, i)[j];
    assert s[..at] == InsertsTo(e, i, j);
    BeforeIsStrictOrder(e, s[at], s[at], s[at]);
    forall p | 0 <= p < at
      ensures s[p] != s[at]
    {
      assert e.Before(s[p], s[at]);
    }
  }

  lemma {:induction false} SurvivorIsNew(e: Edits, i: nat)
    requires e.Shaped() && i < e.Base()
    ensures InsertsTo(e, i, |InsertsAt(e, i)|) == LayoutTo(e, i) + InsertsAt(e, i)
    ensures i !in LayoutTo(e, i) + InsertsAt(e, i)
  {
    LayoutToSorted(e, i);
    AppendInserts(e, LayoutTo(e, i), i);
    assert InsertsAt(e, i)[..|InsertsAt(e, i)|] == InsertsAt(e, i);
    BeforeIsStrictOrder(e, i, i, i);
  }

  lemma {:induction false} PositionIsPosOf(e: Edits, newpos: seq<nat>, v: nat)
    requires e.Shaped() && Positioned(e, Layout(e), newpos) && e.Placed(v)
    ensures newpos[v] == PosOf(e, v)
  {
    assert Layout(e)[PosOf(e, v)] == v;
  }

  /** From the positions to the final id of every id. */
  lemma {:induction false} FinalFromPosition(e: Edits, newpos: seq<nat>, v: nat)
    requires e.ChainsOk() && Planned(e, newpos) && v < e.Total()
    ensures FinalId(e, v) == if e.Resolve(v) == NONE then NONE else newpos[e.Resolve(v)]
  {
    if e.Placed(e.Resolve(v)) {
      PositionIsPosOf(e, newpos, e.Resolve(v));
    }
  }

  lemma {:induction false} LayoutPrefix(e: Edits, i: nat)
    requires e.Shaped() && i <= e.Base()
    ensures LayoutTo(e, i) + InsertsAt(e, i) <= Layout(e)
    decreases e.Base() - i
  {
    if i < e.Base() {
      LayoutPrefix(e, i + 1);
      assert LayoutTo(e, i) + InsertsAt(e, i) <= LayoutTo(e, i + 1);
    }
  }

  lemma {:induction false} InsertSlotIn(e: Edits, i: nat, q: nat)
    requires e.Shaped() && i <= e.Base() && q < |InsertsAt(e, i)|
    ensures |LayoutTo(e, i)| + q < |Layout(e)| && PlacedAt(e, |LayoutTo(e, i)| + q) == InsertsAt(e, i)[q]
  {
    LayoutPrefix(e, i);
    assert (LayoutTo(e, i) + InsertsAt(e, i))[|LayoutTo(e, i)| + q] == InsertsAt(e, i)[q];
  }

  lemma {:induction false} SurvivorSlotIn(e: Edits, i: nat)
    requires e.Shaped() && i < e.Base() && e.Live(i)
    ensures var p := |LayoutTo(e, i)| + |InsertsAt(e, i)|; p < |Layout(e)| && PlacedAt(e, p) == i
  {
    LayoutPrefix(e, i + 1);
    assert LayoutTo(e, i + 1)[|LayoutTo(e, i)| + |InsertsAt(e, i)|] == i;
  }

  lemma {:induction false} InsertPosition(e: Edits, newpos: seq<nat>, i: nat, q: nat)
    requires Planned(e, newpos) && i <= e.Base() && q < |InsertsAt(e, i)|
    ensures var p := |LayoutTo(e, i)| + q;
            p < |Layout(e)| && PlacedAt(e, p) == InsertsAt(e, i)[q] < e.Total() && newpos[InsertsAt(e, i)[q]] == p
  {
    InsertSlotIn(e, i, q);
  }

  lemma {:induction false} OriginalPosition(e: Edits, newpos: seq<nat>, i: nat)
    requires Planned(e, newpos) && i < e.Base()
    ensures newpos[i] != NONE <==> e.Live(i)
    ensures e.Live(i) ==> newpos[i] == |LayoutTo(e, i)| + |InsertsAt(e, i)| < |Layout(e)| && PlacedAt(e, newpos[i]) == i
  {
    if e.Live(i) {
      LayoutFits(e);
      SurvivorSlotIn(e, i);
      assert newpos[Layout(e)[|LayoutTo(e, i)| + |InsertsAt(e, i)|]] == |LayoutTo(e, i)| + |InsertsAt(e, i)|;
    }
  }

  // ----- the function as it is built -----

  /** The first p instructions, and their lists, are in place. */
  ghost predicate Built(e: Edits, p: nat, out: seq<Inst>, pool: seq<nat>) {
    e.Contract() && p <= |Layout(e)| && p <= |out| &&
    (forall q :: 0 <= q < p ==> out[q] == CommittedInst(e, q)) &&
    pool == PackedAux(e, p)
  }

  lemma {:induction false} BuiltNext(e: Edits, p: nat, out: seq<Inst>, pool: seq<nat>, inst: Inst)
    requires Built(e, p, out, pool) && p < |Layout(e)| && p < |out| && inst == e.Get(PlacedAt(e, p))
    ensures AuxInPool(e.Fn(), inst) && |pool| + inst.auxCount <= |PackedAux(e, |Layout(e)|)|
    ensures Built(e, p + 1, out[p := MoveInst(e, inst, |pool|)], pool + MoveAux(e, inst))
  {
    PackedNext(e, p);
    PackedGrows(e, p + 1, |Layout(e)|);
  }

  lemma {:induction false} BuiltAll(e: Edits, out: seq<Inst>, newAux: seq<nat>, auxAt: nat)
    requires e.Contract() && auxAt <= |newAux| == |PackedAux(e, |Layout(e)|)|
    requires Built(e, |LayoutTo(e, e.Base())| + |InsertsAt(e, e.Base())|, out, newAux[..auxAt])
    ensures |Layout(e)| <= |out| && out[..|Layout(e)|] == Committed(e).insts && newAux == Committed(e).aux
  {
    assert newAux[..|newAux|] == newAux;
  }

  // ----- the size of the repacked pool -----

  function SlotsOf(e: Edits, v: nat): nat {
    if v < e.Total() then e.Get(v).auxCount else 0
  }

  function Slots(e: Edits, s: seq<nat>): nat {
    if s == [] then 0 else Slots(e, s[..|s| - 1]) + SlotsOf(e, s[|s| - 1])
  }

  lemma {:induction false} SlotsConcat(e: Edits, s: seq<nat>, t: seq<nat>)
    ensures Slots(e, s + t) == Slots(e, s) + Slots(e, t)
  {
    if t == [] {
      assert s + t == s;
    } else {
      SlotsConcat(e, s, t[..|t| - 1]);
      assert (s + t)[..|s + t| - 1] == s + t[..|t| - 1];
    }
  }

  lemma {:induction false} OneSlots(e: Edits, v: nat)
    ensures Slots(e, [v]) == SlotsOf(e, v)
  {
    assert [v][..0] == [];
  }

  function AddedSlots(e: Edits, n: nat): nat
    requires n <= |e.added|
  {
    if n == 0 then 0 else AddedSlots(e, n - 1) + e.added[n - 1].auxCount
  }

  function LiveSlots(e: Edits, i: nat): nat
    requires e.Shaped() && i <= e.Base()
  {
    if i == 0 then 0 else LiveSlots(e, i - 1) + if e.Live(i - 1) then e.insts[i - 1].auxCount else 0
  }

  /** Slots of the first n inserts that anchor at a. */
  function BucketSlots(e: Edits, a: nat, n: nat): nat
    requires e.Shaped() && n <= |e.added|
  {
    if n == 0 then 0
    else BucketSlots(e, a, n - 1) + if e.anchor[n - 1] == a then e.added[n - 1].auxCount else 0
  }

  /** Slots of the first n inserts that anchor before a. */
  function SlotsBelow(e: Edits, a: nat, n: nat): nat
    requires e.Shaped() && n <= |e.added|
  {
    if a == 0 then 0 else SlotsBelow(e, a - 1, n) + BucketSlots(e, a - 1, n)
  }

  lemma {:induction false} SlotsBelowStep(e: Edits, a: nat, n: nat)
    requires e.Shaped() && n < |e.added|
    ensures SlotsBelow(e, a, n + 1) == SlotsBelow(e, a, n) + if e.anchor[n] < a then e.added[n].auxCount else 0
  {
    if a > 0 {
      SlotsBelowStep(e, a - 1, n);
    }
  }

  lemma {:induction false} NoSlotsBelow(e: Edits, a: nat)
    requires e.Shaped()
    ensures SlotsBelow(e, a, 0) == 0
  {
    if a > 0 {
      NoSlotsBelow(e, a - 1);
    }
  }

  lemma {:induction false} AllSlotsBelow(e: Edits, n: nat)
    requires e.Shaped() && n <= |e.added|
    ensures SlotsBelow(e, e.Base() + 1, n) == AddedSlots(e, n)
  {
    if n == 0 {
      NoSlotsBelow(e, e.Base() + 1);
    } else {
      AllSlotsBelow(e, n - 1);
      SlotsBelowStep(e, e.Base() + 1, n - 1);
    }
  }

  function BucketIds(e: Edits, a: nat, n: nat): seq<nat>
    requires e.Shaped() && n <= |e.added|
  {
    if n == 0 then []
    else if e.anchor[n - 1] == a then BucketIds(e, a, n - 1) + [e.Base() + n - 1]
    else BucketIds(e, a, n - 1)
  }

  lemma {:induction false} BucketIdsAre(e: Edits, a: nat, n: nat)
    requires e.Shaped() && n <= |e.added|
    ensures |BucketIds(e, a, n)| == |Bucket(e.anchor, a, n)|
    ensures forall p :: 0 <= p < |BucketIds(e, a, n)| ==> BucketIds(e, a, n)[p] == e.Base() + Bucket(e.anchor, a, n)[p]
  {
    if n > 0 {
      BucketIdsAre(e, a, n - 1);
    }
  }

  lemma {:induction false} BucketIdsSlots(e: Edits, a: nat, n: nat)
    requires e.Shaped() && n <= |e.added|
    ensures Slots(e, BucketIds(e, a, n)) == BucketSlots(e, a, n)
  {
    if n > 0 {
      BucketIdsSlots(e, a, n - 1);
      if e.anchor[n - 1] == a {
        SlotsConcat(e, BucketIds(e, a, n - 1), [e.Base() + n - 1]);
        OneSlots(e, e.Base() + n - 1);
      }
    }
  }

  lemma {:induction false} InsertSlots(e: Edits, a: nat)
    requires e.Shaped()
    ensures Slots(e, InsertsAt(e, a)) == BucketSlots(e, a, |e.added|)
  {
    BucketIdsAre(e, a, |e.added|);
    BucketIdsSlots(e, a, |e.added|);
    assert InsertsAt(e, a) == BucketIds(e, a, |e.added|);
  }

  lemma {:induction false} LayoutSlots(e: Edits, i: nat)
    requires e.Shaped() && i <= e.Base()
    ensures Slots(e, LayoutTo(e, i)) == SlotsBelow(e, i, |e.added|) + LiveSlots(e, i)
  {
    if i > 0 {
      LayoutSlots(e, i - 1);
      InsertSlots(e, i - 1);
      LayoutStep(e, i - 1);
    }
  }

  lemma {:induction false} LayoutStep(e: Edits, i: nat)
    requires e.Shaped() && i < e.Base()
    ensures Slots(e, LayoutTo(e, i + 1))
            == Slots(e, LayoutTo(e, i)) + Slots(e, InsertsAt(e, i)) + if e.Live(i) then e.insts[i].auxCount else 0
  {
    AnchoredSlots(e, i, LayoutTo(e, i), InsertsAt(e, i), LayoutTo(e, i + 1));
  }

  /** The slots of what comes before an original, of the inserts anchored at it, and its own. */
  lemma {:induction false} AnchoredSlots(e: Edits, i: nat, before: seq<nat>, inserts: seq<nat>, after: seq<nat>)
    requires e.Shaped() && i < e.Base() && after == if e.Live(i) then before + inserts + [i] else before + inserts
    ensures Slots(e, after)
            == Slots(e, before) + Slots(e, inserts) + if e.Live(i) then e.insts[i].auxCount else 0
  {
    SlotsConcat(e, before, inserts);
    if e.Live(i) {
      SlotsConcat(e, before + inserts, [i]);
      OneSlots(e, i);
    }
  }

  lemma {:induction false} PackedSlots(e: Edits, p: nat)
    requires e.Contract() && p <= |Layout(e)|
    ensures |PackedAux(e, p)| == Slots(e, Layout(e)[..p])
  {
    if p > 0 {
      PackedSlots(e, p - 1);
      PackedNext(e, p - 1);
      assert Layout(e)[..p][..p - 1] == Layout(e)[..p - 1];
    }
  }

  /** The new pool has room for exactly the inserts' and the survivors' lists. */
  lemma {:induction false} PoolSize(e: Edits)
    requires e.Contract()
    ensures |PackedAux(e, |Layout(e)|)| == AddedSlots(e, |e.added|) + LiveSlots(e, e.Base())
  {
    var n := e.Base();
    LayoutSlots(e, n);
    InsertSlots(e, n);
    SlotsConcat(e, LayoutTo(e, n), InsertsAt(e, n));
    AllSlotsBelow(e, |e.added|);
    PackedSlots(e, |Layout(e)|);
    assert Layout(e)[..|Layout(e)|] == Layout(e);
  }
}
