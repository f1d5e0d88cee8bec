/** What a set of recorded edits means: which id stands for which, where every instruction ends
    up, and the function that a commit produces. */
module EditModel {
  import opened Ir

  // ids are 32-bit and instruction counts are signed
  const MAX_IDS: nat := 0x8000_0000

  /** The recorded edits. Ids below |insts| are the function's own instructions; id |insts| + k
      is the k-th inserted one, placed before original instruction anchor[k] (or at the end).
      repl[i] is 0 when i is kept, NONE when it is killed, else its replacement plus one. */
  datatype Edits = Edits(insts: seq<Inst>, aux: seq<nat>, repl: seq<nat>, added: seq<Inst>, anchor: seq<nat>) {
    function Base(): nat { |insts| }
    function Total(): nat { |insts| + |added| }
    function Fn(): Func { Func(insts, aux) }

    predicate Shaped() {
      |repl| == |insts| && |anchor| == |added| && Total() < MAX_IDS &&
      forall k :: 0 <= k < |anchor| ==> anchor[k] <= |insts|
    }

    function Get(v: nat): Inst
      requires v < Total()
    {
      if v < |insts| then insts[v] else added[v - |insts|]
    }

    /** Kept, and not a nop. */
    predicate Live(i: nat)
      requires Shaped() && i < Base()
    {
      repl[i] == 0 && !insts[i].op.Nop?
    }

    /** Part of the committed function: an insert, or a live original. */
    predicate Placed(v: nat)
      requires Shaped()
    {
      v < Total() && (v < Base() ==> Live(v))
    }

    /** The committed order: originals by index, an insert just before its anchor, inserts at one
        anchor in insertion order. */
    predicate Before(u: nat, v: nat)
      requires Shaped() && u < Total() && v < Total()
    {
      if u < Base() && v < Base() then u < v
      else if u < Base() then u < anchor[v - Base()]
      else if v < Base() then anchor[u - Base()] <= v
      else anchor[u - Base()] < anchor[v - Base()] || (anchor[u - Base()] == anchor[v - Base()] && u < v)
    }

    // the same order as a key, compared lexicographically
    function KeyAnchor(v: nat): nat
      requires Shaped() && v < Total()
    {
      if v < Base() then v else anchor[v - Base()]
    }

    function KeyIndex(v: nat): nat
      requires Shaped() && v < Total()
    {
      if v < Base() then |added| else v - Base()
    }

    /** A replacement comes before what it replaces. */
    predicate Replaces(i: nat)
      requires Shaped() && i < Base()
    {
      repl[i] != 0 && repl[i] != NONE ==> repl[i] - 1 < Total() && Before(repl[i] - 1, i)
    }

    ghost predicate ChainsOk() {
      Shaped() && forall i :: 0 <= i < Base() ==> Replaces(i)
    }

    /** Follows replacements to the value that survives; NONE when it was killed. */
    ghost function Resolve(v: nat): (r: nat)
      requires ChainsOk()
      ensures v < Total() ==> r == NONE || (r < Total() && (r < Base() ==> repl[r] == 0))
      ensures v < Total() && r != NONE ==> r == v || Before(r, v)
      ensures v >= Base() ==> r == v
      decreases if v < Base() then v + 1 else 0
    {
      if v >= Base() then v
      else if repl[v] == 0 then v
      else if repl[v] == NONE then NONE
      else
        assert Replaces(v);
        Resolve(repl[v] - 1)
    }

    /** v may use x: it comes earlier, and what it resolves to survives. */
    ghost predicate UseOk(v: nat, x: nat)
      requires ChainsOk() && v < Total()
    {
      x < Total() && Before(x, v) && Placed(Resolve(x))
    }

    /** The caller's side of the contract. */
    ghost predicate Contract() {
      && ChainsOk()
      && (forall v :: 0 <= v < Total() && Placed(v) ==> AuxInPool(Fn(), Get(v)))
      && (forall v, x: nat :: 0 <= v < Total() && Placed(v) && IsOperand(Fn(), Get(v), x) ==> UseOk(v, x))
    }
  }

  lemma {:induction false} BeforeIsStrictOrder(e: Edits, u: nat, v: nat, w: nat)
    requires e.Shaped() && u < e.Total() && v < e.Total() && w < e.Total()
    ensures !e.Before(u, u)
    ensures u != v ==> e.Before(u, v) || e.Before(v, u)
    ensures e.Before(u, v) && e.Before(v, w) ==> e.Before(u, w)
  {
  }

  // ----- the committed order -----

  /** The first n inserts that anchor before original a, in insertion order. */
  function Bucket(anchor: seq<nat>, a: nat, n: nat): seq<nat>
    requires n <= |anchor|
  {
    if n == 0 then [] else if anchor[n - 1] == a then Bucket(anchor, a, n - 1) + [n - 1]
    else Bucket(anchor, a, n - 1)
  }

  /** A bucket lists exactly the inserts at its anchor, ascending. */
  lemma {:induction false} BucketMember(anchor: seq<nat>, a: nat, n: nat, j: nat)
    requires n <= |anchor| && j < |Bucket(anchor, a, n)|
    ensures Bucket(anchor, a, n)[j] < n && anchor[Bucket(anchor, a, n)[j]] == a
    ensures forall i :: 0 <= i < j ==> Bucket(anchor, a, n)[i] < Bucket(anchor, a, n)[j]
  {
    if j < |Bucket(anchor, a, n - 1)| {
      BucketMember(anchor, a, n - 1, j);
    } else {
      forall i | 0 <= i < j
        ensures Bucket(anchor, a, n)[i] < n - 1
      {
        BucketMember(anchor, a, n - 1, i);
      }
    }
  }

  lemma {:induction false} BucketComplete(anchor: seq<nat>, n: nat, k: nat) returns (j: nat)
    requires k < n <= |anchor|
    ensures j < |Bucket(anchor, anchor[k], n)| && Bucket(anchor, anchor[k], n)[j] == k
  {
    if k == n - 1 {
      j := |Bucket(anchor, anchor[k], n)| - 1;
    } else {
      j := BucketComplete(anchor, n - 1, k);
    }
  }

  /** How many of the first n inserts anchor before original a. */
  function Start(anchor: seq<nat>, a: nat, n: nat): nat
    requires n <= |anchor|
  {
    if a == 0 then 0 else Start(anchor, a - 1, n) + |Bucket(anchor, a - 1, n)|
  }

  lemma {:induction false} StartStep(anchor: seq<nat>, a: nat, n: nat)
    requires n < |anchor|
    ensures Start(anchor, a, n + 1) == Start(anchor, a, n) + if anchor[n] < a then 1 else 0
  {
    if a > 0 {
      StartStep(anchor, a - 1, n);
    }
  }

  lemma {:induction false} AllStart(anchor: seq<nat>, a: nat, n: nat)
    requires n <= |anchor| && forall k :: 0 <= k < n ==> anchor[k] < a
    ensures Start(anchor, a, n) == n
  {
    if n > 0 {
      AllStart(anchor, a, n - 1);
      StartStep(anchor, a, n - 1);
    } else {
      NoneStart(anchor, a);
    }
  }

  lemma {:induction false} NoneStart(anchor: seq<nat>, a: nat)
    ensures Start(anchor, a, 0) == 0
  {
    if a > 0 {
      NoneStart(anchor, a - 1);
    }
  }

  function InsertId(e: Edits, k: nat): nat { e.Base() + k }

  function InsertsAt(e: Edits, a: nat): (ids: seq<nat>)
    requires e.Shaped()
    ensures |ids| == |Bucket(e.anchor, a, |e.anchor|)|
    ensures forall j :: 0 <= j < |ids| ==> ids[j] == e.Base() + Bucket(e.anchor, a, |e.anchor|)[j]
  {
    var b := Bucket(e.anchor, a, |e.anchor|);
    seq(|b|, j requires 0 <= j < |b| => InsertId(e, b[j]))
  }

  /** Everything placed before original i and the inserts anchored at it. */
  function LayoutTo(e: Edits, i: nat): seq<nat>
    requires e.Shaped() && i <= e.Base()
  {
    if i == 0 then []
    else
      var before := LayoutTo(e, i - 1) + InsertsAt(e, i - 1);
      if e.Live(i - 1) then before + [i - 1] else before
  }

  /** The ids of the committed function, in order. */
  function Layout(e: Edits): seq<nat>
    requires e.Shaped()
  {
    LayoutTo(e, e.Base()) + InsertsAt(e, e.Base())
  }

  ghost predicate Sorted(e: Edits, s: seq<nat>)
    requires e.Shaped()
  {
    (forall p :: 0 <= p < |s| ==> e.Placed(s[p])) &&
    forall p, q :: 0 <= p < q < |s| ==> e.Before(s[p], s[q])
  }

  ghost predicate BelowAnchor(e: Edits, s: seq<nat>, i: nat)
    requires e.Shaped()
  {
    forall p :: 0 <= p < |s| ==> s[p] < e.Total() && e.KeyAnchor(s[p]) < i
  }

  lemma {:induction false} SortedConcat(e: Edits, s: seq<nat>, t: seq<nat>)
    requires e.Shaped() && Sorted(e, s) && Sorted(e, t)
    requires forall p, q :: 0 <= p < |s| && 0 <= q < |t| ==> e.Before(s[p], t[q])
    ensures Sorted(e, s + t)
  {
  }

  lemma {:induction false} InsertsAtSorted(e: Edits, a: nat)
    requires e.Shaped()
    ensures Sorted(e, InsertsAt(e, a))
    ensures forall p :: 0 <= p < |InsertsAt(e, a)| ==> InsertsAt(e, a)[p] >= e.Base() && e.KeyAnchor(InsertsAt(e, a)[p]) == a
  {
    var ids := InsertsAt(e, a);
    forall q | 0 <= q < |ids|
      ensures e.Base() <= ids[q] < e.Total() && e.anchor[ids[q] - e.Base()] == a
      ensures forall p :: 0 <= p < q ==> ids[p] < ids[q]
    {
      BucketMember(e.anchor, a, |e.anchor|, q);
    }
  }

  lemma {:induction false} AnchorsOrder(e: Edits, s: seq<nat>, t: seq<nat>, i: nat)
    requires e.Shaped() && BelowAnchor(e, s, i)
    requires forall q :: 0 <= q < |t| ==> t[q] < e.Total() && e.KeyAnchor(t[q]) >= i
    ensures forall p, q :: 0 <= p < |s| && 0 <= q < |t| ==> e.Before(s[p], t[q])
  {
  }

  lemma {:induction false} AppendSurvivor(e: Edits, s: seq<nat>, i: nat)
    requires e.Shaped() && i < e.Base() && Sorted(e, s) && BelowAnchor(e, s, i) && e.Live(i)
    ensures Sorted(e, s + InsertsAt(e, i) + [i]) && BelowAnchor(e, s + InsertsAt(e, i) + [i], i + 1)
  {
    AppendInserts(e, s, i);
    SortedConcat(e, s + InsertsAt(e, i), [i]);
  }

  lemma {:induction false} AppendInserts(e: Edits, s: seq<nat>, i: nat)
    requires e.Shaped() && i <= e.Base() && Sorted(e, s) && BelowAnchor(e, s, i)
    ensures Sorted(e, s + InsertsAt(e, i)) && BelowAnchor(e, s + InsertsAt(e, i), i + 1)
    ensures i < e.Base() ==> forall p :: 0 <= p < |s + InsertsAt(e, i)| ==> e.Before((s + InsertsAt(e, i))[p], i)
  {
    InsertsAtSorted(e, i);
    AnchorsOrder(e, s, InsertsAt(e, i), i);
    SortedConcat(e, s, InsertsAt(e, i));
  }

  lemma {:induction false} LayoutToSorted(e: Edits, i: nat)
    requires e.Shaped() && i <= e.Base()
    ensures Sorted(e, LayoutTo(e, i)) && BelowAnchor(e, LayoutTo(e, i), i)
  {
    if i > 0 {
      LayoutToSorted(e, i - 1);
      if e.Live(i - 1) {
        AppendSurvivor(e, LayoutTo(e, i - 1), i - 1);
      } else {
        AppendInserts(e, LayoutTo(e, i - 1), i - 1);
      }
    }
  }

  lemma {:induction false} LayoutToComplete(e: Edits, i: nat, v: nat)
    requires e.Shaped() && i <= e.Base() && v < e.Total() && e.Placed(v) && e.KeyAnchor(v) < i
    ensures v in LayoutTo(e, i)
  {
    var before := LayoutTo(e, i - 1) + InsertsAt(e, i - 1);
    if e.KeyAnchor(v) < i - 1 {
      LayoutToComplete(e, i - 1, v);
      assert v in before;
    } else if v >= e.Base() {
      InsertIsInBucket(e, v);
      assert v in before;
    }
  }

  lemma {:induction false} InsertIsInBucket(e: Edits, v: nat)
    requires e.Shaped() && e.Base() <= v < e.Total()
    ensures v in InsertsAt(e, e.KeyAnchor(v))
  {
    var j := BucketComplete(e.anchor, |e.anchor|, v - e.Base());
    assert InsertsAt(e, e.KeyAnchor(v))[j] == v;
  }

  /** The layout lists exactly the survivors and the inserts, in the committed order. */
  lemma {:induction false} LayoutIsTheOrder(e: Edits)
    requires e.Shaped()
    ensures Sorted(e, Layout(e))
    ensures forall v: nat :: v in Layout(e) <==> e.Placed(v)
  {
    LayoutToSorted(e, e.Base());
    AppendInserts(e, LayoutTo(e, e.Base()), e.Base());
    forall v: nat | e.Placed(v)
      ensures v in Layout(e)
    {
      if e.KeyAnchor(v) < e.Base() {
        LayoutToComplete(e, e.Base(), v);
      } else {
        InsertIsInBucket(e, v);
      }
    }
  }

  lemma {:induction false} LayoutToFits(e: Edits, i: nat)
    requires e.Shaped() && i <= e.Base()
    ensures |LayoutTo(e, i)| <= i + Start(e.anchor, i, |e.anchor|)
  {
    if i > 0 {
      LayoutToFits(e, i - 1);
    }
  }

  lemma {:induction false} LayoutFits(e: Edits)
    requires e.Shaped()
    ensures |Layout(e)| <= e.Total()
  {
    LayoutToFits(e, e.Base());
    AllStart(e.anchor, e.Base() + 1, |e.anchor|);
  }
}
