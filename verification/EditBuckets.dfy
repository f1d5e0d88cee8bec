/** The commit's counting sort: inserts bucketed by anchor, stably. */
module EditBuckets {
  import opened EditModel

  lemma {:induction false} StartsAscend(anchor: seq<nat>, a: nat, b: nat, n: nat)
    requires a <= b && n <= |anchor|
    ensures Start(anchor, a, n) <= Start(anchor, b, n)
    ensures a < b ==> Start(anchor, a, n) + |Bucket(anchor, a, n)| <= Start(anchor, b, n)
    decreases b - a
  {
    if a + 1 < b {
      StartsAscend(anchor, a, b - 1, n);
    }
  }

  lemma {:induction false} BucketPrefix(anchor: seq<nat>, a: nat, m: nat, n: nat)
    requires m <= n <= |anchor|
    ensures Bucket(anchor, a, m) <= Bucket(anchor, a, n)
    decreases n - m
  {
    if m < n {
      BucketPrefix(anchor, a, m, n - 1);
    }
  }

  /** start[a + 1] counts the inserts anchored at a. */
  method CountAnchors(anchor: seq<nat>, base: nat) returns (start: array<nat>)
    requires forall k :: 0 <= k < |anchor| ==> anchor[k] <= base
    ensures fresh(start) && start.Length == base + 2 && start[0] == 0
    ensures forall a {:trigger start[a + 1]} :: 0 <= a <= base ==> start[a + 1] == |Bucket(anchor, a, |anchor|)|
  {
    start := new nat[base + 2](_ => 0);
    for k := 0 to |anchor|
      invariant start[0] == 0
      invariant forall a {:trigger start[a + 1]} :: 0 <= a <= base ==> start[a + 1] == |Bucket(anchor, a, k)|
    {
      start[anchor[k] + 1] := start[anchor[k] + 1] + 1;
    }
  }

  /** Summed up, start[a] counts the inserts anchored before a. */
  method SumCounts(anchor: seq<nat>, base: nat, start: array<nat>)
    requires start.Length == base + 2 && start[0] == 0
    requires forall a {:trigger start[a + 1]} :: 0 <= a <= base ==> start[a + 1] == |Bucket(anchor, a, |anchor|)|
    modifies start
    ensures forall a {:trigger start[a]} :: 0 <= a <= base + 1 ==> start[a] == Start(anchor, a, |anchor|)
  {
    for i := 0 to base + 1
      invariant forall a {:trigger start[a]} :: 0 <= a <= i ==> start[a] == Start(anchor, a, |anchor|)
      invariant forall a {:trigger start[a + 1]} :: i <= a <= base ==> start[a + 1] == |Bucket(anchor, a, |anchor|)|
    {
      start[i + 1] := start[i + 1] + start[i];
    }
  }

  /** The run of `order` from `at` on is b. */
  predicate RunAt(order: seq<nat>, at: nat, b: seq<nat>) {
    at + |b| <= |order| && order[at..at + |b|] == b
  }

  lemma {:induction false} RunIndex(order: seq<nat>, at: nat, b: seq<nat>, q: nat)
    requires RunAt(order, at, b) && q < |b|
    ensures order[at + q] == b[q]
  {
    assert order[at..at + |b|][q] == b[q];
  }

  /** The filled part of every bucket, after the first k inserts. */
  ghost predicate Filled(anchor: seq<nat>, base: nat, k: nat, order: seq<nat>) {
    k <= |anchor| == |order| &&
    forall a {:trigger RunAt(order, Start(anchor, a, |anchor|), Bucket(anchor, a, k))} :: 0 <= a <= base ==>
      RunAt(order, Start(anchor, a, |anchor|), Bucket(anchor, a, k))
  }

  /** The next slot of bucket c lies inside it, and in no other one. */
  lemma {:induction false} SlotIsFree(anchor: seq<nat>, base: nat, k: nat, order: seq<nat>, a: nat)
    requires Filled(anchor, base, k, order) && k < |anchor| && a <= base
    requires forall i :: 0 <= i < |anchor| ==> anchor[i] <= base
    ensures var at := Start(anchor, anchor[k], |anchor|) + |Bucket(anchor, anchor[k], k)|;
            at < |order| && RunAt(order[at := k], Start(anchor, a, |anchor|), Bucket(anchor, a, k + 1))
  {
    var c := anchor[k];
    BucketPrefix(anchor, c, k + 1, |anchor|);
    StartsAscend(anchor, c, base + 1, |anchor|);
    AllStart(anchor, base + 1, |anchor|);
    BucketPrefix(anchor, a, k, |anchor|);
    var from := Start(anchor, a, |anchor|);
    assert RunAt(order, from, Bucket(anchor, a, k));
    if a == c {
      assert Bucket(anchor, c, k + 1) == Bucket(anchor, c, k) + [k];
      ExtendRun(order, from, Bucket(anchor, c, k), k);
    } else if a < c {
      StartsAscend(anchor, a, c, |anchor|);
      KeepRun(order, from, Bucket(anchor, a, k), Start(anchor, c, |anchor|) + |Bucket(anchor, c, k)|, k);
    } else {
      StartsAscend(anchor, c, a, |anchor|);
      KeepRun(order, from, Bucket(anchor, a, k), Start(anchor, c, |anchor|) + |Bucket(anchor, c, k)|, k);
    }
  }

  lemma {:induction false} ExtendRun(order: seq<nat>, at: nat, b: seq<nat>, k: nat)
    requires RunAt(order, at, b) && at + |b| < |order|
    ensures RunAt(order[at + |b| := k], at, b + [k])
  {
    var next := order[at + |b| := k];
    assert next[at..at + |b| + 1] == order[at..at + |b|] + [k];
  }

  lemma {:induction false} KeepRun(order: seq<nat>, at: nat, b: seq<nat>, i: nat, k: nat)
    requires RunAt(order, at, b) && i < |order| && (i < at || at + |b| <= i)
    ensures RunAt(order[i := k], at, b)
  {
    assert order[i := k][at..at + |b|] == order[at..at + |b|];
  }

  lemma {:induction false} FilledAtFirst(anchor: seq<nat>, base: nat, order: seq<nat>)
    requires |order| == |anchor| && forall i :: 0 <= i < |anchor| ==> anchor[i] <= base
    ensures Filled(anchor, base, 0, order)
  {
    AllStart(anchor, base + 1, |anchor|);
    forall a | 0 <= a <= base
      ensures RunAt(order, Start(anchor, a, |anchor|), Bucket(anchor, a, 0))
    {
      StartsAscend(anchor, a, base + 1, |anchor|);
    }
  }

  lemma {:induction false} FilledGrows(anchor: seq<nat>, base: nat, k: nat, order: seq<nat>)
    requires Filled(anchor, base, k, order) && k < |anchor|
    requires forall i :: 0 <= i < |anchor| ==> anchor[i] <= base
    ensures var at := Start(anchor, anchor[k], |anchor|) + |Bucket(anchor, anchor[k], k)|;
            at < |order| && Filled(anchor, base, k + 1, order[at := k])
  {
    SlotIsFree(anchor, base, k, order, anchor[k]);
    forall a | 0 <= a <= base
      ensures RunAt(order[Start(anchor, anchor[k], |anchor|) + |Bucket(anchor, anchor[k], k)| := k],
                    Start(anchor, a, |anchor|), Bucket(anchor, a, k + 1))
    {
      SlotIsFree(anchor, base, k, order, a);
    }
  }

  /** Buckets the inserts by anchor: those at a are order[start[a]..start[a + 1]], in insertion
      order. */
  method SortByAnchor(anchor: seq<nat>, base: nat) returns (start: array<nat>, order: array<nat>)
    requires forall k :: 0 <= k < |anchor| ==> anchor[k] <= base
    ensures fresh(start) && fresh(order) && start != order
    ensures start.Length == base + 2 && order.Length == |anchor|
    ensures forall a {:trigger start[a]} :: 0 <= a <= base + 1 ==> start[a] == Start(anchor, a, |anchor|)
    ensures Filled(anchor, base, |anchor|, order[..])
  {
    start := CountAnchors(anchor, base);
    SumCounts(anchor, base, start);
    order := new nat[|anchor|];
    var fill := new nat[base + 1](_ => 0);
    FilledAtFirst(anchor, base, order[..]);
    for k := 0 to |anchor|
      invariant fresh(order) && order != fill && order != start && fill != start
      invariant forall a {:trigger fill[a]} :: 0 <= a <= base ==> fill[a] == |Bucket(anchor, a, k)|
      invariant forall a {:trigger start[a]} :: 0 <= a <= base + 1 ==> start[a] == Start(anchor, a, |anchor|)
      invariant Filled(anchor, base, k, order[..])
    {
      FilledGrows(anchor, base, k, order[..]);
      var a := anchor[k];
      ghost var orders := order[..];
      order[start[a] + fill[a]] := k;
      assert order[..] == orders[start[a] + fill[a] := k];
      fill[a] := fill[a] + 1;
    }
  }
}
