/** Search in a graph over the numbers up to n: what can be reached is found within n rounds. */
module GraphSearch {

  type Edges = (nat, nat) -> bool

  predicate GoesFromSome(go: Edges, n: nat, seen: set<nat>, j: nat) {
    exists i: nat :: i <= n && i in seen && go(i, j)
  }

  /** One round: the numbers seen, and those one edge further. */
  function Round(go: Edges, n: nat, seen: set<nat>): (next: set<nat>)
    ensures seen <= next
  {
    seen + set j: nat | j <= n && GoesFromSome(go, n, seen, j)
  }

  /** What is at most k edges from `from`. */
  function Within(go: Edges, n: nat, from: nat, k: nat): set<nat> {
    if k == 0 then {from} else Round(go, n, Within(go, n, from, k - 1))
  }

  /** j can be reached from `from`: n rounds are enough. */
  predicate Reaches(go: Edges, n: nat, from: nat, j: nat) {
    j in Within(go, n, from, n)
  }

  // ----- the search ends -----

  lemma {:induction false} RoundsGrow(go: Edges, n: nat, from: nat, k: nat, m: nat)
    requires k <= m
    ensures Within(go, n, from, k) <= Within(go, n, from, m)
    decreases m
  {
    if k < m {
      RoundsGrow(go, n, from, k, m - 1);
    }
  }

  lemma {:induction false} Stable(go: Edges, n: nat, from: nat, k: nat, m: nat)
    requires k <= m && Within(go, n, from, k + 1) == Within(go, n, from, k)
    ensures Within(go, n, from, m) == Within(go, n, from, k)
    decreases m
  {
    if k < m {
      Stable(go, n, from, k, m - 1);
      assert Within(go, n, from, m) == Round(go, n, Within(go, n, from, m - 1));
      assert Within(go, n, from, k + 1) == Round(go, n, Within(go, n, from, k));
    }
  }

  lemma {:induction false} SubsetIsSmaller(a: set<nat>, b: set<nat>)
    requires a <= b
    ensures |a| <= |b|
    ensures |a| == |b| ==> a == b
  {
    assert b == a + (b - a);
  }

  function UpTo(n: nat): (s: set<nat>)
    ensures |s| == n + 1 && forall k: nat :: k in s <==> k <= n
  {
    if n == 0 then {0} else UpTo(n - 1) + {n}
  }

  lemma {:induction false} StaysInside(go: Edges, n: nat, from: nat, k: nat)
    requires from <= n
    ensures Within(go, n, from, k) <= UpTo(n)
  {
    if k > 0 {
      StaysInside(go, n, from, k - 1);
    }
  }

  /** A round that finds nothing is followed by one that finds nothing. */
  lemma {:induction false} RoundIsRepeated(go: Edges, n: nat, from: nat, k: nat)
    requires k > 0 && Within(go, n, from, k) == Within(go, n, from, k - 1)
    ensures Within(go, n, from, k + 1) == Within(go, n, from, k)
  {
  }

  /** Every round so far found something new, or the next one does not. */
  lemma {:induction false} FindsOrIsStable(go: Edges, n: nat, from: nat, k: nat)
    ensures |Within(go, n, from, k)| > k || Within(go, n, from, k + 1) == Within(go, n, from, k)
  {
    if k > 0 {
      FindsOrIsStable(go, n, from, k - 1);
      RoundsGrow(go, n, from, k - 1, k);
      FoundMoreOrSame(go, n, from, k, Within(go, n, from, k - 1), Within(go, n, from, k));
    }
  }

  lemma {:induction false} FoundMoreOrSame(go: Edges, n: nat, from: nat, k: nat, before: set<nat>, after: set<nat>)
    requires k > 0 && before == Within(go, n, from, k - 1) && after == Within(go, n, from, k)
    requires before <= after && (|before| > k - 1 || before == after)
    ensures |after| > k || Within(go, n, from, k + 1) == after
  {
    SubsetIsSmaller(before, after);
    if before == after {
      RoundIsRepeated(go, n, from, k);
    }
  }

  /** Nothing is found after n rounds. */
  lemma {:induction false} SearchEnds(go: Edges, n: nat, from: nat, k: nat)
    requires from <= n
    ensures Within(go, n, from, k) <= Within(go, n, from, n)
  {
    if k <= n {
      RoundsGrow(go, n, from, k, n);
    } else {
      FindsOrIsStable(go, n, from, n);
      StaysInside(go, n, from, n);
      StaysInside(go, n, from, k);
      if |Within(go, n, from, n)| > n {
        SubsetIsSmaller(Within(go, n, from, n), UpTo(n));
      } else {
        Stable(go, n, from, n, k);
      }
    }
  }

  // ----- and finds what paths lead to -----

  predicate EdgeAt(go: Edges, n: nat, p: seq<nat>, k: int)
    requires 0 <= k < |p| - 1
  {
    p[k] <= n && p[k + 1] <= n && go(p[k], p[k + 1])
  }

  ghost predicate IsPath(go: Edges, n: nat, p: seq<nat>) {
    p != [] && forall k :: 0 <= k < |p| - 1 ==> EdgeAt(go, n, p, k)
  }

  ghost predicate Leads(go: Edges, n: nat, from: nat, j: nat) {
    exists p :: IsPath(go, n, p) && p[0] == from && p[|p| - 1] == j
  }

  lemma {:induction false} PathShortens(go: Edges, n: nat, p: seq<nat>, k: nat)
    requires IsPath(go, n, p) && 0 < k <= |p|
    ensures IsPath(go, n, p[..k])
  {
    forall i | 0 <= i < k - 1
      ensures EdgeAt(go, n, p[..k], i)
    {
      assert EdgeAt(go, n, p, i);
    }
  }

  lemma {:induction false} PathExtends(go: Edges, n: nat, from: nat, i: nat, j: nat)
    requires Leads(go, n, from, i) && i <= n && j <= n && go(i, j)
    ensures Leads(go, n, from, j)
  {
    var p :| IsPath(go, n, p) && p[0] == from && p[|p| - 1] == i;
    var q := p + [j];
    forall k | 0 <= k < |q| - 1
      ensures EdgeAt(go, n, q, k)
    {
      if k < |p| - 1 {
        assert EdgeAt(go, n, p, k);
      }
    }
    assert IsPath(go, n, q) && q[0] == from && q[|q| - 1] == j;
  }

  lemma {:induction false} FoundIsLedTo(go: Edges, n: nat, from: nat, j: nat, k: nat)
    requires j in Within(go, n, from, k)
    ensures Leads(go, n, from, j)
    decreases k
  {
    if k == 0 {
      assert IsPath(go, n, [from]) && [from][|[from]| - 1] == j;
    } else if j in Within(go, n, from, k - 1) {
      FoundIsLedTo(go, n, from, j, k - 1);
    } else {
      var i: nat :| i <= n && i in Within(go, n, from, k - 1) && go(i, j);
      FoundIsLedTo(go, n, from, i, k - 1);
      PathExtends(go, n, from, i, j);
    }
  }

  lemma {:induction false} PathIsFound(go: Edges, n: nat, p: seq<nat>, k: nat)
    requires IsPath(go, n, p) && k < |p|
    ensures p[k] in Within(go, n, p[0], k)
  {
    if k > 0 {
      PathIsFound(go, n, p, k - 1);
      assert EdgeAt(go, n, p, k - 1);
      assert GoesFromSome(go, n, Within(go, n, p[0], k - 1), p[k]);
    }
  }

  /** Reached is exactly what some path leads to. */
  lemma {:induction false} ReachesIffLeads(go: Edges, n: nat, from: nat, j: nat)
    requires from <= n
    ensures Reaches(go, n, from, j) <==> Leads(go, n, from, j)
  {
    if Reaches(go, n, from, j) {
      FoundIsLedTo(go, n, from, j, n);
    }
    if p :| IsPath(go, n, p) && p[0] == from && p[|p| - 1] == j {
      PathIsFound(go, n, p, |p| - 1);
      SearchEnds(go, n, from, |p| - 1);
    }
  }

  lemma {:induction false} ReachesItself(go: Edges, n: nat, from: nat)
    requires from <= n
    ensures Reaches(go, n, from, from)
  {
    RoundsGrow(go, n, from, 0, n);
  }

  lemma {:induction false} ReachesNext(go: Edges, n: nat, from: nat, i: nat, j: nat)
    requires from <= n && Reaches(go, n, from, i) && i <= n && j <= n && go(i, j)
    ensures Reaches(go, n, from, j)
  {
    ReachesIffLeads(go, n, from, i);
    PathExtends(go, n, from, i, j);
    ReachesIffLeads(go, n, from, j);
  }

  /** What is reached from something reached is reached. */
  lemma {:induction false} ReachesOn(go: Edges, n: nat, from: nat, i: nat, j: nat)
    requires from <= n && i <= n && Reaches(go, n, from, i) && Reaches(go, n, i, j)
    ensures Reaches(go, n, from, j)
  {
    ReachesIffLeads(go, n, i, j);
    var p :| IsPath(go, n, p) && p[0] == i && p[|p| - 1] == j;
    PathIsReached(go, n, from, p, |p| - 1);
  }

  lemma {:induction false} PathIsReached(go: Edges, n: nat, from: nat, p: seq<nat>, k: nat)
    requires from <= n && IsPath(go, n, p) && k < |p| && Reaches(go, n, from, p[0])
    ensures Reaches(go, n, from, p[k])
  {
    if k > 0 {
      PathIsReached(go, n, from, p, k - 1);
      assert EdgeAt(go, n, p, k - 1);
      ReachesNext(go, n, from, p[k - 1], p[k]);
    }
  }

  /** A round that found something left fewer to find. */
  lemma {:induction false} RoundProgress(go: Edges, n: nat, from: nat, k: nat, seen: set<nat>, next: set<nat>)
    requires from <= n && seen == Within(go, n, from, k) && next == Within(go, n, from, k + 1) && seen != next
    ensures |seen| < |next| <= n + 1
  {
    RoundsGrow(go, n, from, k, k + 1);
    SubsetIsSmaller(seen, next);
    StaysInside(go, n, from, k + 1);
    SubsetIsSmaller(next, UpTo(n));
  }

  /** A round that found nothing is the last. */
  lemma {:induction false} LastRound(go: Edges, n: nat, from: nat, k: nat)
    requires from <= n && Within(go, n, from, k + 1) == Within(go, n, from, k)
    ensures Within(go, n, from, k) == Within(go, n, from, n)
  {
    SearchEnds(go, n, from, k);
    if k <= n {
      Stable(go, n, from, k, n);
    } else {
      RoundsGrow(go, n, from, n, k);
    }
  }

  method NextRound(go: Edges, n: nat, seen: set<nat>, ghost from: nat, ghost k: nat) returns (next: set<nat>)
    requires seen == Within(go, n, from, k)
    ensures next == Within(go, n, from, k + 1)
  {
    next := Round(go, n, seen);
  }

  /** The search, in rounds until nothing is new. */
  method Search(go: Edges, n: nat, from: nat) returns (seen: set<nat>)
    requires from <= n
    ensures seen == Within(go, n, from, n)
  {
    seen := {from};
    ghost var k := 0;
    var next := NextRound(go, n, seen, from, k);
    while next != seen
      invariant seen == Within(go, n, from, k) && next == Within(go, n, from, k + 1)
      invariant |seen| <= n + 1
      decreases n + 1 - |seen|
    {
      RoundProgress(go, n, from, k, seen, next);
      k := k + 1;
      seen := next;
      next := NextRound(go, n, seen, from, k);
    }
    LastRound(go, n, from, k);
  }
}
