/** Calls between functions, and the search that refuses recursion: full inlining ends because the
    recorded calls have no cycle. */
module CallGraph {
  import opened Finite

  /** Function f calls g: the edge list holds caller and callee in turn. */
  ghost predicate Calls(edges: seq<nat>, f: nat, g: nat) {
    exists i :: 0 <= i && 2 * i + 1 < |edges| && EdgeAt(edges, i, f, g)
  }

  predicate EdgeAt(edges: seq<nat>, i: int, f: nat, g: nat)
    requires 0 <= i && 2 * i + 1 < |edges|
  {
    edges[2 * i] == f && edges[2 * i + 1] == g
  }

  /** Pairs of function numbers. */
  ghost predicate EdgesOk(edges: seq<nat>, n: nat) {
    |edges| % 2 == 0 && forall k :: 0 <= k < |edges| ==> edges[k] < n
  }

  ghost predicate IsPath(edges: seq<nat>, p: seq<nat>) {
    p != [] && forall k :: 0 < k < |p| ==> Calls(edges, p[k - 1], p[k])
  }

  /** A chain of calls from f to g; of no calls at all when f is g. */
  ghost predicate Reaches(edges: seq<nat>, f: nat, g: nat) {
    exists p :: IsPath(edges, p) && p[0] == f && p[|p| - 1] == g
  }

  ghost predicate IsCycle(edges: seq<nat>, c: seq<nat>) {
    IsPath(edges, c) && Calls(edges, c[|c| - 1], c[0])
  }

  ghost predicate HasCycle(edges: seq<nat>) {
    exists c :: IsCycle(edges, c)
  }

  // ----- what the search has finished -----

  /** An order in which every function comes after all it calls. */
  ghost predicate Finished(edges: seq<nat>, order: seq<nat>) {
    forall k: nat, g: nat :: k < |order| && Calls(edges, order[k], g) ==> g in order[..k]
  }

  lemma {:induction false} FinishOne(edges: seq<nat>, order: seq<nat>, f: nat)
    requires Finished(edges, order) && forall g: nat :: Calls(edges, f, g) ==> g in order
    ensures Finished(edges, order + [f])
  {
    var more := order + [f];
    forall k: nat, g: nat | k < |more| && Calls(edges, more[k], g)
      ensures g in more[..k]
    {
      if k < |order| {
        assert more[k] == order[k] && more[..k] == order[..k];
      } else {
        assert more[..k] == order;
      }
    }
  }

  /** From a finished function, calls only lead further down the order. */
  lemma {:induction false} PathsDescend(edges: seq<nat>, order: seq<nat>, p: seq<nat>, k: nat) returns (e: nat)
    requires Finished(edges, order) && IsPath(edges, p) && k < |order| && p[0] == order[k]
    ensures e + |p| <= k + 1 && order[e] == p[|p| - 1]
    decreases |p|
  {
    if |p| == 1 {
      e := k;
    } else {
      assert Calls(edges, p[0], p[1]);
      assert p[1] in order[..k];
      var j: nat :| j < k && order[j] == p[1];
      forall i | 0 < i < |p[1..]|
        ensures Calls(edges, p[1..][i - 1], p[1..][i])
      {
        assert Calls(edges, p[i], p[i + 1]);
      }
      e := PathsDescend(edges, order, p[1..], j);
    }
  }

  /** So no cycle passes through one. */
  lemma {:induction false} FinishedHasNoCycle(edges: seq<nat>, order: seq<nat>, c: seq<nat>)
    requires Finished(edges, order) && IsCycle(edges, c)
    ensures c[0] !in order
  {
    if c[0] in order {
      FirstAt(order, c[0]);
      var k: nat :| k < |order| && order[k] == c[0] && c[0] !in order[..k];
      var _ := PathsDescend(edges, order, c, k);
    }
  }

  lemma {:induction false} FirstAt(s: seq<nat>, x: nat)
    requires x in s
    ensures exists k: nat :: k < |s| && s[k] == x && x !in s[..k]
  {
    var k: nat :| k < |s| && s[k] == x;
    if x in s[..k] {
      FirstAt(s[..k], x);
      var j: nat :| j < k && s[..k][j] == x && x !in s[..k][..j];
      assert s[..k][..j] == s[..j];
    }
  }

  // ----- the search -----

  const UNSEEN: nat := 0
  const VISITING: nat := 1
  const DONE: nat := 2

  /** The marks: what is being visited is the call stack, what is done is in the order. */
  ghost predicate Marks(state: seq<nat>, stack: seq<nat>, order: seq<nat>) {
    forall g: nat {:trigger state[g]} :: g < |state| ==>
      (state[g] == VISITING <==> g in stack) && (state[g] == DONE <==> g in order) && state[g] <= DONE
  }

  lemma {:induction false} CycleFromStack(edges: seq<nat>, path: seq<nat>, g: nat)
    requires IsPath(edges, path) && g in path && Calls(edges, path[|path| - 1], g)
    ensures HasCycle(edges)
  {
    var k: nat :| k < |path| && path[k] == g;
    var c := path[k..];
    forall i | 0 < i < |c|
      ensures Calls(edges, c[i - 1], c[i])
    {
      assert c[i - 1] == path[k + i - 1] && c[i] == path[k + i];
    }
    assert IsCycle(edges, c);
  }

  /** Follows the calls of `func`, the last function on the path of calls being visited. */
  method FindCycle(edges: seq<nat>, func: nat, state: array<nat>, ghost path: seq<nat>, ghost order: seq<nat>)
    returns (found: bool, ghost done: seq<nat>)
    requires EdgesOk(edges, state.Length) && func < state.Length && state[func] == UNSEEN
    requires IsPath(edges, path) && path[|path| - 1] == func && Distinct(path)
    requires forall k :: 0 <= k < |path| ==> path[k] < state.Length
    requires Marks(state[..], path[..|path| - 1], order) && Finished(edges, order)
    modifies state
    ensures found ==> HasCycle(edges)
    ensures !found ==> Marks(state[..], path[..|path| - 1], done) && Finished(edges, done)
    ensures !found ==> order <= done && func in done
    decreases state.Length - |path|
  {
    DistinctIsShort(path, state.Length);
    done := order;
    MarkVisiting(state, func, path, order);
    var i := 0;
    while i < |edges|
      invariant i % 2 == 0 && 0 <= i <= |edges|
      invariant Marks(state[..], path, done) && Finished(edges, done) && order <= done
      invariant CalleesDone(edges, func, i, done)
    {
      if edges[i] == func {
        var callee := edges[i + 1];
        assert EdgeAt(edges, i / 2, func, callee) && Calls(edges, func, callee);
        assert state[..][callee] == state[callee];
        if state[callee] == VISITING {
          CycleFromStack(edges, path, callee);
          return true, done;
        }
        if state[callee] == UNSEEN {
          found, done := Descend(edges, callee, state, path, done);
          if found {
            return;
          }
        }
      }
      i := i + 2;
    }
    AllCalleesDone(edges, func, done);
    FinishOne(edges, done, func);
    MarkDone(state, func, path, done);
    done := done + [func];
    found := false;
  }

  ghost predicate CalleesDone(edges: seq<nat>, func: nat, i: nat, done: seq<nat>) {
    forall k: nat {:trigger edges[2 * k]} :: 2 * k + 1 < |edges| && 2 * k < i && edges[2 * k] == func ==>
      edges[2 * k + 1] in done
  }

  lemma {:induction false} AllCalleesDone(edges: seq<nat>, func: nat, done: seq<nat>)
    requires CalleesDone(edges, func, |edges|, done)
    ensures forall g: nat :: Calls(edges, func, g) ==> g in done
  {
    forall g: nat | Calls(edges, func, g)
      ensures g in done
    {
      var k :| 0 <= k && 2 * k + 1 < |edges| && EdgeAt(edges, k, func, g);
      assert edges[2 * k] == func;
    }
  }

  method MarkVisiting(state: array<nat>, func: nat, ghost path: seq<nat>, ghost order: seq<nat>)
    requires func < state.Length && state[func] == UNSEEN && path != [] && path[|path| - 1] == func
    requires Marks(state[..], path[..|path| - 1], order)
    modifies state
    ensures Marks(state[..], path, order)
  {
    ghost var before := state[..];
    state[func] := VISITING;
    assert state[..] == before[func := VISITING];
    assert path == path[..|path| - 1] + [func];
  }

  method MarkDone(state: array<nat>, func: nat, ghost path: seq<nat>, ghost order: seq<nat>)
    requires func < state.Length && path != [] && path[|path| - 1] == func && Distinct(path)
    requires Marks(state[..], path, order)
    modifies state
    ensures Marks(state[..], path[..|path| - 1], order + [func])
  {
    ghost var before := state[..];
    state[func] := DONE;
    assert state[..] == before[func := DONE];
    assert path == path[..|path| - 1] + [func];
  }

  /** The recursive step, into a callee not seen before. */
  method Descend(edges: seq<nat>, callee: nat, state: array<nat>, ghost path: seq<nat>, ghost order: seq<nat>)
    returns (found: bool, ghost done: seq<nat>)
    requires EdgesOk(edges, state.Length) && callee < state.Length && state[callee] == UNSEEN
    requires IsPath(edges, path) && Distinct(path) && Calls(edges, path[|path| - 1], callee)
    requires |path| <= state.Length && forall k :: 0 <= k < |path| ==> path[k] < state.Length
    requires Marks(state[..], path, order) && Finished(edges, order)
    modifies state
    ensures found ==> HasCycle(edges)
    ensures !found ==> Marks(state[..], path, done) && Finished(edges, done)
    ensures !found ==> order <= done && callee in done
    decreases state.Length - |path|, 0
  {
    ghost var longer := path + [callee];
    assert state[..][callee] == UNSEEN;
    assert longer[..|longer| - 1] == path;
    DistinctIsShort(longer, state.Length);
    found, done := FindCycle(edges, callee, state, longer, order);
  }

  /** Whether some function calls itself, however indirectly: one search from each function. */
  method HasRecursion(edges: seq<nat>, n: nat) returns (found: bool)
    requires EdgesOk(edges, n)
    ensures found <==> HasCycle(edges)
  {
    var state := new nat[n](_ => UNSEEN);
    for f := 0 to n
      invariant forall c :: IsCycle(edges, c) ==> c[0] >= f
    {
      Clear(state);
      ghost var done;
      found, done := FindCycle(edges, f, state, [f], []);
      if found {
        return;
      }
      forall c | IsCycle(edges, c)
        ensures c[0] >= f + 1
      {
        if c[0] == f {
          FinishedHasNoCycle(edges, done, c);
        }
      }
    }
    if HasCycle(edges) {
      ghost var c :| IsCycle(edges, c);
      CycleInRange(edges, n, c);
    }
    found := false;
  }

  lemma {:induction false} CycleInRange(edges: seq<nat>, n: nat, c: seq<nat>)
    requires EdgesOk(edges, n) && IsCycle(edges, c)
    ensures c[0] < n
  {
    var i :| 0 <= i && 2 * i + 1 < |edges| && EdgeAt(edges, i, c[|c| - 1], c[0]);
    assert edges[2 * i + 1] < n;
  }

  method Clear(state: array<nat>)
    modifies state
    ensures forall g :: 0 <= g < state.Length ==> state[g] == UNSEEN
    ensures Marks(state[..], [], [])
  {
    for g := 0 to state.Length
      invariant forall h :: 0 <= h < g ==> state[h] == UNSEEN
    {
      state[g] := UNSEEN;
    }
  }

  // ----- why inlining ends -----

  /** Everything function f can end up calling, itself included. */
  ghost function Below(edges: seq<nat>, n: nat, f: nat): set<int> {
    set g: int | 0 <= g < n && Reaches(edges, f, g)
  }

  lemma {:induction false} ReachesItself(edges: seq<nat>, f: nat)
    ensures Reaches(edges, f, f)
  {
    assert IsPath(edges, [f]);
  }

  lemma {:induction false} ReachesThroughCall(edges: seq<nat>, f: nat, g: nat, h: nat)
    requires Calls(edges, f, g) && Reaches(edges, g, h)
    ensures Reaches(edges, f, h)
  {
    var p :| IsPath(edges, p) && p[0] == g && p[|p| - 1] == h;
    var q := [f] + p;
    forall k | 0 < k < |q|
      ensures Calls(edges, q[k - 1], q[k])
    {
      if k > 1 {
        assert q[k - 1] == p[k - 2] && q[k] == p[k - 1];
        assert Calls(edges, p[k - 2], p[k - 1]);
      }
    }
    assert q[|q| - 1] == h;
  }

  /** Without a cycle, every call leads to a function with less below it. */
  lemma {:induction false} CallsDescend(edges: seq<nat>, n: nat, f: nat, g: nat)
    requires EdgesOk(edges, n) && !HasCycle(edges) && f < n && Calls(edges, f, g)
    ensures |Below(edges, n, g)| < |Below(edges, n, f)|
  {
    var a, b := Below(edges, n, g), Below(edges, n, f);
    forall h: int | h in a
      ensures h in b
    {
      ReachesThroughCall(edges, f, g, h);
    }
    ReachesItself(edges, f);
    if f in a {
      var p :| IsPath(edges, p) && p[0] == g && p[|p| - 1] == f;
      assert IsCycle(edges, p);
    }
    assert a <= b - {f};
    SubsetIsSmaller(a, b - {f});
  }

  /** With one, no measure can decrease along every call. */
  lemma {:induction false} CycleHasNoRank(edges: seq<nat>, rank: nat -> nat)
    requires HasCycle(edges)
    ensures exists f: nat, g: nat :: Calls(edges, f, g) && rank(g) >= rank(f)
  {
    var c :| IsCycle(edges, c);
    if forall k :: 0 < k < |c| ==> rank(c[k]) < rank(c[k - 1]) {
      RanksFall(c, rank, |c| - 1);
      assert Calls(edges, c[|c| - 1], c[0]);
    } else {
      var k :| 0 < k < |c| && rank(c[k]) >= rank(c[k - 1]);
      assert Calls(edges, c[k - 1], c[k]);
    }
  }

  lemma {:induction false} RanksFall(c: seq<nat>, rank: nat -> nat, k: nat)
    requires k < |c| && forall k :: 0 < k < |c| ==> rank(c[k]) < rank(c[k - 1])
    ensures rank(c[k]) <= rank(c[0])
  {
    if k > 0 {
      RanksFall(c, rank, k - 1);
    }
  }

  // ----- how deep inlining nests -----

  /** The functions f calls, as the edge list has them from position i on. */
  ghost function Callees(edges: seq<nat>, f: nat, i: nat): (gs: seq<nat>)
    requires |edges| % 2 == 0 && i % 2 == 0 && i <= |edges|
    ensures forall k :: 0 <= k < |gs| ==> Calls(edges, f, gs[k])
    decreases |edges| - i
  {
    if i == |edges| then []
    else
      assert EdgeAt(edges, i / 2, edges[i], edges[i + 1]);
      (if edges[i] == f then [edges[i + 1]] else []) + Callees(edges, f, i + 2)
  }

  /** How many calls deep the body of f is once everything it calls has been inlined. */
  ghost function InlineDepth(edges: seq<nat>, n: nat, f: nat): nat
    requires EdgesOk(edges, n) && !HasCycle(edges) && f < n
    decreases |Below(edges, n, f)|, 1, 0
  {
    DeepestOf(edges, n, f, Callees(edges, f, 0))
  }

  ghost function DeepestOf(edges: seq<nat>, n: nat, f: nat, gs: seq<nat>): nat
    requires EdgesOk(edges, n) && !HasCycle(edges) && f < n
    requires forall k :: 0 <= k < |gs| ==> Calls(edges, f, gs[k])
    decreases |Below(edges, n, f)|, 0, |gs|
  {
    if gs == [] then 0
    else
      CallsDescend(edges, n, f, gs[0]);
      CalleeInRange(edges, n, f, gs[0]);
      var here, rest := 1 + InlineDepth(edges, n, gs[0]), DeepestOf(edges, n, f, gs[1..]);
      if here < rest then rest else here
  }

  lemma {:induction false} CalleeInRange(edges: seq<nat>, n: nat, f: nat, g: nat)
    requires EdgesOk(edges, n) && Calls(edges, f, g)
    ensures g < n
  {
    var i :| 0 <= i && 2 * i + 1 < |edges| && EdgeAt(edges, i, f, g);
    assert edges[2 * i + 1] < n;
  }

  /** Inlining nests at most as deep as there are other functions below. */
  lemma {:induction false} DepthIsBounded(edges: seq<nat>, n: nat, f: nat)
    requires EdgesOk(edges, n) && !HasCycle(edges) && f < n
    ensures InlineDepth(edges, n, f) < |Below(edges, n, f)| <= n
    decreases |Below(edges, n, f)|, 1, 0
  {
    ReachesItself(edges, f);
    assert f in Below(edges, n, f);
    DeepestIsBounded(edges, n, f, Callees(edges, f, 0));
    UpToHas(n);
    SubsetIsSmaller(Below(edges, n, f), UpTo(n));
  }

  lemma {:induction false} DeepestIsBounded(edges: seq<nat>, n: nat, f: nat, gs: seq<nat>)
    requires EdgesOk(edges, n) && !HasCycle(edges) && f < n && f in Below(edges, n, f)
    requires forall k :: 0 <= k < |gs| ==> Calls(edges, f, gs[k])
    ensures DeepestOf(edges, n, f, gs) < |Below(edges, n, f)|
    decreases |Below(edges, n, f)|, 0, |gs|
  {
    if gs != [] {
      CallsDescend(edges, n, f, gs[0]);
      CalleeInRange(edges, n, f, gs[0]);
      DepthIsBounded(edges, n, gs[0]);
      DeepestIsBounded(edges, n, f, gs[1..]);
    }
  }
}
