/** How deep calls nest in a function's body once everything has been inlined, against its place in
    the call graph. */
module CallNesting {
  import opened SourceRuns
  import opened CallGraph
  import opened LoweringBuilder

  // ----- the calls of a statement -----

  /** The bodies of the calls that a statement makes itself. */
  function CallsIn(s: Stmt): seq<Stmt>
    decreases s, 1
  {
    match s
    case Block(stmts) => CallsInAll(stmts)
    case If(pre, _, yes, no) => CallsInAll(pre) + CallsIn(yes) + if no.Some? then CallsIn(no.value) else []
    case For(init, pre, _, body, inc) => CallsInAll(init) + CallsInAll(pre) + CallsIn(body) + CallsInAll(inc)
    case Do(body, pre, _) => CallsIn(body) + CallsInAll(pre)
    case Switch(pre, _, cases) => CallsInAll(pre) + CallsInCases(cases)
    case Return(pre, _) => CallsInAll(pre)
    case Call(args, body, _, _, _) => CallsInAll(args) + [body]
    case _ => []
  }

  function CallsInAll(stmts: seq<Stmt>): seq<Stmt>
    decreases stmts, 1
  {
    if stmts == [] then [] else CallsIn(stmts[0]) + CallsInAll(stmts[1..])
  }

  function CallsInCases(cases: seq<Case>): seq<Stmt>
    decreases cases, 1
  {
    if cases == [] then [] else CallsInAll(cases[0].body) + CallsInCases(cases[1..])
  }

  /** d is the depth of calls with these bodies: one more than the deepest of them. */
  ghost predicate DeepestIs(bodies: seq<Stmt>, d: nat) {
    && (forall b :: b in bodies ==> CallDepth(b) < d)
    && (d > 0 ==> exists b :: b in bodies && CallDepth(b) == d - 1)
  }

  lemma {:induction false} DeepestJoins(a: seq<Stmt>, d: nat, b: seq<Stmt>, e: nat)
    requires DeepestIs(a, d) && DeepestIs(b, e)
    ensures DeepestIs(a + b, Max(d, e))
  {
    if d > 0 {
      var x :| x in a && CallDepth(x) == d - 1;
      assert x in a + b;
    }
    if e > 0 {
      var y :| y in b && CallDepth(y) == e - 1;
      assert y in a + b;
    }
  }

  /** Call depth is one more than that of the deepest call. */
  lemma {:induction false} DepthOfCalls(s: Stmt)
    ensures DeepestIs(CallsIn(s), CallDepth(s))
    decreases s, 1
  {
    match s
    case Block(stmts) => DepthOfCallsAll(stmts);
    case If(_, _, _, _) => DepthOfIf(s);
    case For(_, _, _, _, _) => DepthOfFor(s);
    case Do(body, pre, _) =>
      DepthOfCalls(body);
      DepthOfCallsAll(pre);
      DeepestJoins(CallsIn(body), CallDepth(body), CallsInAll(pre), DepthAll(pre));
    case Switch(pre, _, cases) =>
      DepthOfCallsAll(pre);
      DepthOfCallsInCases(cases);
      DeepestJoins(CallsInAll(pre), DepthAll(pre), CallsInCases(cases), DepthCases(cases));
    case Return(pre, _) => DepthOfCallsAll(pre);
    case Call(args, body, _, _, _) =>
      DepthOfCallsAll(args);
      OneCall(body);
      DeepestJoins(CallsInAll(args), DepthAll(args), [body], 1 + CallDepth(body));
    case _ =>
  }

  lemma {:induction false} DepthOfIf(s: Stmt)
    requires s.If?
    ensures DeepestIs(CallsIn(s), CallDepth(s))
    decreases s, 0
  {
    DepthOfCallsAll(s.pre);
    DepthOfCalls(s.yes);
    DeepestJoins(CallsInAll(s.pre), DepthAll(s.pre), CallsIn(s.yes), CallDepth(s.yes));
    var first, d := CallsInAll(s.pre) + CallsIn(s.yes), Max(DepthAll(s.pre), CallDepth(s.yes));
    if s.no.Some? {
      DepthOfCalls(s.no.value);
      DeepestJoins(first, d, CallsIn(s.no.value), CallDepth(s.no.value));
    } else {
      assert first + [] == first;
    }
  }

  lemma {:induction false} DepthOfFor(s: Stmt)
    requires s.For?
    ensures DeepestIs(CallsIn(s), CallDepth(s))
    decreases s, 0
  {
    DepthOfCallsAll(s.init);
    DepthOfCallsAll(s.pre);
    DepthOfCalls(s.body);
    DepthOfCallsAll(s.inc);
    FourJoin(CallsInAll(s.init), DepthAll(s.init), CallsInAll(s.pre), DepthAll(s.pre),
             CallsIn(s.body), CallDepth(s.body), CallsInAll(s.inc), DepthAll(s.inc));
  }

  lemma {:induction false} FourJoin(a: seq<Stmt>, i: nat, b: seq<Stmt>, j: nat, c: seq<Stmt>, k: nat, d: seq<Stmt>, l: nat)
    requires DeepestIs(a, i) && DeepestIs(b, j) && DeepestIs(c, k) && DeepestIs(d, l)
    ensures DeepestIs(a + b + c + d, Max(Max(i, j), Max(k, l)))
  {
    DeepestJoins(a, i, b, j);
    DeepestJoins(a + b, Max(i, j), c, k);
    DeepestJoins(a + b + c, Max(Max(i, j), k), d, l);
  }

  lemma {:induction false} OneCall(body: Stmt)
    ensures DeepestIs([body], 1 + CallDepth(body))
  {
    assert body in [body];
  }

  lemma {:induction false} DepthOfCallsAll(stmts: seq<Stmt>)
    ensures DeepestIs(CallsInAll(stmts), DepthAll(stmts))
    decreases stmts, 1
  {
    if stmts != [] {
      DepthOfCalls(stmts[0]);
      DepthOfCallsAll(stmts[1..]);
      DeepestJoins(CallsIn(stmts[0]), CallDepth(stmts[0]), CallsInAll(stmts[1..]), DepthAll(stmts[1..]));
    }
  }

  lemma {:induction false} DepthOfCallsInCases(cases: seq<Case>)
    ensures DeepestIs(CallsInCases(cases), DepthCases(cases))
    decreases cases, 1
  {
    if cases != [] {
      DepthOfCallsAll(cases[0].body);
      DepthOfCallsInCases(cases[1..]);
      DeepestJoins(CallsInAll(cases[0].body), DepthAll(cases[0].body), CallsInCases(cases[1..]), DepthCases(cases[1..]));
    }
  }

  // ----- the unfolding of a function -----

  /** s is the body of function f with every call unfolded: its calls are to the functions that f calls,
      each to the unfolded body of one, and there is one to each of them. */
  ghost predicate Unfolds(edges: seq<nat>, f: nat, s: Stmt)
    decreases CallDepth(s)
  {
    && (forall b {:trigger Makes(s, b)} :: Makes(s, b) ==>
          CallDepth(b) < CallDepth(s) && exists g: nat :: Calls(edges, f, g) && Unfolds(edges, g, b))
    && (forall g: nat {:trigger Owes(edges, f, g)} :: Owes(edges, f, g) ==>
          exists b :: b in CallsIn(s) && CallDepth(b) < CallDepth(s) && Unfolds(edges, g, b))
  }

  /** The statement makes a call with that body. */
  ghost predicate Makes(s: Stmt, b: Stmt) {
    b in CallsIn(s)
  }

  /** The function's body has a call to g. */
  ghost predicate Owes(edges: seq<nat>, f: nat, g: nat) {
    Calls(edges, f, g)
  }

  lemma {:induction false} CalleeIsListed(edges: seq<nat>, f: nat, g: nat, i: nat, k: nat)
    requires |edges| % 2 == 0 && i % 2 == 0 && i <= |edges| && i <= 2 * k && 2 * k + 1 < |edges| && EdgeAt(edges, k, f, g)
    ensures g in Callees(edges, f, i)
    decreases |edges| - i
  {
    if i < 2 * k {
      CalleeIsListed(edges, f, g, i + 2, k);
    }
  }

  lemma {:induction false} DeepestCovers(edges: seq<nat>, n: nat, f: nat, gs: seq<nat>, g: nat)
    requires EdgesOk(edges, n) && !HasCycle(edges) && f < n
    requires (forall k :: 0 <= k < |gs| ==> Calls(edges, f, gs[k])) && g in gs && g < n
    ensures 1 + InlineDepth(edges, n, g) <= DeepestOf(edges, n, f, gs)
  {
    if gs[0] != g {
      DeepestCovers(edges, n, f, gs[1..], g);
    }
  }

  lemma {:induction false} DeepestIsOne(edges: seq<nat>, n: nat, f: nat, gs: seq<nat>) returns (g: nat)
    requires EdgesOk(edges, n) && !HasCycle(edges) && f < n
    requires forall k :: 0 <= k < |gs| ==> Calls(edges, f, gs[k])
    requires DeepestOf(edges, n, f, gs) > 0
    ensures Calls(edges, f, g) && g < n && 1 + InlineDepth(edges, n, g) == DeepestOf(edges, n, f, gs)
  {
    CallsDescend(edges, n, f, gs[0]);
    CalleeInRange(edges, n, f, gs[0]);
    g := gs[0];
    if 1 + InlineDepth(edges, n, gs[0]) < DeepestOf(edges, n, f, gs[1..]) {
      g := DeepestIsOne(edges, n, f, gs[1..]);
    }
  }

  lemma {:induction false} CallUnfolds(edges: seq<nat>, f: nat, s: Stmt, b: Stmt) returns (g: nat)
    requires Unfolds(edges, f, s) && b in CallsIn(s)
    ensures Calls(edges, f, g) && Unfolds(edges, g, b) && CallDepth(b) < CallDepth(s)
  {
    assert Makes(s, b);
    g :| Calls(edges, f, g) && Unfolds(edges, g, b);
  }

  lemma {:induction false} CalleeIsCalled(edges: seq<nat>, f: nat, s: Stmt, g: nat) returns (b: Stmt)
    requires Unfolds(edges, f, s) && Calls(edges, f, g)
    ensures b in CallsIn(s) && CallDepth(b) < CallDepth(s) && Unfolds(edges, g, b)
  {
    assert Owes(edges, f, g);
    b :| b in CallsIn(s) && CallDepth(b) < CallDepth(s) && Unfolds(edges, g, b);
  }

  lemma {:induction false} DeepestCall(s: Stmt) returns (b: Stmt)
    requires CallDepth(s) > 0
    ensures b in CallsIn(s) && CallDepth(b) == CallDepth(s) - 1
  {
    DepthOfCalls(s);
    b :| b in CallsIn(s) && CallDepth(b) == CallDepth(s) - 1;
  }

  lemma {:induction false} AtMostInlineDepth(edges: seq<nat>, n: nat, f: nat, s: Stmt)
    requires EdgesOk(edges, n) && !HasCycle(edges) && f < n && Unfolds(edges, f, s)
    ensures CallDepth(s) <= InlineDepth(edges, n, f)
    decreases CallDepth(s)
  {
    if CallDepth(s) > 0 {
      var b := DeepestCall(s);
      var g := CallUnfolds(edges, f, s, b);
      CalleeIsNotDeeper(edges, n, f, g);
      AtMostInlineDepth(edges, n, g, b);
    }
  }

  lemma {:induction false} AtLeastInlineDepth(edges: seq<nat>, n: nat, f: nat, s: Stmt)
    requires EdgesOk(edges, n) && !HasCycle(edges) && f < n && Unfolds(edges, f, s)
    ensures CallDepth(s) >= InlineDepth(edges, n, f)
    decreases CallDepth(s)
  {
    if InlineDepth(edges, n, f) > 0 {
      var g := DeepestIsOne(edges, n, f, Callees(edges, f, 0));
      var b := CalleeIsCalled(edges, f, s, g);
      AtLeastInlineDepth(edges, n, g, b);
    }
  }

  /** The depth of the builder's recursion on an unfolded function is its depth in the call graph. */
  lemma {:induction false} UnfoldedDepth(edges: seq<nat>, n: nat, f: nat, s: Stmt)
    requires EdgesOk(edges, n) && !HasCycle(edges) && f < n && Unfolds(edges, f, s)
    ensures CallDepth(s) == InlineDepth(edges, n, f)
  {
    AtMostInlineDepth(edges, n, f, s);
    AtLeastInlineDepth(edges, n, f, s);
  }

  lemma {:induction false} CalleeIsNotDeeper(edges: seq<nat>, n: nat, f: nat, g: nat)
    requires EdgesOk(edges, n) && !HasCycle(edges) && f < n && Calls(edges, f, g)
    ensures g < n && 1 + InlineDepth(edges, n, g) <= InlineDepth(edges, n, f)
  {
    CalleeInRange(edges, n, f, g);
    var k :| 0 <= k && 2 * k + 1 < |edges| && EdgeAt(edges, k, f, g);
    CalleeIsListed(edges, f, g, 0, k);
    DeepestCovers(edges, n, f, Callees(edges, f, 0), g);
  }

  /** Without recursion, and with no more functions than the builder's cap, no call nests too deep. */
  lemma {:induction false} NeverTooDeep(edges: seq<nat>, n: nat, f: nat, s: Stmt)
    requires EdgesOk(edges, n) && !HasCycle(edges) && f < n <= MAX_INLINE_DEPTH && Unfolds(edges, f, s)
    ensures CallDepth(s) < MAX_INLINE_DEPTH
  {
    UnfoldedDepth(edges, n, f, s);
    DepthIsBounded(edges, n, f);
  }

  /** Lowering the unfolded body of an entry point succeeds. */
  method LowerUnfolded(b: Builder, ghost edges: seq<nat>, ghost n: nat, ghost f: nat, body: Stmt)
    requires b.ctx.Entry? && b.depth == 0 && b.insts == [] && !b.failed
    requires EdgesOk(edges, n) && !HasCycle(edges) && f < n <= MAX_INLINE_DEPTH && Unfolds(edges, f, body)
    modifies b
    ensures !b.failed
  {
    NeverTooDeep(edges, n, f, body);
    b.LowerEntryPoint(body);
  }
}
