/** Passing arguments: into a copy made as the call starts, or, where nothing can change the
    argument while the callee runs, by reference to the caller's storage. */
module ByReference {
  import opened Ir

  datatype Value = Leaf(n: int) | Agg(parts: seq<Value>)

  /** A component; indexing out of range yields some fixed value. */
  function Get(v: Value, path: seq<nat>): Value {
    if path == [] then v
    else if v.Agg? && path[0] < |v.parts| then Get(v.parts[path[0]], path[1..])
    else Leaf(0)
  }

  function Put(v: Value, path: seq<nat>, x: Value): Value {
    if path == [] then x
    else if v.Agg? && path[0] < |v.parts| then Agg(v.parts[path[0] := Put(v.parts[path[0]], path[1..], x)])
    else v
  }

  // ----- functions -----

  /** A variable of the function (parameters first), a global it may write, or read-only memory. */
  datatype Root = Var(i: nat) | Global(g: nat) | Fixed(c: nat)

  datatype Place = Place(root: Root, path: seq<Expr>)

  datatype Expr = Lit(v: Value) | Read(place: Place) | Apply(f: seq<Value> -> Value, args: seq<Expr>)

  datatype Dir = In | Out | InOut

  datatype Param = Param(dir: Dir, aggregate: bool)

  datatype Arg = OfPlace(place: Place) | OfExpr(e: Expr)

  datatype Func = Func(params: seq<Param>, vars: nat, body: Stmt, result: Expr)

  datatype Stmt =
    | Assign(place: Place, e: Expr)
    | Block(stmts: seq<Stmt>)
    | If(cond: Expr, yes: Stmt, no: Stmt)
    | While(cond: Expr, body: Stmt)
    | Call(callee: Func, args: seq<Arg>, dest: Place)

  // ----- what sema records -----

  /** The statement writes the variable: it assigns it, or passes it to an out parameter. */
  predicate Writes(s: Stmt, i: nat) {
    match s
    case Assign(p, _) => p.root == Root.Var(i)
    case Block(stmts) => AnyWrites(stmts, i)
    case If(_, yes, no) => Writes(yes, i) || Writes(no, i)
    case While(_, body) => Writes(body, i)
    case Call(f, args, dest) =>
      dest.root == Root.Var(i) ||
      exists a :: 0 <= a < |args| && a < |f.params| && !f.params[a].dir.In? && args[a].OfPlace? && args[a].place.root == Root.Var(i)
  }

  predicate AnyWrites(stmts: seq<Stmt>, i: nat) {
    stmts != [] && (Writes(stmts[0], i) || AnyWrites(stmts[1..], i))
  }

  /** Whether argument a of a call binds its parameter to the caller's storage. */
  predicate ArgByReference(f: Func, args: seq<Arg>, a: nat) {
    && a < |f.params| && a < |args| && f.params[a].dir.In? && f.params[a].aggregate
    && !Writes(f.body, a)
    && args[a].OfPlace? && !args[a].place.root.Global?
  }

  // ----- running -----

  datatype Base = InFrame(depth: nat, i: nat) | InFixed(c: nat)

  datatype Target = Target(base: Base, path: seq<nat>)

  /** One function being executed: its variables, and which of them stand for storage elsewhere. */
  datatype Frame = Frame(vars: seq<Value>, refs: seq<Option<Target>>)

  datatype State = State(frames: seq<Frame>, globals: seq<Value>, fixed: seq<Value>)

  function Nth(vs: seq<Value>, i: nat): Value {
    if i < |vs| then vs[i] else Leaf(0)
  }

  function RefOf(f: Frame, i: nat): Option<Target> {
    if i < |f.refs| then f.refs[i] else None
  }

  function BaseValue(st: State, b: Base): Value {
    match b
    case InFrame(d, i) => if d < |st.frames| then Nth(st.frames[d].vars, i) else Leaf(0)
    case InFixed(c) => Nth(st.fixed, c)
  }

  /** Variable i of the function at depth d. */
  function VarValue(st: State, d: nat, i: nat): Value
    requires d < |st.frames|
  {
    var r := RefOf(st.frames[d], i);
    if r.Some? then Get(BaseValue(st, r.value.base), r.value.path) else Nth(st.frames[d].vars, i)
  }

  function RootValue(st: State, r: Root): Value
    requires st.frames != []
  {
    match r
    case Var(i) => VarValue(st, |st.frames| - 1, i)
    case Global(g) => Nth(st.globals, g)
    case Fixed(c) => Nth(st.fixed, c)
  }

  function AsIndex(v: Value): nat {
    if v.Leaf? && v.n >= 0 then v.n else 0
  }

  function Eval(st: State, e: Expr): Value
    requires st.frames != []
  {
    match e
    case Lit(v) => v
    case Read(p) => Get(RootValue(st, p.root), EvalPath(st, p.path))
    case Apply(f, args) => f(EvalAll(st, args))
  }

  function EvalAll(st: State, es: seq<Expr>): seq<Value>
    requires st.frames != []
  {
    if es == [] then [] else [Eval(st, es[0])] + EvalAll(st, es[1..])
  }

  function EvalPath(st: State, es: seq<Expr>): seq<nat>
    requires st.frames != []
  {
    if es == [] then [] else [AsIndex(Eval(st, es[0]))] + EvalPath(st, es[1..])
  }

  function Update(vs: seq<Value>, i: nat, path: seq<nat>, x: Value): seq<Value> {
    if i < |vs| then vs[i := Put(vs[i], path, x)] else vs
  }

  /** Writing through a root of the running function; read-only memory stays as it is. */
  function Write(st: State, r: Root, path: seq<nat>, x: Value): State
    requires st.frames != []
  {
    var d := |st.frames| - 1;
    match r
    case Var(i) => st.(frames := st.frames[d := st.frames[d].(vars := Update(st.frames[d].vars, i, path, x))])
    case Global(g) => st.(globals := Update(st.globals, g, path, x))
    case Fixed(_) => st
  }

  /** Where a place of the running function really is, seen through its own reference. */
  function TargetOf(st: State, p: Place): Target
    requires st.frames != [] && !p.root.Global?
  {
    var d := |st.frames| - 1;
    var path := EvalPath(st, p.path);
    match p.root
    case Fixed(c) => Target(InFixed(c), path)
    case Var(i) =>
      var r := RefOf(st.frames[d], i);
      if r.Some? then Target(r.value.base, r.value.path + path) else Target(InFrame(d, i), path)
  }

  function ArgValue(st: State, f: Func, args: seq<Arg>, a: nat): Value
    requires st.frames != []
  {
    if a >= |args| || a >= |f.params| || f.params[a].dir.Out? then Leaf(0)
    else match args[a]
      case OfPlace(p) => Eval(st, Read(p))
      case OfExpr(e) => Eval(st, e)
  }

  /** The callee's frame as the call starts. */
  function NewFrame(byRef: bool, st: State, f: Func, args: seq<Arg>): Frame
    requires st.frames != []
  {
    Frame(seq(f.vars, a requires 0 <= a < f.vars => ArgValue(st, f, args, a)),
          seq(f.vars, a requires 0 <= a < f.vars =>
            if byRef && ArgByReference(f, args, a) then Some(TargetOf(st, args[a].place)) else None))
  }

  datatype Outcome = Done(st: State) | NoFuel

  function Exec(byRef: bool, fuel: nat, s: Stmt, st: State): (o: Outcome)
    requires st.frames != []
    ensures o.Done? ==> |o.st.frames| == |st.frames|
    decreases fuel, s, 1
  {
    match s
    case Assign(p, e) => Done(Write(st, p.root, EvalPath(st, p.path), Eval(st, e)))
    case Block(stmts) => ExecAll(byRef, fuel, stmts, st)
    case If(cond, yes, no) => if Eval(st, cond) != Leaf(0) then Exec(byRef, fuel, yes, st) else Exec(byRef, fuel, no, st)
    case While(cond, body) =>
      if Eval(st, cond) == Leaf(0) then Done(st)
      else
        (match Exec(byRef, fuel, body, st)
         case Done(s1) => if fuel == 0 then NoFuel else Exec(byRef, fuel - 1, s, s1)
         case NoFuel => NoFuel)
    case Call(f, args, dest) =>
      match Exec(byRef, fuel, f.body, st.(frames := st.frames + [NewFrame(byRef, st, f, args)]))
      case Done(s1) => Done(Returned(s, EvalPath(st, dest.path), OutPaths(st, args), s1))
      case NoFuel => NoFuel
  }

  function ExecAll(byRef: bool, fuel: nat, stmts: seq<Stmt>, st: State): (o: Outcome)
    requires st.frames != []
    ensures o.Done? ==> |o.st.frames| == |st.frames|
    decreases fuel, stmts, 1
  {
    if stmts == [] then Done(st) else
      match Exec(byRef, fuel, stmts[0], st)
      case Done(s1) => ExecAll(byRef, fuel, stmts[1..], s1)
      case NoFuel => NoFuel
  }

  /** The paths of the place arguments, addressed before the call. */
  function OutPaths(st: State, args: seq<Arg>): (r: seq<seq<nat>>)
    requires st.frames != []
    ensures |r| == |args|
  {
    seq(|args|, a requires 0 <= a < |args| => if args[a].OfPlace? then EvalPath(st, args[a].place.path) else [])
  }

  function Pop(st: State): State
    requires |st.frames| > 1
  {
    st.(frames := st.frames[..|st.frames| - 1])
  }

  /** After the body: out arguments are written back in parameter order, then the result. */
  function Returned(call: Stmt, destPath: seq<nat>, paths: seq<seq<nat>>, st: State): (r: State)
    requires call.Call? && |st.frames| > 1 && |paths| == |call.args|
    ensures |r.frames| == |st.frames| - 1
  {
    var back := WriteBack(call, paths, st, Pop(st), |call.args|);
    Write(back, call.dest.root, destPath, Eval(st, call.callee.result))
  }

  function WriteBack(call: Stmt, paths: seq<seq<nat>>, st: State, into: State, n: nat): (r: State)
    requires call.Call? && st.frames != [] && into.frames != [] && n <= |call.args| == |paths|
    ensures |r.frames| == |into.frames|
  {
    if n == 0 then into
    else
      var before := WriteBack(call, paths, st, into, n - 1);
      var a := n - 1;
      if a < |call.callee.params| && !call.callee.params[a].dir.In? && call.args[a].OfPlace?
      then Write(before, call.args[a].place.root, paths[a], VarValue(st, |st.frames| - 1, a))
      else before
  }

  /** Only an aggregate that the callee leaves alone is passed by reference, and only from storage that the
      callee cannot reach. */
  lemma {:induction false} OnlyUnwrittenAggregates(f: Func, args: seq<Arg>, a: nat)
    requires ArgByReference(f, args, a)
    ensures f.params[a] == Param(In, true) && !Writes(f.body, a) && args[a].OfPlace? && (args[a].place.root.Var? || args[a].place.root.Fixed?)
  {
  }

  // ----- a run that copies and one that refers -----

  ghost predicate NoRefs(f: Frame) {
    forall i :: 0 <= i < |f.refs| ==> f.refs[i] == None
  }

  /** A reference leads to a variable further out that is not itself a reference. */
  ghost predicate LeadsOut(st: State, t: Target, d: nat) {
    t.base.InFrame? ==> t.base.depth < d && d <= |st.frames| && RefOf(st.frames[t.base.depth], t.base.i) == None
  }

  /** Variable i at depth d holds in the copying run a what it holds, or refers to, in b. */
  ghost predicate VarAgrees(a: State, b: State, d: nat, i: nat)
    requires d < |a.frames| == |b.frames|
  {
    var r := RefOf(b.frames[d], i);
    VarValue(a, d, i) == VarValue(b, d, i) && (r.Some? ==> LeadsOut(b, r.value, d))
  }

  ghost predicate FrameAgrees(a: State, b: State, d: nat)
    requires d < |a.frames| == |b.frames|
  {
    && NoRefs(a.frames[d]) && |a.frames[d].vars| == |b.frames[d].vars|
    && forall i: nat :: VarAgrees(a, b, d, i)
  }

  ghost predicate Agree(a: State, b: State) {
    && |a.frames| == |b.frames| && a.frames != [] && a.globals == b.globals && a.fixed == b.fixed
    && forall d :: 0 <= d < |a.frames| ==> FrameAgrees(a, b, d)
  }

  function Top(st: State): Frame
    requires st.frames != []
  {
    st.frames[|st.frames| - 1]
  }

  /** The statement writes nothing that the running function only refers to. */
  ghost predicate Spares(s: Stmt, f: Frame) {
    forall i: nat :: RefOf(f, i).Some? ==> !Writes(s, i)
  }

  ghost predicate SparesAll(stmts: seq<Stmt>, f: Frame) {
    forall i: nat :: RefOf(f, i).Some? ==> !AnyWrites(stmts, i)
  }

  ghost predicate SameRefs(a: State, b: State) {
    |a.frames| == |b.frames| && forall d :: 0 <= d < |a.frames| ==> a.frames[d].refs == b.frames[d].refs
  }

  // ----- reading -----

  lemma {:induction false} GetInParts(v: Value, p: seq<nat>, q: seq<nat>)
    ensures Get(v, p + q) == Get(Get(v, p), q)
    decreases |p|
  {
    if p == [] {
      assert p + q == q;
    } else {
      assert (p + q)[0] == p[0] && (p + q)[1..] == p[1..] + q;
      if v.Agg? && p[0] < |v.parts| {
        GetInParts(v.parts[p[0]], p[1..], q);
      } else {
        LeafHasNoParts(q);
      }
    }
  }

  lemma {:induction false} LeafHasNoParts(q: seq<nat>)
    ensures Get(Leaf(0), q) == Leaf(0)
  {
  }

  lemma {:induction false} RootsAgree(a: State, b: State, r: Root)
    requires Agree(a, b)
    ensures RootValue(a, r) == RootValue(b, r)
  {
    assert FrameAgrees(a, b, |a.frames| - 1);
    if r.Var? {
      assert VarAgrees(a, b, |a.frames| - 1, r.i);
    }
  }

  lemma {:induction false} EvalAgrees(a: State, b: State, e: Expr)
    requires Agree(a, b)
    ensures Eval(a, e) == Eval(b, e)
    decreases e, 1
  {
    match e
    case Lit(_) =>
    case Read(p) =>
      RootsAgree(a, b, p.root);
      PathsAgree(a, b, p.path);
    case Apply(_, args) => EvalAllAgrees(a, b, args);
  }

  lemma {:induction false} EvalAllAgrees(a: State, b: State, es: seq<Expr>)
    requires Agree(a, b)
    ensures EvalAll(a, es) == EvalAll(b, es)
    decreases es, 1
  {
    if es != [] {
      EvalAgrees(a, b, es[0]);
      EvalAllAgrees(a, b, es[1..]);
    }
  }

  lemma {:induction false} PathsAgree(a: State, b: State, es: seq<Expr>)
    requires Agree(a, b)
    ensures EvalPath(a, es) == EvalPath(b, es)
    decreases es, 1
  {
    if es != [] {
      EvalAgrees(a, b, es[0]);
      PathsAgree(a, b, es[1..]);
    }
  }

  // ----- writing -----

  /** Writing a variable of its own in the running function reaches no reference. */
  lemma {:induction false} WriteAgrees(a: State, b: State, r: Root, path: seq<nat>, x: Value)
    requires Agree(a, b) && (r.Var? ==> RefOf(Top(b), r.i) == None)
    ensures Agree(Write(a, r, path, x), Write(b, r, path, x))
    ensures SameRefs(a, Write(a, r, path, x)) && SameRefs(b, Write(b, r, path, x))
  {
    var a', b' := Write(a, r, path, x), Write(b, r, path, x);
    var top := |a.frames| - 1;
    forall d | 0 <= d < |a'.frames|
      ensures FrameAgrees(a', b', d)
    {
      assert FrameAgrees(a, b, d);
      forall i: nat
        ensures VarAgrees(a', b', d, i)
      {
        assert VarAgrees(a, b, d, i);
        if r.Var? {
          assert FrameAgrees(a, b, top);
          assert VarAgrees(a, b, top, r.i);
        }
      }
    }
  }

  // ----- calls -----

  /** The argument a call copies is what the reference leads to. */
  lemma {:induction false} ReferenceLeadsToArgument(b: State, p: Place)
    requires b.frames != [] && !p.root.Global?
    requires p.root.Var? && RefOf(Top(b), p.root.i).Some? ==> LeadsOut(b, RefOf(Top(b), p.root.i).value, |b.frames| - 1)
    ensures LeadsOut(b, TargetOf(b, p), |b.frames|)
    ensures Eval(b, Read(p)) == Get(BaseValue(b, TargetOf(b, p).base), TargetOf(b, p).path)
  {
    if p.root.Var? {
      var r := RefOf(Top(b), p.root.i);
      if r.Some? {
        GetInParts(BaseValue(b, r.value.base), r.value.path, EvalPath(b, p.path));
      }
    }
  }

  lemma {:induction false} ArgsAgree(a: State, b: State, f: Func, args: seq<Arg>, i: nat)
    requires Agree(a, b)
    ensures ArgValue(a, f, args, i) == ArgValue(b, f, args, i)
  {
    if i < |args| {
      match args[i]
      case OfPlace(p) => EvalAgrees(a, b, Read(p));
      case OfExpr(e) => EvalAgrees(a, b, e);
    }
  }

  ghost function Push(byRef: bool, st: State, f: Func, args: seq<Arg>): State
    requires st.frames != []
  {
    st.(frames := st.frames + [NewFrame(byRef, st, f, args)])
  }

  /** The runs agree as the callee starts, and the callee spares what it refers to. */
  lemma {:induction false} CallsStartAgreeing(a: State, b: State, f: Func, args: seq<Arg>)
    requires Agree(a, b)
    ensures Agree(Push(false, a, f, args), Push(true, b, f, args))
    ensures Spares(f.body, NewFrame(true, b, f, args))
  {
    var a', b' := Push(false, a, f, args), Push(true, b, f, args);
    forall d | 0 <= d < |a'.frames|
      ensures FrameAgrees(a', b', d)
    {
      if d < |a.frames| {
        OlderFrameAgrees(a, b, a', b', d);
      } else {
        NewFrameAgrees(a, b, f, args);
      }
    }
  }

  /** Frames further out are not affected by those further in. */
  lemma {:induction false} OlderFrameAgrees(a: State, b: State, a': State, b': State, d: nat)
    requires d < |a.frames| == |b.frames| <= |a'.frames| == |b'.frames| && FrameAgrees(a, b, d)
    requires a.fixed == a'.fixed && b.fixed == b'.fixed
    requires a'.frames[..|a.frames|] == a.frames && b'.frames[..|b.frames|] == b.frames
    ensures FrameAgrees(a', b', d)
  {
    assert forall k :: 0 <= k < |a.frames| ==> a'.frames[k] == a.frames[k] && b'.frames[k] == b.frames[k];
    forall i: nat
      ensures VarAgrees(a', b', d, i)
    {
      assert VarAgrees(a, b, d, i);
    }
  }

  lemma {:induction false} NewFrameAgrees(a: State, b: State, f: Func, args: seq<Arg>)
    requires Agree(a, b)
    ensures FrameAgrees(Push(false, a, f, args), Push(true, b, f, args), |a.frames|)
  {
    forall i: nat
      ensures VarAgrees(Push(false, a, f, args), Push(true, b, f, args), |a.frames|, i)
    {
      NewVarAgrees(a, b, f, args, i);
    }
  }

  lemma {:induction false} NewVarAgrees(a: State, b: State, f: Func, args: seq<Arg>, i: nat)
    requires Agree(a, b)
    ensures VarAgrees(Push(false, a, f, args), Push(true, b, f, args), |a.frames|, i)
  {
    var a', b', n := Push(false, a, f, args), Push(true, b, f, args), |a.frames|;
    assert forall k :: 0 <= k < n ==> b'.frames[k] == b.frames[k];
    assert RefOf(a'.frames[n], i) == None;
    ArgsAgree(a, b, f, args, i);
    if i < f.vars && ArgByReference(f, args, i) {
      var p := args[i].place;
      assert FrameAgrees(a, b, n - 1);
      if p.root.Var? {
        assert VarAgrees(a, b, n - 1, p.root.i);
      }
      ReferenceLeadsToArgument(b, p);
      assert BaseValue(b', TargetOf(b, p).base) == BaseValue(b, TargetOf(b, p).base);
    }
  }

  lemma {:induction false} PopAgrees(a: State, b: State)
    requires Agree(a, b) && |a.frames| > 1
    ensures Agree(Pop(a), Pop(b))
  {
    forall d | 0 <= d < |a.frames| - 1
      ensures FrameAgrees(Pop(a), Pop(b), d)
    {
      assert FrameAgrees(a, b, d);
      forall i: nat
        ensures VarAgrees(Pop(a), Pop(b), d, i)
      {
        assert VarAgrees(a, b, d, i);
      }
    }
  }

  /** Writing back out arguments: none of them is something the caller only refers to. */
  lemma {:induction false} WriteBackAgrees(call: Stmt, paths: seq<seq<nat>>, a: State, b: State, n: nat)
    requires call.Call? && Agree(a, b) && |a.frames| > 1 && n <= |call.args| == |paths|
    requires Spares(call, Top(Pop(b)))
    ensures var x, y := WriteBack(call, paths, a, Pop(a), n), WriteBack(call, paths, b, Pop(b), n);
            Agree(x, y) && SameRefs(Pop(a), x) && SameRefs(Pop(b), y)
  {
    PopAgrees(a, b);
    if n > 0 {
      WriteBackAgrees(call, paths, a, b, n - 1);
      var i := n - 1;
      if i < |call.callee.params| && !call.callee.params[i].dir.In? && call.args[i].OfPlace? {
        var r := call.args[i].place.root;
        if r.Var? {
          assert Writes(call, r.i);
        }
        assert VarAgrees(a, b, |a.frames| - 1, i) by { assert FrameAgrees(a, b, |a.frames| - 1); }
        WriteAgrees(WriteBack(call, paths, a, Pop(a), i), WriteBack(call, paths, b, Pop(b), i), r, paths[i],
                    VarValue(a, |a.frames| - 1, i));
      }
    }
  }

  lemma {:induction false} ReturnAgrees(call: Stmt, destPath: seq<nat>, paths: seq<seq<nat>>, a: State, b: State)
    requires call.Call? && Agree(a, b) && |a.frames| > 1 && |paths| == |call.args|
    requires Spares(call, Top(Pop(b)))
    ensures Agree(Returned(call, destPath, paths, a), Returned(call, destPath, paths, b))
    ensures SameRefs(Pop(a), Returned(call, destPath, paths, a)) && SameRefs(Pop(b), Returned(call, destPath, paths, b))
  {
    var n := |call.args|;
    WriteBackAgrees(call, paths, a, b, n);
    EvalAgrees(a, b, call.callee.result);
    if call.dest.root.Var? {
      assert Writes(call, call.dest.root.i);
    }
    WriteAgrees(WriteBack(call, paths, a, Pop(a), n), WriteBack(call, paths, b, Pop(b), n), call.dest.root, destPath,
                Eval(a, call.callee.result));
  }

  // ----- whole runs -----

  ghost predicate OutcomesAgree(a: State, b: State, x: Outcome, y: Outcome) {
    (x.Done? <==> y.Done?) && (x.Done? ==> Agree(x.st, y.st) && SameRefs(a, x.st) && SameRefs(b, y.st))
  }

  lemma {:induction false} RunsAgree(fuel: nat, s: Stmt, a: State, b: State)
    requires Agree(a, b) && Spares(s, Top(b))
    ensures OutcomesAgree(a, b, Exec(false, fuel, s, a), Exec(true, fuel, s, b))
    decreases fuel, s, 1
  {
    match s
    case Assign(p, e) =>
      EvalAgrees(a, b, e);
      PathsAgree(a, b, p.path);
      if p.root.Var? {
        assert Writes(s, p.root.i);
      }
      WriteAgrees(a, b, p.root, EvalPath(a, p.path), Eval(a, e));
    case Block(stmts) =>
      assert SparesAll(stmts, Top(b));
      AllRunsAgree(fuel, stmts, a, b);
    case If(cond, yes, no) =>
      EvalAgrees(a, b, cond);
      assert Spares(yes, Top(b)) && Spares(no, Top(b));
      if Eval(a, cond) != Leaf(0) { RunsAgree(fuel, yes, a, b); } else { RunsAgree(fuel, no, a, b); }
    case While(_, _) => LoopsAgree(fuel, s, a, b);
    case Call(_, _, _) => CallsAgree(fuel, s, a, b);
  }

  lemma {:induction false} LoopsAgree(fuel: nat, s: Stmt, a: State, b: State)
    requires s.While? && Agree(a, b) && Spares(s, Top(b))
    ensures OutcomesAgree(a, b, Exec(false, fuel, s, a), Exec(true, fuel, s, b))
    decreases fuel, s, 0
  {
    EvalAgrees(a, b, s.cond);
    if Eval(a, s.cond) != Leaf(0) {
      assert Spares(s.body, Top(b));
      RunsAgree(fuel, s.body, a, b);
      var x, y := Exec(false, fuel, s.body, a), Exec(true, fuel, s.body, b);
      if x.Done? && fuel > 0 {
        assert Top(y.st).refs == Top(b).refs;
        RunsAgree(fuel - 1, s, x.st, y.st);
      }
    }
  }

  lemma {:induction false} CallsAgree(fuel: nat, s: Stmt, a: State, b: State)
    requires s.Call? && Agree(a, b) && Spares(s, Top(b))
    ensures OutcomesAgree(a, b, Exec(false, fuel, s, a), Exec(true, fuel, s, b))
    decreases fuel, s, 0
  {
    var f, args := s.callee, s.args;
    CallsStartAgreeing(a, b, f, args);
    RunsAgree(fuel, f.body, Push(false, a, f, args), Push(true, b, f, args));
    PathsAgree(a, b, s.dest.path);
    OutPathsAgree(a, b, args);
    var x := Exec(false, fuel, f.body, Push(false, a, f, args));
    var y := Exec(true, fuel, f.body, Push(true, b, f, args));
    if x.Done? {
      BackInCaller(a, Push(false, a, f, args), x.st);
      BackInCaller(b, Push(true, b, f, args), y.st);
      ReturnAgrees(s, EvalPath(a, s.dest.path), OutPaths(a, args), x.st, y.st);
    }
  }

  lemma {:induction false} OutPathsAgree(a: State, b: State, args: seq<Arg>)
    requires Agree(a, b)
    ensures OutPaths(a, args) == OutPaths(b, args)
  {
    forall i | 0 <= i < |args|
      ensures OutPaths(a, args)[i] == OutPaths(b, args)[i]
    {
      if args[i].OfPlace? {
        PathsAgree(a, b, args[i].place.path);
      }
    }
  }

  /** A call gives the caller's frame back with the references it had. */
  lemma {:induction false} BackInCaller(b: State, pushed: State, after: State)
    requires b.frames != [] && |pushed.frames| == |b.frames| + 1 && pushed.frames[..|b.frames|] == b.frames
    requires SameRefs(pushed, after)
    ensures SameRefs(b, Pop(after)) && Top(Pop(after)).refs == Top(b).refs
  {
    assert forall k :: 0 <= k < |b.frames| ==> pushed.frames[k] == b.frames[k];
  }

  lemma {:induction false} StillSpared(stmts: seq<Stmt>, f: Frame, g: Frame)
    requires stmts != [] && SparesAll(stmts, f) && f.refs == g.refs
    ensures SparesAll(stmts[1..], g)
  {
    assert forall i: nat :: RefOf(g, i) == RefOf(f, i);
  }

  lemma {:induction false} AllRunsAgree(fuel: nat, stmts: seq<Stmt>, a: State, b: State)
    requires Agree(a, b) && SparesAll(stmts, Top(b))
    ensures OutcomesAgree(a, b, ExecAll(false, fuel, stmts, a), ExecAll(true, fuel, stmts, b))
    decreases fuel, stmts, 1
  {
    if stmts != [] {
      assert Spares(stmts[0], Top(b));
      RunsAgree(fuel, stmts[0], a, b);
      var x, y := Exec(false, fuel, stmts[0], a), Exec(true, fuel, stmts[0], b);
      if x.Done? {
        StillSpared(stmts, Top(b), Top(y.st));
        AllRunsAgree(fuel, stmts[1..], x.st, y.st);
      }
    }
  }

  /** From an entry point, which refers to nothing, passing by reference wherever it is allowed
      gives exactly the memory that copying every argument gives. */
  lemma {:induction false} ReferencesAreUnobservable(fuel: nat, s: Stmt, st: State)
    requires |st.frames| == 1 && NoRefs(st.frames[0])
    ensures Exec(true, fuel, s, st) == Exec(false, fuel, s, st)
  {
    assert FrameAgrees(st, st, 0) by {
      assert forall i: nat :: VarAgrees(st, st, 0, i);
    }
    RunsAgree(fuel, s, st, st);
    var x, y := Exec(false, fuel, s, st), Exec(true, fuel, s, st);
    if x.Done? {
      assert FrameAgrees(x.st, y.st, 0);
      SameVars(x.st, y.st);
    }
  }

  lemma {:induction false} SameVars(a: State, b: State)
    requires Agree(a, b) && |a.frames| == 1 && NoRefs(b.frames[0]) && a.frames[0].refs == b.frames[0].refs
    ensures a == b
  {
    assert FrameAgrees(a, b, 0);
    forall i | 0 <= i < |a.frames[0].vars|
      ensures a.frames[0].vars[i] == b.frames[0].vars[i]
    {
      assert VarAgrees(a, b, 0, i);
    }
    assert a.frames[0].vars == b.frames[0].vars;
    assert a.frames == [a.frames[0]] && b.frames == [b.frames[0]];
  }
}
