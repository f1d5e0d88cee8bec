/** Statements of a shader function as its author wrote them, and what running them does.
    Expressions are functions of the variables' store; `pre` is the code an expression runs
    first (its side effects and the calls inside it). */
module SourceRuns {
  import opened Ir

  type Store(!new)   // the values of all source variables
  type Word(!new)    // a returned value

  datatype Stmt =
    | Act(f: Store -> Store)
    | Block(stmts: seq<Stmt>)
    | If(pre: seq<Stmt>, cond: Store -> bool, yes: Stmt, no: Option<Stmt>)
      // a `while` is a For with no init and no inc: it is lowered the same way
    | For(init: seq<Stmt>, pre: seq<Stmt>, test: Option<Store -> bool>, body: Stmt, inc: seq<Stmt>)
    | Do(body: Stmt, pre: seq<Stmt>, cond: Store -> bool)
    | Switch(pre: seq<Stmt>, value: Store -> int, cases: seq<Case>)
    | Break | Continue | Discard
    | Return(pre: seq<Stmt>, result: Option<Store -> Word>)
      // argument code, callee body, write-back of out arguments, and the use of the result
    | Call(args: seq<Stmt>, body: Stmt, nonVoid: bool, copyOut: Store -> Store, use: (Store, Option<Word>) -> Store)

  // The default case has no tag.
  datatype Case = Case(tag: Option<int>, body: seq<Stmt>)

  datatype Outcome =
    | Normal(st: Store)
    | Broke(st: Store) | Continued(st: Store)
    | Returned(st: Store, value: Option<Word>)
    | Discarded(st: Store)
    | Undefined          // a value was asked of a call that returned none
    | NoFuel             // more back edges than the fuel allows

  // ----- running -----

  function Exec(fuel: nat, s: Stmt, st: Store): Outcome
    decreases fuel, s, 1
  {
    match s
    case Act(f) => Normal(f(st))
    case Block(stmts) => ExecAll(fuel, stmts, st)
    case If(pre, cond, yes, no) =>
      (match ExecAll(fuel, pre, st)
       case Normal(s1) => if cond(s1) then Exec(fuel, yes, s1)
                          else if no.Some? then Exec(fuel, no.value, s1) else Normal(s1)
       case other => other)
    case For(init, _, _, _, _) =>
      (match ExecAll(fuel, init, st)
       case Normal(s1) => ExecFor(fuel, s, s1)
       case other => other)
    case Do(_, _, _) => ExecDo(fuel, s, st)
    case Switch(pre, value, cases) =>
      (match ExecAll(fuel, pre, st)
       case Normal(s1) =>
         var from := Chosen(Tags(cases), value(s1));
         (match ExecCases(fuel, cases, from, s1)
          case Broke(s2) => Normal(s2)
          case other => other)
       case other => other)
    case Break => Broke(st)
    case Continue => Continued(st)
    case Discard => Discarded(st)
    case Return(pre, result) =>
      (match ExecAll(fuel, pre, st)
       case Normal(s1) => Returned(s1, if result.Some? then Some(result.value(s1)) else None)
       case other => other)
    case Call(args, body, _, _, _) =>
      (match ExecAll(fuel, args, st)
       case Normal(s1) => Finished(s, Exec(fuel, body, s1))
       case other => other)
  }

  /** What a call does once its body has ended. */
  function Finished(call: Stmt, o: Outcome): Outcome
    requires call.Call?
  {
    match o
    case Normal(st) => if call.nonVoid then Undefined else Normal(call.use(call.copyOut(st), None))
    case Returned(st, v) =>
      if !call.nonVoid then Normal(call.use(call.copyOut(st), None))
      else if v.None? then Undefined else Normal(call.use(call.copyOut(st), v))
    case Broke(_) => Undefined
    case Continued(_) => Undefined
    case _ => o
  }

  function ExecAll(fuel: nat, stmts: seq<Stmt>, st: Store): Outcome
    decreases fuel, stmts, 1
  {
    if stmts == [] then Normal(st) else
      match Exec(fuel, stmts[0], st)
      case Normal(s1) => ExecAll(fuel, stmts[1..], s1)
      case other => other
  }

  /** The cases from the k-th on, each falling through into the next. */
  function ExecCases(fuel: nat, cases: seq<Case>, k: nat, st: Store): Outcome
    decreases fuel, cases, 1
  {
    if cases == [] then Normal(st)
    else if k > 0 then ExecCases(fuel, cases[1..], k - 1, st)
    else
      match ExecAll(fuel, cases[0].body, st)
      case Normal(s1) => ExecCases(fuel, cases[1..], 0, s1)
      case other => other
  }

  // Passes from the loop test on; each further pass costs one unit of fuel.
  function ExecFor(fuel: nat, s: Stmt, st: Store): Outcome
    requires s.For?
    decreases fuel, s, 0
  {
    match ExecAll(fuel, s.pre, st)
    case Normal(s1) =>
      if s.test.Some? && !s.test.value(s1) then Normal(s1) else
        (match Exec(fuel, s.body, s1)
         case Normal(s2) => ForAgain(fuel, s, s2)
         case Continued(s2) => ForAgain(fuel, s, s2)
         case Broke(s2) => Normal(s2)
         case other => other)
    case other => other
  }

  function ForAgain(fuel: nat, s: Stmt, st: Store): Outcome
    requires s.For?
    decreases fuel, s.inc, 2
  {
    match ExecAll(fuel, s.inc, st)
    case Normal(s1) => if fuel == 0 then NoFuel else ExecFor(fuel - 1, s, s1)
    case other => other
  }

  function ExecDo(fuel: nat, s: Stmt, st: Store): Outcome
    requires s.Do?
    decreases fuel, s, 0
  {
    match Exec(fuel, s.body, st)
    case Normal(s1) => DoAgain(fuel, s, s1)
    case Continued(s1) => DoAgain(fuel, s, s1)
    case Broke(s1) => Normal(s1)
    case other => other
  }

  function DoAgain(fuel: nat, s: Stmt, st: Store): Outcome
    requires s.Do?
    decreases fuel, s.pre, 2
  {
    match ExecAll(fuel, s.pre, st)
    case Normal(s1) => if !s.cond(s1) then Normal(s1) else if fuel == 0 then NoFuel else ExecDo(fuel - 1, s, s1)
    case other => other
  }

  // ----- choosing a case -----

  function Tags(cases: seq<Case>): (tags: seq<Option<int>>)
    ensures |tags| == |cases|
    ensures forall k :: 0 <= k < |tags| ==> tags[k] == cases[k].tag
  {
    seq(|cases|, k requires 0 <= k < |cases| => cases[k].tag)
  }

  function FirstAt(tags: seq<Option<int>>, tag: Option<int>): (k: nat)
    ensures k <= |tags|
  {
    if tags == [] || tags[0] == tag then 0 else 1 + FirstAt(tags[1..], tag)
  }

  /** The case a value selects: its own, else the default, else none. */
  function Chosen(tags: seq<Option<int>>, v: int): (k: nat)
    ensures k <= |tags|
  {
    var own := FirstAt(tags, Some(v));
    if own < |tags| then own else FirstAt(tags, None)
  }

  lemma {:induction false} FirstAtIs(tags: seq<Option<int>>, tag: Option<int>)
    ensures var k := FirstAt(tags, tag);
            && (k < |tags| <==> tag in tags) && (k < |tags| ==> tags[k] == tag)
            && forall j :: 0 <= j < k ==> tags[j] != tag
  {
    if tags != [] && tags[0] != tag {
      FirstAtIs(tags[1..], tag);
    }
  }

  /** A value that has a case selects it, wherever the default stands; another one selects the default; and
      without a default, nothing. */
  lemma {:induction false} OwnCaseBeforeDefault(tags: seq<Option<int>>, v: int)
    ensures var k := Chosen(tags, v);
            if Some(v) in tags then k < |tags| && tags[k] == Some(v) && forall j :: 0 <= j < k ==> tags[j] != Some(v)
            else if None in tags then k < |tags| && tags[k] == None && forall j :: 0 <= j < k ==> tags[j] != None
            else k == |tags|
  {
    FirstAtIs(tags, Some(v));
    FirstAtIs(tags, None);
  }

  // ----- what the grammar allows where -----

  /** Code of an expression: no jumps and no returns of its own. */
  predicate IsExpr(s: Stmt) {
    match s
    case Act(_) => true
    case Block(stmts) => AreExprs(stmts)
    case If(pre, _, yes, no) => AreExprs(pre) && IsExpr(yes) && (no.Some? ==> IsExpr(no.value))
    case Call(args, body, _, _, _) => AreExprs(args) && Enclosed(body, false, false)
    case _ => false
  }

  predicate AreExprs(stmts: seq<Stmt>) {
    stmts == [] || (IsExpr(stmts[0]) && AreExprs(stmts[1..]))
  }

  /** Every break and continue has a construct to leave; `brk` and `cont` say which ones the
      surroundings offer. */
  predicate Enclosed(s: Stmt, brk: bool, cont: bool) {
    match s
    case Act(_) => true
    case Block(stmts) => AllEnclosed(stmts, brk, cont)
    case If(pre, _, yes, no) =>
      AreExprs(pre) && Enclosed(yes, brk, cont) && (no.Some? ==> Enclosed(no.value, brk, cont))
    case For(init, pre, _, body, inc) =>
      AreExprs(init) && AreExprs(pre) && AreExprs(inc) && Enclosed(body, true, true)
    case Do(body, pre, _) => AreExprs(pre) && Enclosed(body, true, true)
    case Switch(pre, _, cases) => AreExprs(pre) && CasesEnclosed(cases, cont)
    case Break => brk
    case Continue => cont
    case Discard => true
    case Return(pre, _) => AreExprs(pre)
    case Call(args, body, _, _, _) => AreExprs(args) && Enclosed(body, false, false)
  }

  predicate AllEnclosed(stmts: seq<Stmt>, brk: bool, cont: bool) {
    stmts == [] || (Enclosed(stmts[0], brk, cont) && AllEnclosed(stmts[1..], brk, cont))
  }

  predicate CasesEnclosed(cases: seq<Case>, cont: bool) {
    cases == [] || (AllEnclosed(cases[0].body, true, cont) && CasesEnclosed(cases[1..], cont))
  }

  // ----- counting returns -----

  /** The return statements of a body, not counting those of the functions it calls. */
  function CountReturns(s: Stmt): nat {
    match s
    case Return(_, _) => 1
    case Block(stmts) => CountAll(stmts)
    case If(_, _, yes, no) => CountReturns(yes) + if no.Some? then CountReturns(no.value) else 0
    case For(_, _, _, body, _) => CountReturns(body)
    case Do(body, _, _) => CountReturns(body)
    case Switch(_, _, cases) => CountCases(cases)
    case _ => 0
  }

  function CountAll(stmts: seq<Stmt>): nat {
    if stmts == [] then 0 else CountReturns(stmts[0]) + CountAll(stmts[1..])
  }

  function CountCases(cases: seq<Case>): nat {
    if cases == [] then 0 else CountAll(cases[0].body) + CountCases(cases[1..])
  }
}
