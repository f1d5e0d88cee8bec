/** Lowering statements to structured code, every call inlined. Inside an inlined body a
    `return` becomes a store of the result and, unless it is the body's tail, a break out of a
    one-trip loop around the body; from inside loops and switches it cascades outward behind a
    `returned` flag. */
module Lowering {
  import opened Ir
  import opened SourceRuns
  import opened LoweredRuns

  // ----- what decides the shape -----

  /** The body's only return, if it has one, is its last top-level statement. */
  predicate TailReturnOnly(body: Stmt) {
    var n := CountReturns(body);
    n == 0 || (n == 1 && body.Block? && body.stmts != [] && body.stmts[|body.stmts| - 1].Return?)
  }

  /** A return sits inside a loop or switch, which one break cannot leave together with the
      wrapper. */
  predicate ReturnInsideLoop(s: Stmt, inLoop: bool) {
    match s
    case Return(_, _) => inLoop
    case Block(stmts) => AnyInsideLoop(stmts, inLoop)
    case If(_, _, yes, no) => ReturnInsideLoop(yes, inLoop) || (no.Some? && ReturnInsideLoop(no.value, inLoop))
    case For(_, _, _, body, _) => ReturnInsideLoop(body, true)
    case Do(body, _, _) => ReturnInsideLoop(body, true)
    case Switch(_, _, cases) => CasesInsideLoop(cases)
    case _ => false
  }

  predicate AnyInsideLoop(stmts: seq<Stmt>, inLoop: bool) {
    stmts != [] && (ReturnInsideLoop(stmts[0], inLoop) || AnyInsideLoop(stmts[1..], inLoop))
  }

  predicate CasesInsideLoop(cases: seq<Case>) {
    cases != [] && (AnyInsideLoop(cases[0].body, true) || CasesInsideLoop(cases[1..]))
  }

  /** Where code is being lowered to: the entry point, whose returns store the outputs, or an
      inlined body, with the slots of its result and its `returned` flag. */
  datatype Ctx =
    | Entry(outputs: (Store, Option<Word>) -> Store)
    | Inlined(result: Option<nat>, returned: Option<nat>, tail: bool)

  predicate HasFlag(c: Ctx) {
    c.Inlined? && c.returned.Some?
  }

  // ----- the code -----

  function Len(cs: seq<Code>): nat {
    |FlatAll(cs)|
  }

  /** `if (returned) break;`, one level further out. */
  function Guard(c: Ctx, hasReturn: bool): seq<Code> {
    if HasFlag(c) && hasReturn then [Branch(Flag(c.returned.value), [Leave], false, [])] else []
  }

  function LoopExit(test: Option<Store -> bool>): seq<Code> {
    if test.Some? then [Branch(Fails(test.value), [Leave], false, [])] else []
  }

  function ReturnCode(c: Ctx, result: Option<Store -> Word>): seq<Code> {
    match c
    case Entry(outputs) =>
      [Step((st: Store) => outputs(st, if result.Some? then Some(result.value(st)) else None)), Exit]
    case Inlined(slot, flag, tail) =>
      (if slot.Some? && result.Some? then [SetResult(slot.value, result.value)] else []) +
      (if tail then [] else (if flag.Some? then [SetFlag(flag.value, true)] else []) + [Leave])
  }

  predicate NeedsFlag(body: Stmt) {
    !TailReturnOnly(body) && ReturnInsideLoop(body, false)
  }

  /** The context of a call whose first declaration gets index m. */
  function CalleeCtx(s: Stmt, m: nat): Ctx
    requires s.Call?
  {
    Inlined(if s.nonVoid then Some(m) else None,
            if NeedsFlag(s.body) then Some(m + if s.nonVoid then 1 else 0) else None,
            TailReturnOnly(s.body))
  }

  function Declarations(s: Stmt, m: nat): seq<Code>
    requires s.Call?
  {
    var c := CalleeCtx(s, m);
    (if s.nonVoid then [Slot] else []) +
    (if HasFlag(c) then [Slot, SetFlag(c.returned.value, false)] else [])
  }

  function Wrapped(c: Ctx, body: seq<Code>): seq<Code> {
    if c.Inlined? && c.tail then body else [Code.Loop(body + [Leave], false, [], None)]
  }

  /** The index of the first instruction of an inlined body. */
  function BodyAt(s: Stmt, m: nat): nat
    requires s.Call?
  {
    m + Len(Declarations(s, m)) + if TailReturnOnly(s.body) then 0 else 1
  }

  /** The code of s when its first instruction gets index n. */
  function Lower(s: Stmt, c: Ctx, n: nat): seq<Code>
    decreases s, 4
  {
    match s
    case Act(f) => [Step(f)]
    case Block(stmts) => LowerAll(stmts, c, n)
    case If(pre, _, _, _) =>
      var p := LowerAll(pre, c, n);
      p + [IfBranch(s, c, n + Len(p))]
    case For(init, _, _, body, _) =>
      var i := LowerAll(init, c, n);
      i + ([ForLoop(s, c, n + Len(i))] + Guard(c, CountReturns(body) > 0))
    case Do(body, _, _) => [DoLoop(s, c, n)] + Guard(c, CountReturns(body) > 0)
    case Switch(pre, value, cases) =>
      var p := LowerAll(pre, c, n);
      p + ([Code.Select(value, LowerCases(cases, c, n + Len(p) + 1))] + Guard(c, CountReturns(s) > 0))
    case Break => [Leave]
    case Continue => [Next]
    case Discard => [Kill]
    case Return(pre, result) => LowerAll(pre, c, n) + ReturnCode(c, result)
    case Call(args, _, _, _, _) =>
      var a := LowerAll(args, c, n);
      a + CalleeCode(s, n + Len(a))
  }

  /** The selection of an `if`, its marker at index m. */
  function IfBranch(s: Stmt, c: Ctx, m: nat): Code
    requires s.If?
    decreases s, 3
  {
    var y := Lower(s.yes, c, m + 1);
    Branch(Holds(s.cond), y, s.no.Some?, if s.no.Some? then Lower(s.no.value, c, m + 1 + Len(y) + 1) else [])
  }

  /** A call from its declarations on. */
  function CalleeCode(s: Stmt, m: nat): seq<Code>
    requires s.Call?
    decreases s, 3
  {
    var inner := CalleeCtx(s, m);
    Declarations(s, m) + (Wrapped(inner, Lower(s.body, inner, BodyAt(s, m))) +
                          [Step(s.copyOut), UseResult(inner.result, s.use)])
  }

  /** The loop of a `for`, its marker at index m. */
  function ForLoop(s: Stmt, c: Ctx, m: nat): Code
    requires s.For?
    decreases s, 3
  {
    var b := ForBody(s, c, m + 1);
    Code.Loop(b, true, LowerAll(s.inc, c, m + 1 + Len(b) + 1), None)
  }

  function ForBody(s: Stmt, c: Ctx, n: nat): seq<Code>
    requires s.For?
    decreases s, 2
  {
    var x := ForHead(s, c, n);
    x + Lower(s.body, c, n + Len(x))
  }

  /** The code before the body: the condition, and the exit when it fails. */
  function ForHead(s: Stmt, c: Ctx, n: nat): seq<Code>
    requires s.For?
    decreases s, 1
  {
    LowerAll(s.pre, c, n) + LoopExit(s.test)
  }

  /** The loop of a `do`: its condition is the last thing in the continue section. */
  function DoLoop(s: Stmt, c: Ctx, m: nat): Code
    requires s.Do?
    decreases s, 3
  {
    var b := Lower(s.body, c, m + 1);
    Code.Loop(b, true, LowerAll(s.pre, c, m + 1 + Len(b) + 1), Some(s.cond))
  }

  function LowerAll(stmts: seq<Stmt>, c: Ctx, n: nat): seq<Code>
    decreases stmts, 1
  {
    if stmts == [] then [] else
      var first := Lower(stmts[0], c, n);
      first + LowerAll(stmts[1..], c, n + Len(first))
  }

  function LowerCases(cases: seq<Case>, c: Ctx, n: nat): (arms: seq<Arm>)
    ensures |arms| == |cases|
    decreases cases, 1
  {
    if cases == [] then [] else
      var body := LowerAll(cases[0].body, c, n + 1);
      [Arm(cases[0].tag, body)] + LowerCases(cases[1..], c, n + 1 + Len(body))
  }

  lemma {:induction false} SameTags(cases: seq<Case>, c: Ctx, n: nat)
    ensures ArmTags(LowerCases(cases, c, n)) == Tags(cases)
  {
    if cases != [] {
      var body := LowerAll(cases[0].body, c, n + 1);
      SameTags(cases[1..], c, n + 1 + Len(body));
      forall k | 0 <= k < |cases|
        ensures LowerCases(cases, c, n)[k].tag == cases[k].tag
      {
        if k > 0 {
          var rest := LowerCases(cases[1..], c, n + 1 + Len(body));
          assert ArmTags(rest)[k - 1] == Tags(cases[1..])[k - 1];
        }
      }
    }
  }

  /** A whole entry point whose first instruction gets index n: it always ends in a return. */
  function LowerEntry(body: Stmt, outputs: (Store, Option<Word>) -> Store, n: nat): seq<Code> {
    var code := Lower(body, Entry(outputs), n);
    if code != [] && code[|code| - 1].Exit? then code else code + [Exit]
  }
}
