/** The lowering as it is carried out: one instruction after another is appended to the function,
    and the context changes on the way into and out of an inlined body. */
module LoweringBuilder {
  import opened Ir
  import opened SourceRuns
  import opened LoweredRuns
  import opened Lowering

  const MAX_INLINE_DEPTH: nat := 64

  // ----- how deep calls nest -----

  function Max(a: nat, b: nat): nat { if a < b then b else a }

  function CallDepth(s: Stmt): nat
    decreases s, 1
  {
    match s
    case Block(stmts) => DepthAll(stmts)
    case If(pre, _, yes, no) =>
      Max(Max(DepthAll(pre), CallDepth(yes)), if no.Some? then CallDepth(no.value) else 0)
    case For(init, pre, _, body, inc) =>
      Max(Max(DepthAll(init), DepthAll(pre)), Max(CallDepth(body), DepthAll(inc)))
    case Do(body, pre, _) => Max(CallDepth(body), DepthAll(pre))
    case Switch(pre, _, cases) => Max(DepthAll(pre), DepthCases(cases))
    case Return(pre, _) => DepthAll(pre)
    case Call(args, body, _, _, _) => Max(DepthAll(args), 1 + CallDepth(body))
    case _ => 0
  }

  function DepthAll(stmts: seq<Stmt>): nat
    decreases stmts, 1
  {
    if stmts == [] then 0 else Max(CallDepth(stmts[0]), DepthAll(stmts[1..]))
  }

  function DepthCases(cases: seq<Case>): nat
    decreases cases, 1
  {
    if cases == [] then 0 else Max(DepthAll(cases[0].body), DepthCases(cases[1..]))
  }

  // ----- pieces of code in a row -----

  lemma {:induction false} FlatOne(c: Code)
    ensures FlatAll([c]) == Flat(c)
  {
    assert [c][1..] == [];
    assert FlatAll([c][1..]) == [];
  }

  lemma {:induction false} FlatThenOne(a: seq<Code>, c: Code)
    ensures FlatAll(a + [c]) == FlatAll(a) + Flat(c)
  {
    FlatAppend(a, [c]);
    FlatOne(c);
  }

  lemma {:induction false} FlatThenGuarded(before: seq<Token>, a: seq<Code>, c: Code, g: seq<Code>)
    ensures before + FlatAll(a + ([c] + g)) == before + FlatAll(a) + Flat(c) + FlatAll(g)
  {
    FlatAppend(a, [c] + g);
    FlatAppend([c], g);
    FlatOne(c);
    Assoc(before, FlatAll(a), Flat(c) + FlatAll(g));
    Assoc(before + FlatAll(a), Flat(c), FlatAll(g));
  }

  lemma {:induction false} FlatBehind(before: seq<Token>, a: seq<Code>, b: seq<Code>)
    ensures before + FlatAll(a + b) == before + FlatAll(a) + FlatAll(b)
    ensures |before + FlatAll(a)| == |before| + Len(a)
  {
    FlatAppend(a, b);
    Assoc(before, FlatAll(a), FlatAll(b));
  }

  lemma {:induction false} Assoc(a: seq<Token>, b: seq<Token>, c: seq<Token>)
    ensures a + b + c == a + (b + c)
  {
  }

  // The rest of a block, or of the cases, from position i on.
  function Rest(stmts: seq<Stmt>, i: nat, c: Ctx, n: nat): seq<Token>
    requires i <= |stmts|
  {
    FlatAll(LowerAll(stmts[i..], c, n))
  }

  function RestOfCases(cases: seq<Case>, i: nat, c: Ctx, n: nat): seq<Token>
    requires i <= |cases|
  {
    FlatArms(LowerCases(cases[i..], c, n))
  }

  lemma {:induction false} LowerAllStep(stmts: seq<Stmt>, i: nat, c: Ctx, n: nat)
    requires i < |stmts|
    ensures var first := FlatAll(Lower(stmts[i], c, n));
            Rest(stmts, i, c, n) == first + Rest(stmts, i + 1, c, n + |first|)
  {
    var first := Lower(stmts[i], c, n);
    assert stmts[i..][1..] == stmts[i + 1..];
    FlatAppend(first, LowerAll(stmts[i + 1..], c, n + Len(first)));
  }

  lemma {:induction false} DepthAllStep(stmts: seq<Stmt>, i: nat)
    requires i < |stmts|
    ensures DepthAll(stmts[i..]) == Max(CallDepth(stmts[i]), DepthAll(stmts[i + 1..]))
  {
    assert stmts[i..][1..] == stmts[i + 1..];
  }

  lemma {:induction false} LowerCasesStep(cases: seq<Case>, i: nat, c: Ctx, n: nat)
    requires i < |cases|
    ensures var first := [TCase(cases[i].tag)] + FlatAll(LowerAll(cases[i].body, c, n + 1));
            RestOfCases(cases, i, c, n) == first + RestOfCases(cases, i + 1, c, n + |first|)
    ensures DepthCases(cases[i..]) == Max(DepthAll(cases[i].body), DepthCases(cases[i + 1..]))
  {
    var body := LowerAll(cases[i].body, c, n + 1);
    assert cases[i..][1..] == cases[i + 1..];
    var arms := LowerCases(cases[i..], c, n);
    assert arms[1..] == LowerCases(cases[i + 1..], c, n + 1 + Len(body));
  }

  lemma {:induction false} ForBodyTokens(before: seq<Token>, s: Stmt, c: Ctx)
    requires s.For?
    ensures var x := ForHead(s, c, |before|);
            before + FlatAll(ForBody(s, c, |before|)) ==
            before + FlatAll(x) + FlatAll(Lower(s.body, c, |before + FlatAll(x)|))
  {
    var x := ForHead(s, c, |before|);
    FlatBehind(before, x, Lower(s.body, c, |before| + Len(x)));
  }

  lemma {:induction false} DoTokens(before: seq<Token>, s: Stmt, c: Ctx)
    requires s.Do?
    ensures before + FlatAll(Lower(s, c, |before|)) ==
            before + Flat(DoLoop(s, c, |before|)) + FlatAll(Guard(c, CountReturns(s.body) > 0))
  {
    FlatThenGuarded(before, [], DoLoop(s, c, |before|), Guard(c, CountReturns(s.body) > 0));
  }

  lemma {:induction false} IfTokens(before: seq<Token>, s: Stmt, c: Ctx)
    requires s.If?
    ensures var p := FlatAll(LowerAll(s.pre, c, |before|));
            before + FlatAll(Lower(s, c, |before|)) == before + p + Flat(IfBranch(s, c, |before + p|))
  {
    var p := LowerAll(s.pre, c, |before|);
    FlatThenOne(p, IfBranch(s, c, |before| + Len(p)));
    Assoc(before, FlatAll(p), Flat(IfBranch(s, c, |before| + Len(p))));
  }

  lemma {:induction false} BranchTokens(before: seq<Token>, s: Stmt, c: Ctx)
    requires s.If?
    ensures var y := FlatAll(Lower(s.yes, c, |before| + 1));
            before + Flat(IfBranch(s, c, |before|)) ==
            before + [TIf(Holds(s.cond))] + y + ElseTokens(s, c, |before| + 1 + |y|) + [TEndIf]
  {
    var y := FlatAll(Lower(s.yes, c, |before| + 1));
    var open, z := [TIf(Holds(s.cond))], ElseTokens(s, c, |before| + 1 + |y|);
    assert Flat(IfBranch(s, c, |before|)) == open + y + z + [TEndIf];
    Assoc(before, open + y + z, [TEndIf]);
    Assoc(before, open + y, z);
    Assoc(before, open, y);
  }

  lemma {:induction false} InlinedReturnTokens(c: Ctx, result: Option<Store -> Word>)
    requires c.Inlined?
    ensures FlatAll(ReturnCode(c, result)) ==
            (if c.result.Some? && result.Some? then [Plain(SetResult(c.result.value, result.value))] else []) +
            (if c.tail then [] else
             (if c.returned.Some? then [Plain(SetFlag(c.returned.value, true))] else []) + [Plain(Leave)])
  {
    var a: seq<Code> := if c.result.Some? && result.Some? then [SetResult(c.result.value, result.value)] else [];
    var b: seq<Code> := if c.returned.Some? then [SetFlag(c.returned.value, true)] else [];
    if a != [] { FlatOne(a[0]); }
    if b != [] { FlatOne(b[0]); }
    FlatThenOne(b, Leave);
    FlatAppend(a, b + [Leave]);
    assert ReturnCode(c, result) == a + (if c.tail then [] else b + [Leave]);
  }

  lemma {:induction false} LoopTokens(before: seq<Token>, c: Code)
    requires c.Loop? && c.hasCont
    ensures before + Flat(c) == before + [TLoop] + FlatAll(c.body) + LoopTail(c.cont, c.again)
  {
    Assoc(before, [TLoop], FlatAll(c.body) + LoopTail(c.cont, c.again));
    Assoc(before + [TLoop], FlatAll(c.body), LoopTail(c.cont, c.again));
    assert Flat(c) == [TLoop] + (FlatAll(c.body) + LoopTail(c.cont, c.again));
  }

  lemma {:induction false} WrapperTokens(b: seq<Code>)
    ensures FlatAll([Code.Loop(b + [Leave], false, [], None)]) ==
            [TLoop] + FlatAll(b) + [Plain(Leave)] + [TEndLoop(None)]
  {
    FlatThenOne(b, Leave);
    FlatOne(Code.Loop(b + [Leave], false, [], None));
  }

  predicate EndsInExit(ts: seq<Token>)
    requires ts != []
  {
    ts[|ts| - 1].Plain? && ts[|ts| - 1].code.Exit?
  }

  lemma {:induction false} FlatEnd(c: Code)
    ensures EndsInExit(Flat(c)) <==> c.Exit?
  {
    match c
    case Branch(_, _, _, _) => assert Flat(c)[|Flat(c)| - 1] == TEndIf;
    case Loop(_, _, _, again) => assert Flat(c)[|Flat(c)| - 1] == TEndLoop(again);
    case Select(_, _) => assert Flat(c)[|Flat(c)| - 1] == TEndSwitch;
    case _ => assert Flat(c) == [Plain(c)];
  }

  lemma {:induction false} LastToken(code: seq<Code>)
    ensures FlatAll(code) == [] <==> code == []
    ensures code != [] ==> (EndsInExit(FlatAll(code)) <==> code[|code| - 1].Exit?)
  {
    if code != [] {
      var front, c := code[..|code| - 1], code[|code| - 1];
      assert code == front + [c];
      FlatThenOne(front, c);
      FlatEnd(c);
      LastOfSum(FlatAll(front), Flat(c));
    }
  }

  lemma {:induction false} LastOfSum(a: seq<Token>, b: seq<Token>)
    requires b != []
    ensures a + b != [] && (a + b)[|a + b| - 1] == b[|b| - 1]
  {
  }

  lemma {:induction false} ReturnTokens(before: seq<Token>, s: Stmt, c: Ctx)
    requires s.Return?
    ensures before + FlatAll(Lower(s, c, |before|)) ==
            before + FlatAll(LowerAll(s.pre, c, |before|)) + FlatAll(ReturnCode(c, s.result))
  {
    FlatBehind(before, LowerAll(s.pre, c, |before|), ReturnCode(c, s.result));
  }

  lemma {:induction false} CallTokens(before: seq<Token>, s: Stmt, c: Ctx)
    requires s.Call?
    ensures var a := FlatAll(LowerAll(s.args, c, |before|));
            before + FlatAll(Lower(s, c, |before|)) == before + a + FlatAll(CalleeCode(s, |before + a|))
  {
    var a := LowerAll(s.args, c, |before|);
    FlatBehind(before, a, CalleeCode(s, |before| + Len(a)));
  }

  function ElseDepth(s: Stmt): nat
    requires s.If?
  {
    if s.no.Some? then CallDepth(s.no.value) else 0
  }

  /** What follows the first arm of an `if` whose arm ends at index n. */
  function ElseTokens(s: Stmt, c: Ctx, n: nat): seq<Token>
    requires s.If?
  {
    if s.no.Some? then [TElse] + FlatAll(Lower(s.no.value, c, n + 1)) else []
  }

  function LoopTail(cont: seq<Code>, again: Option<Store -> bool>): seq<Token> {
    [TLoopContinue] + FlatAll(cont) + [TEndLoop(again)]
  }

  /** The lowering of one program entry: the instructions so far, the call being inlined, and how
      many are. Lowering fails exactly where calls nest deeper than the cap. */
  class Builder {
    var insts: seq<Token>
    var ctx: Ctx
    var depth: nat
    var failed: bool

    constructor (c: Ctx)
      ensures insts == [] && ctx == c && depth == 0 && !failed
    {
      insts, ctx, depth, failed := [], c, 0, false;
    }

    method Emit(t: Token)
      modifies this`insts
      ensures insts == old(insts) + [t]
    {
      insts := insts + [t];
    }

    method EmitPlain(c: Code)
      requires Flat(c) == [Plain(c)]
      modifies this`insts
      ensures insts == old(insts) + FlatAll([c])
    {
      FlatOne(c);
      Emit(Plain(c));
    }

    method EmitReturnGuard(hasReturn: bool)
      modifies this`insts
      ensures insts == old(insts) + FlatAll(Guard(ctx, hasReturn))
    {
      if HasFlag(ctx) && hasReturn {
        FlatOne(Branch(Flag(ctx.returned.value), [Leave], false, []));
        FlatOne(Leave);
        Emit(TIf(Flag(ctx.returned.value)));
        Emit(Plain(Leave));
        Emit(TEndIf);
      }
    }

    method EmitLoopExit(test: Store -> bool)
      modifies this`insts
      ensures insts == old(insts) + FlatAll(LoopExit(Some(test)))
    {
      FlatOne(Branch(Fails(test), [Leave], false, []));
      FlatOne(Leave);
      Emit(TIf(Fails(test)));
      Emit(Plain(Leave));
      Emit(TEndIf);
    }

    method LowerBlock(stmts: seq<Stmt>)
      requires depth <= MAX_INLINE_DEPTH
      modifies this
      ensures ctx == old(ctx) && depth == old(depth)
      ensures failed <==> old(failed) || depth + DepthAll(stmts) > MAX_INLINE_DEPTH
      ensures !failed ==> insts == old(insts) + FlatAll(LowerAll(stmts, ctx, |old(insts)|))
      decreases stmts, 9
    {
      for i := 0 to |stmts|
        invariant ctx == old(ctx) && depth == old(depth)
        invariant failed || depth + DepthAll(stmts[i..]) > MAX_INLINE_DEPTH <==>
                  old(failed) || depth + DepthAll(stmts) > MAX_INLINE_DEPTH
        invariant !failed ==> !old(failed)
        invariant !failed ==>
                    insts + Rest(stmts, i, ctx, |insts|) == old(insts) + FlatAll(LowerAll(stmts, ctx, |old(insts)|))
      {
        LowerOne(stmts, i);
      }
    }

    method LowerOne(stmts: seq<Stmt>, i: nat)
      requires depth <= MAX_INLINE_DEPTH && i < |stmts|
      modifies this
      ensures ctx == old(ctx) && depth == old(depth)
      ensures failed || depth + DepthAll(stmts[i + 1..]) > MAX_INLINE_DEPTH <==>
              old(failed) || depth + DepthAll(stmts[i..]) > MAX_INLINE_DEPTH
      ensures !failed ==> !old(failed)
      ensures !failed ==>
                insts + Rest(stmts, i + 1, ctx, |insts|) == old(insts) + Rest(stmts, i, ctx, |old(insts)|)
      decreases stmts, 8
    {
      LowerAllStep(stmts, i, ctx, |insts|);
      DepthAllStep(stmts, i);
      LowerStmt(stmts[i]);
    }

    method LowerArms(cases: seq<Case>)
      requires depth <= MAX_INLINE_DEPTH
      modifies this
      ensures ctx == old(ctx) && depth == old(depth)
      ensures failed <==> old(failed) || depth + DepthCases(cases) > MAX_INLINE_DEPTH
      ensures !failed ==> insts == old(insts) + FlatArms(LowerCases(cases, ctx, |old(insts)|))
      decreases cases, 9
    {
      for i := 0 to |cases|
        invariant ctx == old(ctx) && depth == old(depth)
        invariant failed || depth + DepthCases(cases[i..]) > MAX_INLINE_DEPTH <==>
                  old(failed) || depth + DepthCases(cases) > MAX_INLINE_DEPTH
        invariant !failed ==> !old(failed)
        invariant !failed ==>
                    insts + RestOfCases(cases, i, ctx, |insts|) ==
                    old(insts) + FlatArms(LowerCases(cases, ctx, |old(insts)|))
      {
        LowerOneArm(cases, i);
      }
    }

    method LowerOneArm(cases: seq<Case>, i: nat)
      requires depth <= MAX_INLINE_DEPTH && i < |cases|
      modifies this
      ensures ctx == old(ctx) && depth == old(depth)
      ensures failed || depth + DepthCases(cases[i + 1..]) > MAX_INLINE_DEPTH <==>
              old(failed) || depth + DepthCases(cases[i..]) > MAX_INLINE_DEPTH
      ensures !failed ==> !old(failed)
      ensures !failed ==>
                insts + RestOfCases(cases, i + 1, ctx, |insts|) == old(insts) + RestOfCases(cases, i, ctx, |old(insts)|)
      decreases cases, 8
    {
      LowerCasesStep(cases, i, ctx, |insts|);
      LowerArm(cases[i]);
    }

    method LowerArm(arm: Case)
      requires depth <= MAX_INLINE_DEPTH
      modifies this
      ensures ctx == old(ctx) && depth == old(depth)
      ensures failed <==> old(failed) || depth + DepthAll(arm.body) > MAX_INLINE_DEPTH
      ensures !failed ==> insts == old(insts) + ([TCase(arm.tag)] + FlatAll(LowerAll(arm.body, ctx, |old(insts)| + 1)))
      decreases arm, 9
    {
      Emit(TCase(arm.tag));
      LowerBlock(arm.body);
    }

    method LowerStmt(s: Stmt)
      requires depth <= MAX_INLINE_DEPTH
      modifies this
      ensures ctx == old(ctx) && depth == old(depth)
      ensures failed <==> old(failed) || depth + CallDepth(s) > MAX_INLINE_DEPTH
      ensures !failed ==> insts == old(insts) + FlatAll(Lower(s, ctx, |old(insts)|))
      decreases s, 9
    {
      match s
      case Block(stmts) => LowerBlock(stmts);
      case If(_, _, _, _) => LowerIf(s);
      case For(_, _, _, _, _) => LowerFor(s);
      case Do(_, _, _) => LowerDo(s);
      case Switch(_, _, _) => LowerSwitch(s);
      case Return(_, _) => LowerReturn(s);
      case Call(_, _, _, _, _) => LowerCall(s);
      case _ => LowerSimple(s);
    }

    method LowerSimple(s: Stmt)
      requires (s.Act? || s.Break? || s.Continue? || s.Discard?) && depth <= MAX_INLINE_DEPTH
      modifies this
      ensures ctx == old(ctx) && depth == old(depth)
      ensures failed <==> old(failed) || depth + CallDepth(s) > MAX_INLINE_DEPTH
      ensures !failed ==> insts == old(insts) + FlatAll(Lower(s, ctx, |old(insts)|))
    {
      match s
      case Act(f) => EmitPlain(Step(f));
      case Break => EmitPlain(Leave);
      case Continue => EmitPlain(Next);
      case Discard => EmitPlain(Kill);
    }

    method LowerReturn(s: Stmt)
      requires s.Return? && depth <= MAX_INLINE_DEPTH
      modifies this
      ensures ctx == old(ctx) && depth == old(depth)
      ensures failed <==> old(failed) || depth + CallDepth(s) > MAX_INLINE_DEPTH
      ensures !failed ==> insts == old(insts) + FlatAll(Lower(s, ctx, |old(insts)|))
      decreases s, 8
    {
      ReturnTokens(insts, s, ctx);
      LowerValueAndReturn(s.pre, s.result);
    }

    method LowerValueAndReturn(pre: seq<Stmt>, result: Option<Store -> Word>)
      requires depth <= MAX_INLINE_DEPTH
      modifies this
      ensures ctx == old(ctx) && depth == old(depth)
      ensures failed <==> old(failed) || depth + DepthAll(pre) > MAX_INLINE_DEPTH
      ensures !failed ==>
                insts == old(insts) + FlatAll(LowerAll(pre, ctx, |old(insts)|)) + FlatAll(ReturnCode(ctx, result))
      decreases pre, 10
    {
      LowerBlock(pre);
      EmitReturn(result);
    }

    method EmitReturn(result: Option<Store -> Word>)
      modifies this`insts
      ensures insts == old(insts) + FlatAll(ReturnCode(ctx, result))
    {
      if ctx.Entry? {
        EmitEntryReturn(result);
      } else {
        EmitInlinedReturn(result);
      }
    }

    method EmitEntryReturn(result: Option<Store -> Word>)
      requires ctx.Entry?
      modifies this`insts
      ensures insts == old(insts) + FlatAll(ReturnCode(ctx, result))
    {
      var outputs := ctx.outputs;
      var store := Step((st: Store) => outputs(st, if result.Some? then Some(result.value(st)) else None));
      assert ReturnCode(ctx, result) == [store] + [Exit];
      FlatThenOne([store], Exit);
      EmitPlain(store);
      Emit(Plain(Exit));
    }

    method EmitInlinedReturn(result: Option<Store -> Word>)
      requires ctx.Inlined?
      modifies this`insts
      ensures insts == old(insts) + FlatAll(ReturnCode(ctx, result))
    {
      InlinedReturnTokens(ctx, result);
      if ctx.result.Some? && result.Some? {
        Emit(Plain(SetResult(ctx.result.value, result.value)));
      }
      if !ctx.tail {
        if ctx.returned.Some? {
          Emit(Plain(SetFlag(ctx.returned.value, true)));
        }
        Emit(Plain(Leave));
      }
    }

    method LowerIf(s: Stmt)
      requires s.If? && depth <= MAX_INLINE_DEPTH
      modifies this
      ensures ctx == old(ctx) && depth == old(depth)
      ensures failed <==> old(failed) || depth + CallDepth(s) > MAX_INLINE_DEPTH
      ensures !failed ==> insts == old(insts) + FlatAll(Lower(s, ctx, |old(insts)|))
      decreases s, 8
    {
      IfTokens(insts, s, ctx);
      LowerBlock(s.pre);
      LowerBranch(s);
    }

    method LowerBranch(s: Stmt)
      requires s.If? && depth <= MAX_INLINE_DEPTH
      modifies this
      ensures ctx == old(ctx) && depth == old(depth)
      ensures failed <==> old(failed) || depth + Max(CallDepth(s.yes), ElseDepth(s)) > MAX_INLINE_DEPTH
      ensures !failed ==> insts == old(insts) + Flat(IfBranch(s, ctx, |old(insts)|))
      decreases s, 7
    {
      BranchTokens(insts, s, ctx);
      Emit(TIf(Holds(s.cond)));
      LowerStmt(s.yes);
      LowerElse(s);
      Emit(TEndIf);
    }

    method LowerElse(s: Stmt)
      requires s.If? && depth <= MAX_INLINE_DEPTH
      modifies this
      ensures ctx == old(ctx) && depth == old(depth)
      ensures failed <==> old(failed) || depth + ElseDepth(s) > MAX_INLINE_DEPTH
      ensures !failed ==> insts == old(insts) + ElseTokens(s, ctx, |old(insts)|)
      decreases s, 6
    {
      if s.no.Some? {
        Emit(TElse);
        LowerStmt(s.no.value);
      }
    }

    method LowerFor(s: Stmt)
      requires s.For? && depth <= MAX_INLINE_DEPTH
      modifies this
      ensures ctx == old(ctx) && depth == old(depth)
      ensures failed <==> old(failed) || depth + CallDepth(s) > MAX_INLINE_DEPTH
      ensures !failed ==> insts == old(insts) + FlatAll(Lower(s, ctx, |old(insts)|))
      decreases s, 8
    {
      LowerBlock(s.init);
      ghost var i := insts;
      LowerForLoop(s);
      EmitReturnGuard(CountReturns(s.body) > 0);
      FlatThenGuarded(old(insts), LowerAll(s.init, ctx, |old(insts)|), ForLoop(s, ctx, |i|), Guard(ctx, CountReturns(s.body) > 0));
    }

    method LowerForLoop(s: Stmt)
      requires s.For? && depth <= MAX_INLINE_DEPTH
      modifies this
      ensures ctx == old(ctx) && depth == old(depth)
      ensures failed <==> old(failed) || depth + Max(DepthAll(s.pre), Max(CallDepth(s.body), DepthAll(s.inc))) > MAX_INLINE_DEPTH
      ensures !failed ==> insts == old(insts) + Flat(ForLoop(s, ctx, |old(insts)|))
      decreases s, 7
    {
      Emit(TLoop);
      LowerForBody(s);
      CloseLoop(s.inc, None);
      LoopTokens(old(insts), ForLoop(s, ctx, |old(insts)|));
    }

    method LowerForBody(s: Stmt)
      requires s.For? && depth <= MAX_INLINE_DEPTH
      modifies this
      ensures ctx == old(ctx) && depth == old(depth)
      ensures failed <==> old(failed) || depth + Max(DepthAll(s.pre), CallDepth(s.body)) > MAX_INLINE_DEPTH
      ensures !failed ==> insts == old(insts) + FlatAll(ForBody(s, ctx, |old(insts)|))
      decreases s, 6
    {
      ForBodyTokens(insts, s, ctx);
      LowerForHead(s);
      LowerStmt(s.body);
    }

    method LowerForHead(s: Stmt)
      requires s.For? && depth <= MAX_INLINE_DEPTH
      modifies this
      ensures ctx == old(ctx) && depth == old(depth)
      ensures failed <==> old(failed) || depth + DepthAll(s.pre) > MAX_INLINE_DEPTH
      ensures !failed ==> insts == old(insts) + FlatAll(ForHead(s, ctx, |old(insts)|))
      decreases s, 5
    {
      LowerBlock(s.pre);
      if s.test.Some? {
        EmitLoopExit(s.test.value);
      }
      FlatAppend(LowerAll(s.pre, ctx, |old(insts)|), LoopExit(s.test));
    }

    method CloseLoop(cont: seq<Stmt>, again: Option<Store -> bool>)
      requires depth <= MAX_INLINE_DEPTH
      modifies this
      ensures ctx == old(ctx) && depth == old(depth)
      ensures failed <==> old(failed) || depth + DepthAll(cont) > MAX_INLINE_DEPTH
      ensures !failed ==> insts == old(insts) + LoopTail(LowerAll(cont, ctx, |old(insts)| + 1), again)
      decreases cont, 10
    {
      Emit(TLoopContinue);
      LowerBlock(cont);
      Emit(TEndLoop(again));
    }

    method LowerDo(s: Stmt)
      requires s.Do? && depth <= MAX_INLINE_DEPTH
      modifies this
      ensures ctx == old(ctx) && depth == old(depth)
      ensures failed <==> old(failed) || depth + CallDepth(s) > MAX_INLINE_DEPTH
      ensures !failed ==> insts == old(insts) + FlatAll(Lower(s, ctx, |old(insts)|))
      decreases s, 8
    {
      DoTokens(insts, s, ctx);
      LowerDoLoop(s);
      EmitReturnGuard(CountReturns(s.body) > 0);
    }

    method LowerDoLoop(s: Stmt)
      requires s.Do? && depth <= MAX_INLINE_DEPTH
      modifies this
      ensures ctx == old(ctx) && depth == old(depth)
      ensures failed <==> old(failed) || depth + CallDepth(s) > MAX_INLINE_DEPTH
      ensures !failed ==> insts == old(insts) + Flat(DoLoop(s, ctx, |old(insts)|))
      decreases s, 7
    {
      Emit(TLoop);
      LowerStmt(s.body);
      CloseLoop(s.pre, Some(s.cond));
      LoopTokens(old(insts), DoLoop(s, ctx, |old(insts)|));
    }

    method LowerSwitch(s: Stmt)
      requires s.Switch? && depth <= MAX_INLINE_DEPTH
      modifies this
      ensures ctx == old(ctx) && depth == old(depth)
      ensures failed <==> old(failed) || depth + CallDepth(s) > MAX_INLINE_DEPTH
      ensures !failed ==> insts == old(insts) + FlatAll(Lower(s, ctx, |old(insts)|))
      decreases s, 8
    {
      LowerBlock(s.pre);
      ghost var p := insts;
      LowerSelect(s);
      EmitReturnGuard(CountReturns(s) > 0);
      FlatThenGuarded(old(insts), LowerAll(s.pre, ctx, |old(insts)|), Code.Select(s.value, LowerCases(s.cases, ctx, |p| + 1)),
                      Guard(ctx, CountReturns(s) > 0));
    }

    method LowerSelect(s: Stmt)
      requires s.Switch? && depth <= MAX_INLINE_DEPTH
      modifies this
      ensures ctx == old(ctx) && depth == old(depth)
      ensures failed <==> old(failed) || depth + DepthCases(s.cases) > MAX_INLINE_DEPTH
      ensures !failed ==> insts == old(insts) + Flat(Code.Select(s.value, LowerCases(s.cases, ctx, |old(insts)| + 1)))
      decreases s, 7
    {
      Emit(TSwitch(s.value, Tags(s.cases)));
      LowerArms(s.cases);
      Emit(TEndSwitch);
      SameTags(s.cases, ctx, |old(insts)| + 1);
    }

    /** A whole entry point, from an empty function. */
    method LowerEntryPoint(body: Stmt)
      requires ctx.Entry? && depth == 0 && insts == [] && !failed
      modifies this
      ensures failed <==> CallDepth(body) > 64
      ensures !failed ==> insts == FlatAll(LowerEntry(body, old(ctx).outputs, 0))
    {
      LowerStmt(body);
      if !failed {
        ghost var code := Lower(body, ctx, 0);
        LastToken(code);
        FlatThenOne(code, Exit);
        assert insts == FlatAll(code);
      }
      if insts == [] || !EndsInExit(insts) {
        Emit(Plain(Exit));
      }
    }

    method Declare(s: Stmt) returns (c: Ctx)
      requires s.Call?
      modifies this`insts
      ensures c == CalleeCtx(s, |old(insts)|)
      ensures insts == old(insts) + FlatAll(Declarations(s, |old(insts)|))
    {
      var result, returned := None, None;
      ghost var code: seq<Code> := [];
      if s.nonVoid {
        FlatThenOne(code, Slot);
        code := code + [Slot];
        result := Some(|insts|);
        Emit(Plain(Slot));
      }
      if NeedsFlag(s.body) {
        returned := Some(|insts|);
        FlatThenOne(code, Slot);
        code := code + [Slot];
        Emit(Plain(Slot));
        FlatThenOne(code, SetFlag(returned.value, false));
        code := code + [SetFlag(returned.value, false)];
        Emit(Plain(SetFlag(returned.value, false)));
      }
      c := Inlined(result, returned, TailReturnOnly(s.body));
      assert code == Declarations(s, |old(insts)|);
    }

    method LowerBody(s: Stmt, c: Ctx)
      requires s.Call? && c.Inlined? && depth < MAX_INLINE_DEPTH
      modifies this
      ensures ctx == old(ctx) && depth == old(depth)
      ensures failed <==> old(failed) || depth + 1 + CallDepth(s.body) > MAX_INLINE_DEPTH
      ensures !failed ==>
                insts == old(insts) +
                         FlatAll(Wrapped(c, Lower(s.body, c, |old(insts)| + if c.tail then 0 else 1)))
      decreases s, 6
    {
      var parent := ctx;
      ctx, depth := c, depth + 1;
      if c.tail {
        LowerStmt(s.body);
      } else {
        LowerWrapped(s.body);
      }
      ctx, depth := parent, depth - 1;
    }

    method LowerWrapped(body: Stmt)
      requires depth <= MAX_INLINE_DEPTH && ctx.Inlined? && !ctx.tail
      modifies this
      ensures ctx == old(ctx) && depth == old(depth)
      ensures failed <==> old(failed) || depth + CallDepth(body) > MAX_INLINE_DEPTH
      ensures !failed ==> insts == old(insts) + FlatAll(Wrapped(ctx, Lower(body, ctx, |old(insts)| + 1)))
      decreases body, 10
    {
      Emit(TLoop);
      LowerStmt(body);
      Emit(Plain(Leave));
      Emit(TEndLoop(None));
      WrapperTokens(Lower(body, ctx, |old(insts)| + 1));
    }

    method LowerCall(s: Stmt)
      requires s.Call? && depth <= MAX_INLINE_DEPTH
      modifies this
      ensures ctx == old(ctx) && depth == old(depth)
      ensures failed <==> old(failed) || depth + CallDepth(s) > MAX_INLINE_DEPTH
      ensures !failed ==> insts == old(insts) + FlatAll(Lower(s, ctx, |old(insts)|))
      decreases s, 8
    {
      if depth >= MAX_INLINE_DEPTH {
        failed := true;
        return;
      }
      CallTokens(insts, s, ctx);
      LowerBlock(s.args);
      LowerCallee(s);
    }

    method LowerCallee(s: Stmt)
      requires s.Call? && depth < MAX_INLINE_DEPTH
      modifies this
      ensures ctx == old(ctx) && depth == old(depth)
      ensures failed <==> old(failed) || depth + 1 + CallDepth(s.body) > MAX_INLINE_DEPTH
      ensures !failed ==> insts == old(insts) + FlatAll(CalleeCode(s, |old(insts)|))
      decreases s, 7
    {
      var c := Declare(s);
      LowerBody(s, c);
      Emit(Plain(Step(s.copyOut)));
      Emit(Plain(UseResult(c.result, s.use)));
      CallPieces(s, old(insts));
    }
  }

  /** The pieces of a call, in a row. */
  lemma {:induction false} CallPieces(s: Stmt, before: seq<Token>)
    requires s.Call?
    ensures var m := |before|;
            var c := CalleeCtx(s, m);
            before + FlatAll(CalleeCode(s, m)) ==
            before + FlatAll(Declarations(s, m)) + FlatAll(Wrapped(c, Lower(s.body, c, BodyAt(s, m)))) +
            [Plain(Step(s.copyOut))] + [Plain(UseResult(c.result, s.use))]
  {
    var m := |before|;
    var c := CalleeCtx(s, m);
    var w := Wrapped(c, Lower(s.body, c, BodyAt(s, m)));
    var tail := [Step(s.copyOut), UseResult(c.result, s.use)];
    FlatAppend(Declarations(s, m), w + tail);
    FlatAppend(w, tail);
    FlatThenOne([tail[0]], tail[1]);
    FlatOne(tail[0]);
    assert tail == [tail[0]] + [tail[1]];
    var x, y, a, b := FlatAll(Declarations(s, m)), FlatAll(w), Flat(tail[0]), Flat(tail[1]);
    Assoc(before, x, y + (a + b));
    Assoc(before + x, y, a + b);
    Assoc(before + x + y, a, b);
  }
}
