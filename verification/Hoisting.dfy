/** Why constants, undefined values and variables may be used outside the arm they stand in: moved to the
    front of the function they are computed before everything else, and nothing else changes. */
module Hoisting {
  import opened Ir
  import opened ControlFlow
  import opened Verifier
  import opened EditModel
  import opened EditMeaning
  import S = Semantics

  /** What is declared outside the body: constants, undefined values, variables. */
  predicate IsDeclared(op: Op) {
    match op
    case Const | SpecConst | Undef | Var => true
    case _ => false
  }

  /** Its value is the same wherever it stands: no operand and no memory goes into it. */
  lemma {:induction false} DeclaredIsConstant(w: S.World, f: Func, inst: Inst, list: seq<nat>, home: S.Value,
                                              get: nat -> S.Value, get': nat -> S.Value, m: S.Memory, n: S.Memory)
    requires IsDeclared(inst.op)
    ensures S.ResultOf(w, inst, list, home, get, m) == S.ResultOf(w, inst, list, home, get', n)
    ensures S.MemoryAfter(w, inst, list, get, m) == m && forall x: nat :: !IsOperand(f, inst, x)
  {
  }

  // ----- the edits -----

  /** The declarations among the first n instructions. */
  function Declared(insts: seq<Inst>, n: nat): (ds: seq<nat>)
    requires n <= |insts|
    ensures |ds| <= n && forall k :: 0 <= k < |ds| ==> ds[k] < n && IsDeclared(insts[ds[k]].op)
  {
    if n == 0 then []
    else Declared(insts, n - 1) + if IsDeclared(insts[n - 1].op) then [n - 1] else []
  }

  lemma {:induction false} DeclaredGrows(insts: seq<Inst>, i: nat, n: nat)
    requires i < n <= |insts| && IsDeclared(insts[i].op)
    ensures |Declared(insts, i)| < |Declared(insts, n)| && Declared(insts, n)[|Declared(insts, i)|] == i
    decreases n
  {
    if i < n - 1 {
      DeclaredGrows(insts, i, n - 1);
    }
  }

  function Count(f: Func): nat {
    |Declared(f.insts, |f.insts|)|
  }

  /** Operands are earlier instructions that are not nops, and lists lie in the pool. */
  ghost predicate Hoistable(f: Func) {
    && |f.insts| + Count(f) < MAX_IDS
    && forall i: nat {:trigger HoistableAt(f, i)} :: i < |f.insts| && !f.insts[i].op.Nop? ==> HoistableAt(f, i)
  }

  ghost predicate HoistableAt(f: Func, i: nat)
    requires i < |f.insts|
  {
    AuxInPool(f, f.insts[i]) && forall x: nat {:trigger IsOperand(f, f.insts[i], x)} :: IsOperand(f, f.insts[i], x) ==> x < i && !f.insts[x].op.Nop?
  }

  /** A copy of each declaration at the front, in place of the original. */
  function Hoist(f: Func): (e: Edits)
    requires |f.insts| + Count(f) < MAX_IDS
    ensures e.Shaped() && e.Fn() == f && |e.added| == Count(f)
    ensures forall i: nat {:trigger e.repl[i]} :: i < |f.insts| ==>
              e.repl[i] == if IsDeclared(f.insts[i].op) then |f.insts| + |Declared(f.insts, i)| + 1 else 0
    ensures forall k: nat {:trigger e.added[k]} {:trigger e.anchor[k]} :: k < Count(f) ==>
              e.added[k] == f.insts[Declared(f.insts, |f.insts|)[k]] && e.anchor[k] == 0
  {
    var n, ds := |f.insts|, Declared(f.insts, |f.insts|);
    Edits(f.insts, f.aux,
          seq(n, i requires 0 <= i < n => if IsDeclared(f.insts[i].op) then n + |Declared(f.insts, i)| + 1 else 0),
          seq(|ds|, k requires 0 <= k < |ds| => f.insts[ds[k]]),
          seq<nat>(|ds|, _ => 0))
  }

  lemma {:induction false} HoistReplaces(f: Func, i: nat)
    requires |f.insts| + Count(f) < MAX_IDS && i < |f.insts|
    ensures Hoist(f).Replaces(i)
    ensures IsDeclared(f.insts[i].op) ==> |f.insts| <= Hoist(f).repl[i] - 1 < Hoist(f).Total() &&
                                          Hoist(f).Get(Hoist(f).repl[i] - 1) == f.insts[i]
  {
    if IsDeclared(f.insts[i].op) {
      DeclaredGrows(f.insts, i, |f.insts|);
    }
  }

  lemma {:induction false} HoistChains(f: Func)
    requires |f.insts| + Count(f) < MAX_IDS
    ensures Hoist(f).ChainsOk()
  {
    forall i | 0 <= i < |f.insts|
      ensures Hoist(f).Replaces(i)
    {
      HoistReplaces(f, i);
    }
  }

  /** A declaration stands for its copy, everything else for itself. */
  lemma {:induction false} HoistResolves(f: Func, x: nat)
    requires |f.insts| + Count(f) < MAX_IDS && Hoist(f).ChainsOk() && x < |f.insts| && !f.insts[x].op.Nop?
    ensures var e := Hoist(f); var r := e.Resolve(x);
            e.Placed(r) && e.Get(r) == f.insts[x] && if IsDeclared(f.insts[x].op) then r >= |f.insts| else r == x
  {
    HoistReplaces(f, x);
  }

  lemma {:induction false} PlacedInst(f: Func, v: nat)
    requires |f.insts| + Count(f) < MAX_IDS && Hoist(f).Placed(v)
    ensures if v < |f.insts| then !f.insts[v].op.Nop? && !IsDeclared(f.insts[v].op) && Hoist(f).Get(v) == f.insts[v]
            else IsDeclared(Hoist(f).Get(v).op) && Hoist(f).KeyAnchor(v) == 0 && CopiedFrom(f, v)
  {
    if v >= |f.insts| {
      var ds := Declared(f.insts, |f.insts|);
      assert Hoist(f).added[v - |f.insts|] == f.insts[ds[v - |f.insts|]];
    }
  }

  ghost predicate CopiedFrom(f: Func, v: nat)
    requires |f.insts| + Count(f) < MAX_IDS && v < Hoist(f).Total()
  {
    exists i: nat :: i < |f.insts| && IsDeclared(f.insts[i].op) && Hoist(f).Get(v) == f.insts[i]
  }

  lemma {:induction false} HoistMeetsContract(f: Func)
    requires Hoistable(f)
    ensures Hoist(f).Contract()
  {
    var e := Hoist(f);
    HoistChains(f);
    forall v: nat | v < e.Total() && e.Placed(v)
      ensures AuxInPool(e.Fn(), e.Get(v)) && forall x: nat :: IsOperand(e.Fn(), e.Get(v), x) ==> e.UseOk(v, x)
    {
      PlacedInst(f, v);
      if v < |f.insts| {
        assert HoistableAt(f, v);
        forall x: nat | IsOperand(e.Fn(), e.Get(v), x)
          ensures e.UseOk(v, x)
        {
          HoistResolves(f, x);
        }
      } else {
        var i: nat :| i < |f.insts| && IsDeclared(f.insts[i].op) && e.Get(v) == f.insts[i];
        assert HoistableAt(f, i);
      }
    }
  }

  /** The function with its declarations in front. */
  ghost function Hoisted(f: Func): Func
    requires Hoistable(f)
  {
    HoistMeetsContract(f);
    Committed(Hoist(f))
  }
}
