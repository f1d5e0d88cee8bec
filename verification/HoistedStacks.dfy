/** Hoisting moves every marker, but the constructs around an instruction stay the same. */
module HoistedStacks {
  import opened Ir
  import opened ControlFlow
  import opened Verifier
  import opened EditModel
  import opened EditMeaning
  import opened Hoisting

  // ----- positions -----

  /** Where instruction i goes, or what follows the place it left. */
  function NewAt(f: Func, i: nat): nat
    requires |f.insts| + Count(f) < MAX_IDS && i <= |f.insts|
  {
    |LayoutTo(Hoist(f), i)| + |InsertsAt(Hoist(f), i)|
  }

  lemma {:induction false} BucketOfZeros(anchor: seq<nat>, a: nat, n: nat)
    requires n <= |anchor| && forall k :: 0 <= k < |anchor| ==> anchor[k] == 0
    ensures |Bucket(anchor, a, n)| == if a == 0 then n else 0
  {
    if n > 0 {
      BucketOfZeros(anchor, a, n - 1);
    }
  }

  lemma {:induction false} AllInsertsFirst(f: Func, i: nat)
    requires |f.insts| + Count(f) < MAX_IDS && i <= |f.insts|
    ensures |InsertsAt(Hoist(f), i)| == if i == 0 then Count(f) else 0
  {
    BucketOfZeros(Hoist(f).anchor, i, Count(f));
  }

  lemma {:induction false} NewAtNext(f: Func, i: nat)
    requires |f.insts| + Count(f) < MAX_IDS && i < |f.insts|
    ensures NewAt(f, 0) == Count(f)
    ensures NewAt(f, i + 1) == NewAt(f, i) + if Hoist(f).Live(i) then 1 else 0
  {
    AllInsertsFirst(f, 0);
    AllInsertsFirst(f, i + 1);
  }

  lemma {:induction false} NewAtGrows(f: Func, i: nat, j: nat)
    requires |f.insts| + Count(f) < MAX_IDS && i <= j <= |f.insts|
    ensures Count(f) <= NewAt(f, i) <= NewAt(f, j)
    ensures i < j && Hoist(f).Live(i) ==> NewAt(f, i) < NewAt(f, j)
    decreases j
  {
    if i < j {
      NewAtGrows(f, i, j - 1);
      NewAtNext(f, j - 1);
    } else if j > 0 {
      NewAtGrows(f, j - 1, j - 1);
      NewAtNext(f, j - 1);
    } else {
      AllInsertsFirst(f, 0);
    }
  }

  lemma {:induction false} LayoutBegins(e: Edits, i: nat, j: nat)
    requires e.Shaped() && i <= j <= e.Base()
    ensures LayoutTo(e, i) <= LayoutTo(e, j) && (j == e.Base() ==> LayoutTo(e, i) <= Layout(e))
    decreases j
  {
    if i < j {
      LayoutBegins(e, i, j - 1);
      PrefixTrans(LayoutTo(e, i), LayoutTo(e, j - 1), LayoutTo(e, j));
    }
    PrefixTrans(LayoutTo(e, i), LayoutTo(e, j), LayoutTo(e, j) + InsertsAt(e, j));
  }

  lemma {:induction false} PrefixTrans(a: seq<nat>, b: seq<nat>, c: seq<nat>)
    requires a <= b && b <= c
    ensures a <= c
  {
  }

  /** A live instruction goes there. */
  lemma {:induction false} LiveGoes(f: Func, i: nat)
    requires |f.insts| + Count(f) < MAX_IDS && i < |f.insts| && Hoist(f).Live(i)
    ensures NewAt(f, i) < |Layout(Hoist(f))| && PlacedAt(Hoist(f), NewAt(f, i)) == i && PosOf(Hoist(f), i) == NewAt(f, i)
  {
    var e := Hoist(f);
    LayoutBegins(e, i + 1, e.Base());
    assert LayoutTo(e, i + 1) == LayoutTo(e, i) + InsertsAt(e, i) + [i];
    assert LayoutTo(e, i + 1)[NewAt(f, i)] == i;
    assert Layout(e)[NewAt(f, i)] == i;
    LayoutPosition(e, NewAt(f, i));
  }

  /** The declarations come first. */
  lemma {:induction false} FrontIsInserts(f: Func, p: nat)
    requires |f.insts| + Count(f) < MAX_IDS && p < |Layout(Hoist(f))|
    ensures p < Count(f) <==> PlacedAt(Hoist(f), p) >= |f.insts|
  {
    var e := Hoist(f);
    var v := PlacedAt(e, p);
    if v < |f.insts| {
      LiveGoes(f, v);
      LayoutPosition(e, p);
      NewAtGrows(f, v, v);
    } else {
      InsertGoesFirst(f, v, p);
    }
  }

  lemma {:induction false} InsertGoesFirst(f: Func, v: nat, p: nat)
    requires |f.insts| + Count(f) < MAX_IDS && p < |Layout(Hoist(f))| && v == PlacedAt(Hoist(f), p) && v >= |f.insts|
    ensures p < Count(f)
  {
    var e := Hoist(f);
    PlacedInst(f, v);
    AllInsertsFirst(f, 0);
    InsertIsInBucket(e, v);
    var j :| 0 <= j < |InsertsAt(e, 0)| && InsertsAt(e, 0)[j] == v;
    FrontOfLayout(f, j);
    LayoutPosition(e, p);
    LayoutPosition(e, j);
  }

  lemma {:induction false} FrontOfLayout(f: Func, j: nat)
    requires |f.insts| + Count(f) < MAX_IDS && j < |InsertsAt(Hoist(f), 0)|
    ensures j < |Layout(Hoist(f))| && Layout(Hoist(f))[j] == InsertsAt(Hoist(f), 0)[j]
  {
    var e := Hoist(f);
    assert LayoutTo(e, 0) == [];
    AllInsertsFirst(f, 0);
    LayoutBegins(e, 1, e.Base());
    assert InsertsAt(e, 0) <= LayoutTo(e, 1);
    assert LayoutTo(e, 1)[j] == Layout(e)[j];
  }

  // ----- stacks -----

  function MoveFrames(at: nat -> nat, st: seq<Frame>): (r: seq<Frame>)
    ensures |r| == |st| && forall d :: 0 <= d < |st| ==> r[d] == Frame(at(st[d].construct), at(st[d].arm))
  {
    seq(|st|, d requires 0 <= d < |st| => Frame(at(st[d].construct), at(st[d].arm)))
  }

  lemma {:induction false} MoveStep(at: nat -> nat, st: seq<Frame>, op: Op, i: nat)
    ensures StepStack(MoveFrames(at, st), op, at(i)) == MoveFrames(at, StepStack(st, op, i))
  {
    var moved := MoveFrames(at, st);
    if st != [] && !Opens(op) {
      assert moved[..|st| - 1] == MoveFrames(at, st[..|st| - 1]);
    }
  }

  function Place(f: Func): nat -> nat
    requires |f.insts| + Count(f) < MAX_IDS
  {
    (i: nat) => if i <= |f.insts| then NewAt(f, i) else 0
  }

  function Moved(f: Func, st: seq<Frame>): (r: seq<Frame>)
    requires |f.insts| + Count(f) < MAX_IDS
    ensures |r| == |st| && forall d :: 0 <= d < |st| ==> r[d] == Frame(Place(f)(st[d].construct), Place(f)(st[d].arm))
  {
    MoveFrames(Place(f), st)
  }

  lemma {:induction false} FrontIsFlat(f: Func, p: nat)
    requires Hoistable(f) && p <= Count(f) && Count(f) <= |Hoisted(f).insts|
    ensures StackAt(Hoisted(f).insts, p) == []
  {
    if p > 0 {
      FrontIsFlat(f, p - 1);
      FrontIsInserts(f, p - 1);
      PlacedInst(f, PlacedAt(Hoist(f), p - 1));
      assert Hoisted(f).insts[p - 1].op == Hoist(f).Get(PlacedAt(Hoist(f), p - 1)).op;
    }
  }

  lemma {:induction false} LayoutReaches(f: Func, i: nat)
    requires |f.insts| + Count(f) < MAX_IDS && i <= |f.insts|
    ensures NewAt(f, i) <= |Layout(Hoist(f))| && (i == |f.insts| ==> NewAt(f, i) == |Layout(Hoist(f))|)
  {
    NewAtGrows(f, i, |f.insts|);
  }

  /** The constructs around i, moved. */
  lemma {:induction false} StackMoves(f: Func, i: nat)
    requires Hoistable(f) && i <= |f.insts|
    ensures NewAt(f, i) <= |Hoisted(f).insts| && StackAt(Hoisted(f).insts, NewAt(f, i)) == Moved(f, StackAt(f.insts, i))
    decreases i
  {
    LayoutReaches(f, i);
    if i == 0 {
      AllInsertsFirst(f, 0);
      FrontIsFlat(f, Count(f));
    } else {
      StackMoves(f, i - 1);
      if Hoist(f).Live(i - 1) {
        LiveStackMoves(f, i - 1);
      } else {
        DeadStackMoves(f, i - 1);
      }
    }
  }

  lemma {:induction false} LiveStackMoves(f: Func, i: nat)
    requires Hoistable(f) && i < |f.insts| && Hoist(f).Live(i) && NewAt(f, i + 1) <= |Hoisted(f).insts|
    requires NewAt(f, i) <= |Hoisted(f).insts| && StackAt(Hoisted(f).insts, NewAt(f, i)) == Moved(f, StackAt(f.insts, i))
    ensures StackAt(Hoisted(f).insts, NewAt(f, i + 1)) == Moved(f, StackAt(f.insts, i + 1))
  {
    NewAtNext(f, i);
    LiveOp(f, i);
    MoveStep(Place(f), StackAt(f.insts, i), f.insts[i].op, i);
    StackNext(Hoisted(f).insts, NewAt(f, i));
    StackNext(f.insts, i);
  }

  lemma {:induction false} StackNext(insts: seq<Inst>, i: nat)
    requires i < |insts|
    ensures StackAt(insts, i + 1) == StepStack(StackAt(insts, i), insts[i].op, i)
  {
  }

  lemma {:induction false} LiveOp(f: Func, i: nat)
    requires Hoistable(f) && i < |f.insts| && Hoist(f).Live(i)
    ensures NewAt(f, i) < |Hoisted(f).insts|
    ensures Hoisted(f).insts[NewAt(f, i)].op == f.insts[i].op && Hoisted(f).insts[NewAt(f, i)].typ == f.insts[i].typ
  {
    LiveGoes(f, i);
  }

  lemma {:induction false} DeadStackMoves(f: Func, i: nat)
    requires Hoistable(f) && i < |f.insts| && !Hoist(f).Live(i) && NewAt(f, i + 1) <= |Hoisted(f).insts|
    requires NewAt(f, i) <= |Hoisted(f).insts| && StackAt(Hoisted(f).insts, NewAt(f, i)) == Moved(f, StackAt(f.insts, i))
    ensures StackAt(Hoisted(f).insts, NewAt(f, i + 1)) == Moved(f, StackAt(f.insts, i + 1))
  {
    NewAtNext(f, i);
    DeadIsFlat(f, i);
  }

  lemma {:induction false} DeadIsFlat(f: Func, i: nat)
    requires Hoistable(f) && i < |f.insts| && !Hoist(f).Live(i)
    ensures StackAt(f.insts, i + 1) == StackAt(f.insts, i)
  {
  }
}
