/** Dominance scopes: every open arm has a unique serial, so whether a value recorded at a
    (depth, serial) still dominates the walk is one comparison. */
module Scope {
  import opened Ir
  import opened ControlFlow

  /** The serials of the open arms, outermost first (the top level is one too), and the next
      serial to hand out. */
  datatype Walk = Walk(serials: seq<nat>, next: nat)

  const WALK_START := Walk([1], 2)

  function StepWalk(w: Walk, op: Op): (r: Walk)
    requires w.serials != []
    ensures r.serials != []
  {
    if Opens(op) then Walk(w.serials + [w.next], w.next + 1)
    else if Splits(op) then Walk(w.serials[..|w.serials| - 1] + [w.next], w.next + 1)
    else if Closes(op) && |w.serials| > 1 then Walk(w.serials[..|w.serials| - 1], w.next)
    else w
  }

  function WalkAt(insts: seq<Inst>, i: nat): (w: Walk)
    requires i <= |insts|
    ensures w.serials != []
  {
    if i == 0 then WALK_START else StepWalk(WalkAt(insts, i - 1), insts[i - 1].op)
  }

  predicate Live(w: Walk, depth: nat, serial: nat) {
    serial != 0 && depth < |w.serials| && w.serials[depth] == serial
  }

  /** The scope as the walk keeps it: serials per depth in a fixed array. */
  class ScopeState {
    var serial: array<nat>
    var depth: nat
    var next: nat

    ghost predicate Valid()
      reads this, serial
    {
      depth < serial.Length
    }

    ghost function Value(): Walk
      reads this, serial
      requires Valid()
    {
      Walk(serial[..depth + 1], next)
    }

    /** Nesting can't exceed the instruction count. */
    constructor (count: nat)
      ensures Valid() && fresh(serial) && serial.Length == count + 1
      ensures Value() == WALK_START
    {
      serial := new nat[count + 1];
      depth := 0;
      next := 1;
      new;
      serial[0] := next;
      next := next + 1;
    }

    /** The arm at the current depth is a new one. */
    method NewSerial()
      requires Valid()
      modifies this`next, serial
      ensures Valid() && Value() == Walk(old(serial[..depth]) + [old(next)], old(next) + 1)
    {
      serial[depth] := next;
      next := next + 1;
    }

    method Step(op: Op)
      requires Valid()
      requires Opens(op) ==> depth + 1 < serial.Length
      modifies this, serial
      ensures Valid() && serial == old(serial)
      ensures Value() == StepWalk(old(Value()), op)
    {
      ghost var open := serial[..depth + 1];
      ghost var outer := open[..depth];
      if Opens(op) {
        depth := depth + 1;
        NewSerial();
      } else if Splits(op) {
        assert serial[..depth] == outer;
        NewSerial();
      } else if Closes(op) {
        if depth > 0 {
          depth := depth - 1;
          assert serial[..depth + 1] == outer;
        }
      }
    }

    predicate IsLive(atDepth: nat, atSerial: nat)
      reads this, serial
      requires Valid()
      ensures IsLive(atDepth, atSerial) <==> Live(Value(), atDepth, atSerial)
    {
      atSerial != 0 && atDepth <= depth && serial[atDepth] == atSerial
    }
  }

  // ----- the serials agree with the nesting -----

  /** No arm marker stands outside every construct. */
  ghost predicate Sheltered(insts: seq<Inst>, n: nat)
    requires n <= |insts|
  {
    forall m :: 0 <= m < n && Splits(insts[m].op) ==> StackAt(insts, m) != []
  }

  /** The serial an arm opened by marker a receives. */
  function SerialOf(insts: seq<Inst>, a: nat): (s: nat)
    requires a <= |insts|
    ensures s >= 2
  {
    if a == 0 then 2
    else SerialOf(insts, a - 1) + if Opens(insts[a - 1].op) || Splits(insts[a - 1].op) then 1 else 0
  }

  lemma {:induction false} SerialsGrow(insts: seq<Inst>, a: nat, b: nat)
    requires a < b <= |insts|
    ensures SerialOf(insts, a) <= SerialOf(insts, b)
    ensures Opens(insts[a].op) || Splits(insts[a].op) ==> SerialOf(insts, a) < SerialOf(insts, b)
    decreases b - a
  {
    if a + 1 < b {
      SerialsGrow(insts, a, b - 1);
    }
  }

  lemma {:induction false} WalkTracksTree(insts: seq<Inst>, i: nat)
    requires i <= |insts| && Sheltered(insts, i)
    ensures var w, st := WalkAt(insts, i), StackAt(insts, i);
            && |w.serials| == |st| + 1
            && w.serials[0] == 1
            && w.next == SerialOf(insts, i)
            && (forall d :: 0 <= d < |st| ==>
                  st[d].arm < i && w.serials[d + 1] == SerialOf(insts, st[d].arm))
  {
    if i > 0 {
      WalkTracksTree(insts, i - 1);
    }
  }

  /** What the walk records for something established at position i. */
  function Recorded(insts: seq<Inst>, i: nat): (nat, nat)
    requires i <= |insts|
  {
    var w := WalkAt(insts, i);
    (|w.serials| - 1, Last(w.serials))
  }

  /** The constant-time test answers exactly: the arm recorded at x is the current arm of j
      or one enclosing it. */
  lemma {:induction false} LiveIffEncloses(insts: seq<Inst>, x: nat, j: nat)
    requires x <= |insts| && j <= |insts|
    requires Sheltered(insts, x) && Sheltered(insts, j)
    ensures Live(WalkAt(insts, j), Recorded(insts, x).0, Recorded(insts, x).1)
            <==> Encloses(insts, x, j)
  {
    WalkTracksTree(insts, x);
    WalkTracksTree(insts, j);
    var sx, sj := StackAt(insts, x), StackAt(insts, j);
    if sx != [] {
      var d := |sx| - 1;
      var a := sx[d].arm;
      FramesSound(insts, x, d);
      if d < |sj| {
        FramesSound(insts, j, d);
        var b := sj[d].arm;
        if a < b {
          SerialsGrow(insts, a, b);
        } else if b < a {
          SerialsGrow(insts, b, a);
        }
      }
      if Encloses(insts, x, j) {
        var e :| 0 <= e < |sj| && sj[e].arm == a;
        ArmDeterminesStack(insts, x, d, j, e);
      }
    }
  }
}
