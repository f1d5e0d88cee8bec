/** The structured control-flow table: one stack walk that records where each marker's arm and
    construct end, and which arm every instruction sits in. */
module CfTable {
  import opened Ir
  import opened ControlFlow
  import opened Verifier
  import opened Machine

  /** The four columns, indexed by instruction. */
  datatype Table = Table(arm: seq<nat>, armEnd: seq<nat>, end: seq<nat>, head: seq<nat>)

  /** Marker j ends arm a: it starts the next arm of a's construct, or closes it. */
  predicate EndsArm(insts: seq<Inst>, a: nat, j: nat) {
    j < |insts| && (Splits(insts[j].op) || Closes(insts[j].op)) &&
    StackAt(insts, j) != [] && Last(StackAt(insts, j)).arm == a
  }

  /** The stack an instruction itself sits on: a closing marker is outside what it closes. */
  function SeatOf(insts: seq<Inst>, i: nat): seq<Frame>
    requires i < |insts|
  {
    var st := StackAt(insts, i);
    if Closes(insts[i].op) && st != [] then st[..|st| - 1] else st
  }

  /** The arm column: a mid marker sits at its construct's level, under the construct's opener. */
  function ArmColumn(insts: seq<Inst>, i: nat): nat
    requires i < |insts|
  {
    var seat := SeatOf(insts, i);
    if seat == [] then NONE
    else if Splits(insts[i].op) then Last(seat).construct
    else Last(seat).arm
  }

  ghost predicate ArmsNoted(arm: seq<nat>, insts: seq<Inst>, n: nat) {
    n <= |insts| == |arm| && forall i :: 0 <= i < n ==> arm[i] == ArmColumn(insts, i)
  }

  ghost predicate ArmEndsNoted(armEnd: seq<nat>, insts: seq<Inst>, n: nat) {
    && n <= |insts| == |armEnd|
    && (forall j, a: nat :: 0 <= j < n && EndsArm(insts, a, j) ==> a < j && armEnd[a] == j)
    && (forall a :: 0 <= a < |insts| && armEnd[a] != 0 ==> EndsArm(insts, a, armEnd[a]))
  }

  ghost predicate HeadsNoted(head: seq<nat>, insts: seq<Inst>, n: nat) {
    && n <= |insts| == |head|
    && (forall j, c: nat :: 0 <= j < n && Belongs(insts, j, c) ==> head[j] == c)
    && (forall j :: 0 <= j < |insts| && head[j] != 0 ==> Belongs(insts, j, head[j]))
  }

  ghost predicate EndsNoted(end: seq<nat>, insts: seq<Inst>, n: nat) {
    && n <= |insts| == |end|
    && (forall j, c: nat :: 0 <= j < n && IsEnd(insts, j, c) ==> c < j && end[c] == j)
    && (forall c :: 0 <= c < |insts| && end[c] != 0 ==> IsEnd(insts, end[c], c))
  }

  /** The columns describe the first n instructions, and hold zero where no marker wrote. */
  ghost predicate Describes(t: Table, insts: seq<Inst>, n: nat) {
    && ArmsNoted(t.arm, insts, n)
    && ArmEndsNoted(t.armEnd, insts, n)
    && HeadsNoted(t.head, insts, n)
    && EndsNoted(t.end, insts, n)
  }

  lemma {:induction false} ArmEndsOnce(insts: seq<Inst>, a: nat, i: nat, j: nat)
    requires EndsArm(insts, a, i) && EndsArm(insts, a, j)
    ensures i == j
  {
    if i < j {
      LaterEnd(insts, a, i, j);
    } else if j < i {
      LaterEnd(insts, a, j, i);
    }
  }

  lemma {:induction false} LaterEnd(insts: seq<Inst>, a: nat, i: nat, j: nat)
    requires EndsArm(insts, a, i) && i < j
    ensures !EndsArm(insts, a, j)
  {
    if EndsArm(insts, a, j) {
      var d, e := |StackAt(insts, i)| - 1, |StackAt(insts, j)| - 1;
      var after := StackAt(insts, i + 1);
      FramesSound(insts, i, d);
      FramesSound(insts, j, e);
      ArmDeterminesStack(insts, i, d, j, e);
    }
  }

  predicate InBounds(st: seq<Frame>, i: nat) {
    |st| <= i && forall d :: 0 <= d < |st| ==> st[d].arm < i && st[d].construct < i
  }

  /** What one marker writes. */
  function Record(t: Table, insts: seq<Inst>, i: nat): Table
    requires i < |insts| && |t.arm| == |t.armEnd| == |t.end| == |t.head| == |insts|
    requires InBounds(StackAt(insts, i), i)
  {
    var st, op := StackAt(insts, i), insts[i].op;
    var armed := t.(arm := t.arm[i := ArmColumn(insts, i)]);
    if st == [] || !(Splits(op) || Closes(op)) then armed
    else
      var ended := armed.(armEnd := t.armEnd[Last(st).arm := i], head := t.head[i := Last(st).construct]);
      if Closes(op) then ended.(end := t.end[Last(st).construct := i]) else ended
  }

  lemma {:induction false} OpenFramesAreEarlier(insts: seq<Inst>, i: nat)
    requires i <= |insts|
    ensures InBounds(StackAt(insts, i), i)
  {
    if i > 0 {
      OpenFramesAreEarlier(insts, i - 1);
    }
  }

  predicate MarksArm(insts: seq<Inst>, i: nat)
    requires i < |insts|
  {
    StackAt(insts, i) != [] && (Splits(insts[i].op) || Closes(insts[i].op))
  }

  lemma {:induction false} ArmEndsGrow(armEnd: seq<nat>, insts: seq<Inst>, i: nat)
    requires i < |insts| && ArmEndsNoted(armEnd, insts, i) && InBounds(StackAt(insts, i), i)
    ensures !MarksArm(insts, i) ==> ArmEndsNoted(armEnd, insts, i + 1)
    ensures MarksArm(insts, i) ==> ArmEndsNoted(armEnd[Last(StackAt(insts, i)).arm := i], insts, i + 1)
  {
    if MarksArm(insts, i) {
      var a := Last(StackAt(insts, i)).arm;
      forall j | 0 <= j < i && EndsArm(insts, a, j)
        ensures false
      {
        ArmEndsOnce(insts, a, j, i);
      }
    }
  }

  lemma {:induction false} HeadsGrow(head: seq<nat>, insts: seq<Inst>, i: nat)
    requires i < |insts| && HeadsNoted(head, insts, i)
    ensures !MarksArm(insts, i) ==> HeadsNoted(head, insts, i + 1)
    ensures MarksArm(insts, i) ==> HeadsNoted(head[i := Last(StackAt(insts, i)).construct], insts, i + 1)
  {
  }

  lemma {:induction false} EndsGrow(end: seq<nat>, insts: seq<Inst>, i: nat)
    requires i < |insts| && EndsNoted(end, insts, i) && InBounds(StackAt(insts, i), i)
    ensures !(MarksArm(insts, i) && Closes(insts[i].op)) ==> EndsNoted(end, insts, i + 1)
    ensures MarksArm(insts, i) && Closes(insts[i].op) ==>
              EndsNoted(end[Last(StackAt(insts, i)).construct := i], insts, i + 1)
  {
    if MarksArm(insts, i) && Closes(insts[i].op) {
      var c := Last(StackAt(insts, i)).construct;
      forall j | 0 <= j < i && IsEnd(insts, j, c)
        ensures false
      {
        ConstructEndsOnce(insts, c, j, i);
      }
    }
  }

  lemma {:induction false} RecordDescribes(t: Table, insts: seq<Inst>, i: nat)
    requires i < |insts| && Describes(t, insts, i)
    ensures InBounds(StackAt(insts, i), i)
    ensures Describes(Record(t, insts, i), insts, i + 1)
  {
    OpenFramesAreEarlier(insts, i);
    ArmEndsGrow(t.armEnd, insts, i);
    HeadsGrow(t.head, insts, i);
    EndsGrow(t.end, insts, i);
  }

  class CfTable {
    const arm: array<nat>     // per instruction: the marker opening its innermost arm
    const armEnd: array<nat>  // per opening marker: the marker closing that arm
    const end: array<nat>     // per if/loop/switch: its closing marker
    const head: array<nat>    // per closing or mid marker: its if/loop/switch

    ghost predicate Shaped(n: nat)
      reads this
    {
      arm.Length == armEnd.Length == end.Length == head.Length == n &&
      arm != armEnd && arm != end && arm != head && armEnd != end && armEnd != head && end != head
    }

    ghost function Columns(): Table
      reads this, arm, armEnd, end, head
    {
      Table(arm[..], armEnd[..], end[..], head[..])
    }

    constructor (n: nat)
      ensures fresh(arm) && fresh(armEnd) && fresh(end) && fresh(head) && Shaped(n)
      ensures forall i :: 0 <= i < n ==> armEnd[i] == 0 && end[i] == 0 && head[i] == 0
    {
      arm := new nat[n](_ => 0);
      armEnd := new nat[n](_ => 0);
      end := new nat[n](_ => 0);
      head := new nat[n](_ => 0);
    }

    /** One step of the walk: records instruction i, on the stack of constructs open before it. */
    method Mark(insts: seq<Inst>, i: nat, open: seq<Frame>)
      requires i < |insts| && Shaped(|insts|)
      requires open == StackAt(insts, i) && InBounds(open, i)
      modifies arm, armEnd, end, head
      ensures Columns() == Record(old(Columns()), insts, i)
    {
      var op, depth := insts[i].op, |open|;
      arm[i] := if depth > 0 then open[depth - 1].arm else NONE;
      if Splits(op) && depth > 0 {
        var top := open[depth - 1];
        armEnd[top.arm] := i;
        head[i] := top.construct;
        arm[i] := top.construct;
      } else if Closes(op) && depth > 0 {
        var top := open[depth - 1];
        armEnd[top.arm] := i;
        end[top.construct] := i;
        head[i] := top.construct;
        arm[i] := if depth > 1 then open[depth - 2].arm else NONE;
      }
    }
  }

  /** Builds the table of a function; it describes every marker. */
  method Build(insts: seq<Inst>) returns (cf: CfTable)
    ensures fresh(cf) && cf.Shaped(|insts|)
    ensures Describes(cf.Columns(), insts, |insts|)
  {
    var n := |insts|;
    cf := new CfTable(n);
    var open: seq<Frame> := [];
    for i := 0 to n
      invariant cf.Shaped(n)
      invariant fresh(cf.arm) && fresh(cf.armEnd) && fresh(cf.end) && fresh(cf.head)
      invariant open == StackAt(insts, i)
      invariant Describes(cf.Columns(), insts, i)
    {
      RecordDescribes(cf.Columns(), insts, i);
      cf.Mark(insts, i, open);
      open := StepStack(open, insts[i].op, i);
    }
  }
}
