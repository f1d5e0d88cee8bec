/** The nesting of constructs that a stream of markers describes: at every position, the stack
    of open constructs, each with the arm that is currently open in it. */
module ControlFlow {
  import opened Ir

  /** An open construct (the index of its if/loop/switch) and the marker that opened its
      current arm (the construct's own opener for the first arm). */
  datatype Frame = Frame(construct: nat, arm: nat)

  function Last<T>(s: seq<T>): T
    requires s != []
  {
    s[|s| - 1]
  }

  function StepStack(st: seq<Frame>, op: Op, i: nat): seq<Frame> {
    if Opens(op) then st + [Frame(i, i)]
    else if st == [] then st
    else if Splits(op) then st[..|st| - 1] + [Frame(Last(st).construct, i)]
    else if Closes(op) then st[..|st| - 1]
    else st
  }

  /** The open constructs just before instruction i, outermost first. */
  function StackAt(insts: seq<Inst>, i: nat): seq<Frame>
    requires i <= |insts|
  {
    if i == 0 then [] else StepStack(StackAt(insts, i - 1), insts[i - 1].op, i - 1)
  }

  /** The marker that opens the innermost arm around position i. */
  function ArmAt(insts: seq<Inst>, i: nat): nat
    requires i <= |insts|
  {
    var st := StackAt(insts, i);
    if st == [] then NONE else Last(st).arm
  }

  /** Marker m belongs to construct c: it splits or closes it. */
  predicate Belongs(insts: seq<Inst>, m: nat, c: nat) {
    m < |insts| && (Splits(insts[m].op) || Closes(insts[m].op)) &&
    StackAt(insts, m) != [] && Last(StackAt(insts, m)).construct == c
  }

  /** Construct c is open just before position j. */
  ghost predicate Inside(insts: seq<Inst>, c: nat, j: nat)
    requires j <= |insts|
  {
    exists d :: 0 <= d < |StackAt(insts, j)| && StackAt(insts, j)[d].construct == c
  }

  /** Arm a is open just before position j. */
  ghost predicate InArm(insts: seq<Inst>, a: nat, j: nat)
    requires j <= |insts|
  {
    exists d :: 0 <= d < |StackAt(insts, j)| && StackAt(insts, j)[d].arm == a
  }

  /** Position x lies in an arm that is still open at position j (the top level always is). */
  ghost predicate Encloses(insts: seq<Inst>, x: nat, j: nat)
    requires x <= |insts| && j <= |insts|
  {
    StackAt(insts, x) == [] || InArm(insts, ArmAt(insts, x), j)
  }

  // ----- what a frame says about the past -----

  /** The frame at depth d opened at its construct, on the stack below it, and has been
      open, with everything below it unchanged, ever since. */
  ghost predicate FrameSound(insts: seq<Inst>, j: nat, d: nat)
    requires j <= |insts| && d < |StackAt(insts, j)|
  {
    var f := StackAt(insts, j)[d];
    && f.construct <= f.arm < j
    && Opens(insts[f.construct].op)
    && (f.arm == f.construct || Splits(insts[f.arm].op))
    && StackAt(insts, f.construct) == StackAt(insts, j)[..d]
    && (forall k :: f.construct < k <= j ==>
          && d < |StackAt(insts, k)|
          && StackAt(insts, k)[..d] == StackAt(insts, j)[..d]
          && StackAt(insts, k)[d].construct == f.construct)
    && (forall k :: f.arm < k <= j ==> StackAt(insts, k)[d] == f)
    && StackAt(insts, f.arm + 1) == StackAt(insts, j)[..d + 1]
  }

  lemma {:induction false} FramesSound(insts: seq<Inst>, j: nat, d: nat)
    requires j <= |insts| && d < |StackAt(insts, j)|
    ensures FrameSound(insts, j, d)
  {
    if d < |StackAt(insts, j - 1)| {
      FramesSound(insts, j - 1, d);
      if StackAt(insts, j)[d] == StackAt(insts, j - 1)[d] {
        FrameKept(insts, j, d);
      } else {
        FrameSplit(insts, j, d);
      }
    } else {
      assert StackAt(insts, j) == StackAt(insts, j - 1) + [Frame(j - 1, j - 1)];
      assert StackAt(insts, j)[..d] == StackAt(insts, j - 1);
      assert StackAt(insts, j) == StackAt(insts, j)[..d + 1];
    }
  }

  lemma {:induction false} FrameKept(insts: seq<Inst>, j: nat, d: nat)
    requires 0 < j <= |insts|
    requires d < |StackAt(insts, j)| && d < |StackAt(insts, j - 1)|
    requires StackAt(insts, j)[d] == StackAt(insts, j - 1)[d]
    requires FrameSound(insts, j - 1, d)
    ensures FrameSound(insts, j, d)
  {
    var st, cur := StackAt(insts, j - 1), StackAt(insts, j);
    assert cur[..d] == st[..d];
    SamePrefix(st, cur, d);
  }

  lemma {:induction false} SamePrefix<T>(s: seq<T>, t: seq<T>, d: nat)
    requires d < |s| && d < |t| && s[..d] == t[..d] && s[d] == t[d]
    ensures s[..d + 1] == t[..d + 1]
  {
    assert s[..d + 1] == s[..d] + [s[d]] && t[..d + 1] == t[..d] + [t[d]];
  }

  lemma {:induction false} FrameSplit(insts: seq<Inst>, j: nat, d: nat)
    requires 0 < j <= |insts|
    requires d < |StackAt(insts, j)| && d < |StackAt(insts, j - 1)|
    requires StackAt(insts, j)[d] != StackAt(insts, j - 1)[d]
    requires FrameSound(insts, j - 1, d)
    ensures FrameSound(insts, j, d)
  {
    var st, cur := StackAt(insts, j - 1), StackAt(insts, j);
    assert Splits(insts[j - 1].op) && d == |st| - 1;
    assert cur[d] == Frame(st[d].construct, j - 1);
    assert cur[..d] == st[..d];
    assert cur == cur[..d + 1];
  }

  /** An arm marker is open at one depth only, on a stack that it determines. */
  lemma {:induction false} ArmDeterminesStack(insts: seq<Inst>, i: nat, d: nat, j: nat, e: nat)
    requires i <= |insts| && j <= |insts|
    requires d < |StackAt(insts, i)| && e < |StackAt(insts, j)|
    requires StackAt(insts, i)[d].arm == StackAt(insts, j)[e].arm
    ensures d == e && StackAt(insts, i)[..d + 1] == StackAt(insts, j)[..e + 1]
  {
    FramesSound(insts, i, d);
    FramesSound(insts, j, e);
    var a := StackAt(insts, i)[d].arm;
    assert |StackAt(insts, a + 1)| == d + 1;
    assert |StackAt(insts, a + 1)| == e + 1;
  }

  /** The arm around x is open at j exactly when x's whole stack is still there. */
  lemma {:induction false} EnclosesIsPrefix(insts: seq<Inst>, x: nat, j: nat)
    requires x <= |insts| && j <= |insts|
    ensures Encloses(insts, x, j) <==> StackAt(insts, x) <= StackAt(insts, j)
  {
    var sx, sj := StackAt(insts, x), StackAt(insts, j);
    if sx != [] {
      var top := |sx| - 1;
      if Encloses(insts, x, j) {
        var e :| 0 <= e < |sj| && sj[e].arm == ArmAt(insts, x);
        ArmDeterminesStack(insts, x, top, j, e);
        assert sx == sx[..top + 1];
      }
      if sx <= sj {
        assert sj[top] == sx[top];
      }
    }
  }

  /** A construct's marker m sees the construct as its innermost one, opened on the stack
      that was there before it. */
  lemma {:induction false} MarkerWindow(insts: seq<Inst>, m: nat, c: nat)
    requires Belongs(insts, m, c)
    ensures c < m && Opens(insts[c].op)
    ensures |StackAt(insts, m)| == |StackAt(insts, c)| + 1
    ensures StackAt(insts, m)[..|StackAt(insts, c)|] == StackAt(insts, c)
    ensures forall k :: c < k <= m ==>
              |StackAt(insts, c)| < |StackAt(insts, k)| &&
              StackAt(insts, k)[|StackAt(insts, c)|].construct == c
  {
    FramesSound(insts, m, |StackAt(insts, m)| - 1);
  }

  /** A construct that is open at j and closed at the end of the stream has a closing marker
      after j, of the kind the last stack step needs. */
  lemma {:induction false} CloserExists(insts: seq<Inst>, j: nat, d: nat, n: nat) returns (e: nat)
    requires j <= n <= |insts| && d < |StackAt(insts, j)|
    requires |StackAt(insts, n)| <= d
    ensures j <= e < n && Closes(insts[e].op)
    ensures Belongs(insts, e, StackAt(insts, j)[d].construct)
    decreases n - j
  {
    if |StackAt(insts, j + 1)| <= d {
      e := j;
    } else {
      var c := StackAt(insts, j)[d].construct;
      assert StackAt(insts, j + 1)[d].construct == c;
      e := CloserExists(insts, j + 1, d, n);
    }
  }
}
