/** The emitted stream, run marker by marker, does what the nested code it was emitted from does. */
module FlatRefines {
  import opened Ir
  import opened ControlFlow
  import opened Verifier
  import opened Machine
  import opened SourceRuns
  import opened LoweredRuns
  import opened LoweredMarkers
  import opened FlatRuns
  import opened FlatSections

  // ----- tokens in the stream -----

  ghost predicate Lies(p: Stream, pos: nat, toks: seq<Token>) {
    pos + |toks| <= |p.ts| && p.ts[pos..pos + |toks|] == toks
  }

  lemma {:induction false} LiesParts(p: Stream, pos: nat, a: seq<Token>, b: seq<Token>)
    requires Lies(p, pos, a + b)
    ensures Lies(p, pos, a) && Lies(p, pos + |a|, b)
  {
    var here := p.ts[pos..pos + |a + b|];
    assert here[..|a|] == a && here[|a|..] == b;
  }

  lemma {:induction false} LiesHead(p: Stream, pos: nat, t: Token, rest: seq<Token>)
    requires Lies(p, pos, [t] + rest)
    ensures pos < |p.ts| && p.ts[pos] == t && Lies(p, pos + 1, rest)
  {
    LiesParts(p, pos, [t], rest);
    assert p.ts[pos..pos + 1][0] == t;
  }

  lemma {:induction false} LiesLast(p: Stream, pos: nat, a: seq<Token>, t: Token)
    requires Lies(p, pos, a + [t])
    ensures Lies(p, pos, a) && pos + |a| < |p.ts| && p.ts[pos + |a|] == t
  {
    LiesParts(p, pos, a, [t]);
    assert p.ts[pos + |a|..pos + |a| + 1][0] == t;
  }

  lemma {:induction false} LiesBracket(p: Stream, pos: nat, open: Token, a: seq<Token>, has: bool, mid: Token, b: seq<Token>, close: Token)
    requires Lies(p, pos, Bracket(open, a, has, mid, b, close))
    ensures pos < |p.ts| && p.ts[pos] == open && Lies(p, pos + 1, a)
    ensures var q := pos + 1 + |a|;
            if has then
              var e := q + 1 + |b|;
              e < |p.ts| && p.ts[q] == mid && Lies(p, q + 1, b) && p.ts[e] == close
            else q < |p.ts| && p.ts[q] == close
  {
    var rest := if has then [mid] + (b + [close]) else [close];
    LiesHead(p, pos, open, a + rest);
    if has {
      LiesParts(p, pos + 1, a, rest);
      LiesHead(p, pos + 1 + |a|, mid, b + [close]);
      LiesLast(p, pos + 1 + |a| + 1, b, close);
    } else {
      LiesLast(p, pos + 1, a, close);
    }
  }

  lemma {:induction false} LiesSpells(p: Stream, pos: nat, toks: seq<Token>)
    requires Means(p) && Lies(p, pos, toks)
    ensures Spells(p.insts, pos, toks)
  {
    forall k: nat | k < |toks|
      ensures SpelledAt(p.insts, pos, toks, k)
    {
      assert MeansAt(p, pos + k);
      assert p.ts[pos..pos + |toks|][k] == toks[k];
    }
  }

  // ----- what a piece of the stream does -----

  /** Where a piece stands: under which constructs, what position is behind it, and whether it may
      break or continue out of itself. */
  datatype Place = Place(open: seq<Frame>, end: nat, brk: bool, cont: bool)

  ghost predicate CanJump(insts: seq<Inst>, w: Place) {
    (w.brk ==> exists t :: JumpsTo(insts, w.open, false, t)) && (w.cont ==> exists t :: JumpsTo(insts, w.open, true, t))
  }

  /** b is where, and with which variables, a piece that ends with r leaves the machine. */
  ghost predicate Arrives(p: Stream, w: Place, r: Effect, b: Config) {
    match r
    case Went(s) => b.at.Running? && b.at.pc == w.end && b.st == s
    case Left(s) => w.brk && JumpsTo(p.insts, w.open, false, b.at) && b.st == s
    case Nexted(s) => w.cont && JumpsTo(p.insts, w.open, true, b.at) && b.st == s
    case Exited(s) => StopsAt(p, Exit, s, b)
    case Killed(s) => StopsAt(p, Kill, s, b)
    case Spent => true
  }

  /** b is about to execute a return (a discard). */
  ghost predicate StopsAt(p: Stream, c: Code, st: LoweredRuns.State, b: Config) {
    b.at.Running? && b.at.pc < |p.ts| && p.ts[b.at.pc] == Plain(c) && b.st == st
  }

  /** From a, the machine arrives as r says; a piece that spent its fuel made that many moves. */
  ghost predicate Does(p: Stream, a: Config, w: Place, fuel: nat, r: Effect)
    requires |p.insts| == |p.ts|
  {
    exists b: Config, n: nat :: Goes(p, a, b, n) && Arrives(p, w, r, b) && (r.Spent? ==> fuel <= n)
  }

  /** The machine is about to run the piece at pos. */
  ghost predicate Stands(p: Stream, a: Config, pos: nat, w: Place) {
    && Means(p) && a.at.Running? && a.at.pc == pos <= |p.insts|
    && StackAt(p.insts, pos) == w.open && CanJump(p.insts, w)
  }

  lemma {:induction false} NoMoves(p: Stream, a: Config, w: Place, fuel: nat, r: Effect)
    requires |p.insts| == |p.ts| && Arrives(p, w, r, a) && (r.Spent? ==> fuel == 0)
    ensures Does(p, a, w, fuel, r)
  {
    assert Goes(p, a, a, 0);
  }

  lemma {:induction false} Follows(p: Stream, a: Config, b: Config, n: nat, w: Place, less: nat, fuel: nat, r: Effect)
    requires |p.insts| == |p.ts| && Goes(p, a, b, n) && Does(p, b, w, less, r) && fuel <= n + less
    ensures Does(p, a, w, fuel, r)
  {
    var c: Config, m: nat :| Goes(p, b, c, m) && Arrives(p, w, r, c) && (r.Spent? ==> less <= m);
    GoesOn(p, a, b, n, c, m);
  }

  lemma {:induction false} MoveThen(p: Stream, a: Config, b: Config, w: Place, less: nat, fuel: nat, r: Effect)
    requires |p.insts| == |p.ts| && Move(p, a, b) && Does(p, b, w, less, r) && fuel <= 1 + less
    ensures Does(p, a, w, fuel, r)
  {
    OneMove(p, a, b);
    Follows(p, a, b, 1, w, less, fuel, r);
  }

  lemma {:induction false} LastMove(p: Stream, a: Config, b: Config, w: Place, fuel: nat, r: Effect)
    requires |p.insts| == |p.ts| && Move(p, a, b) && Arrives(p, w, r, b) && !r.Spent?
    ensures Does(p, a, w, fuel, r)
  {
    OneMove(p, a, b);
  }

  // ----- jumps -----

  lemma {:induction false} LeavesAt(insts: seq<Inst>, c: nat, e: nat, t: Machine.State)
    requires IsEnd(insts, e, c)
    ensures Leaves(insts, c, t) <==> t == Running(e + 1, None)
  {
    if Leaves(insts, c, t) {
      assert Leaves(insts, c, Running(e + 1, None));
      LeavingIsOne(insts, c, t, Running(e + 1, None));
    }
  }

  lemma {:induction false} NthAt(insts: seq<Inst>, c: nat, k: nat, m: nat, t: Machine.State)
    requires IsNth(insts, c, k, m)
    ensures EntersNth(insts, c, k, t) <==> Enters(m, t)
  {
    if EntersNth(insts, c, k, t) {
      assert EntersNth(insts, c, k, Running(m + 1, Some(m)));
      NthIsOne(insts, c, k, t, Running(m + 1, Some(m)));
    }
  }

  ghost predicate JumpFrom(insts: seq<Inst>, c: nat, only: bool, t: Machine.State) {
    if only then ContinuesTo(insts, c, t) else Leaves(insts, c, t)
  }

  /** A jump from just inside a construct that it leaves. */
  lemma {:induction false} TopJumps(insts: seq<Inst>, st: seq<Frame>, f: Frame, only: bool, t: Machine.State)
    requires f.construct < |insts| && Target(insts[f.construct].op, only)
    ensures JumpsTo(insts, st + [f], only, t) <==> JumpFrom(insts, f.construct, only, t)
  {
    var top := st + [f];
    assert InnermostAt(insts, top, only, |st|);
    assert Innermost(insts, top, only, f.construct);
    if JumpsTo(insts, top, only, t) {
      var c: nat :| Innermost(insts, top, only, c) && if only then ContinuesTo(insts, c, t) else Leaves(insts, c, t);
      InnermostIsOne(insts, top, only, c, f.construct);
    }
  }

  /** A construct that a jump does not leave makes no difference to it. */
  lemma {:induction false} UnderJumps(insts: seq<Inst>, st: seq<Frame>, f: Frame, only: bool, t: Machine.State)
    requires f.construct < |insts| && !Target(insts[f.construct].op, only)
    ensures JumpsTo(insts, st + [f], only, t) <==> JumpsTo(insts, st, only, t)
  {
    forall c: nat
      ensures Innermost(insts, st + [f], only, c) <==> Innermost(insts, st, only, c)
    {
      UnderInnermost(insts, st, f, only, c);
    }
  }

  lemma {:induction false} UnderInnermost(insts: seq<Inst>, st: seq<Frame>, f: Frame, only: bool, c: nat)
    requires f.construct < |insts| && !Target(insts[f.construct].op, only)
    ensures Innermost(insts, st + [f], only, c) <==> Innermost(insts, st, only, c)
  {
    if Innermost(insts, st + [f], only, c) {
      var d: nat :| InnermostAt(insts, st + [f], only, d) && (st + [f])[d].construct == c;
      assert d < |st|;
      forall e | d < e < |st|
        ensures (st + [f])[e] == st[e]
      {
      }
      assert InnermostAt(insts, st, only, d);
    }
    if Innermost(insts, st, only, c) {
      var d: nat :| InnermostAt(insts, st, only, d) && st[d].construct == c;
      assert InnermostAt(insts, st + [f], only, d);
    }
  }

  // ----- rows of code -----

  lemma {:induction false} RowDoes(p: Stream, a: Config, pos: nat, cs: seq<Code>, w: Place, fuel: nat)
    requires Stands(p, a, pos, w) && Lies(p, pos, FlatAll(cs)) && w.end == pos + |FlatAll(cs)|
    requires NestedAll(cs, w.brk, w.cont)
    ensures Does(p, a, w, fuel, RunAll(fuel, cs, a.st))
    decreases fuel, w.end - pos, 6
  {
    if cs == [] {
      NoMoves(p, a, w, fuel, Went(a.st));
    } else {
      var mid := pos + |Flat(cs[0])|;
      var near := w.(end := mid);
      LiesParts(p, pos, Flat(cs[0]), FlatAll(cs[1..]));
      CodeDoes(p, a, pos, cs[0], near, fuel);
      var r := Run(fuel, cs[0], a.st);
      var b: Config, n: nat :| Goes(p, a, b, n) && Arrives(p, near, r, b) && (r.Spent? ==> fuel <= n);
      if r.Went? {
        LiesSpells(p, pos, Flat(cs[0]));
        Balanced(p.insts, pos, cs[0]);
        RowDoes(p, b, mid, cs[1..], w, fuel);
        Follows(p, a, b, n, w, fuel, fuel, RunAll(fuel, cs, a.st));
      } else {
        assert Arrives(p, w, r, b);
      }
    }
  }

  lemma {:induction false} CodeDoes(p: Stream, a: Config, pos: nat, c: Code, w: Place, fuel: nat)
    requires Stands(p, a, pos, w) && Lies(p, pos, Flat(c)) && w.end == pos + |Flat(c)|
    requires Nested(c, w.brk, w.cont)
    ensures Does(p, a, w, fuel, Run(fuel, c, a.st))
    decreases fuel, w.end - pos, 5
  {
    match c
    case Branch(_, _, _, _) =>
      BranchLies(p, pos, c);
      BranchDoes(p, a, pos, c, MidOf(pos, c), w.end - 1, w, fuel);
    case Loop(_, _, _, _) =>
      LoopLies(p, pos, c);
      LoopDoes(p, a, pos, c, MidOf(pos, c), w.end - 1, w, fuel);
    case Select(_, _) => SelectDoes(p, a, pos, c, w, fuel);
    case _ => PlainDoes(p, a, pos, c, w, fuel);
  }

  lemma {:induction false} PlainDoes(p: Stream, a: Config, pos: nat, c: Code, w: Place, fuel: nat)
    requires !c.Branch? && !c.Loop? && !c.Select?
    requires Stands(p, a, pos, w) && Lies(p, pos, Flat(c)) && w.end == pos + 1
    requires Nested(c, w.brk, w.cont)
    ensures Does(p, a, w, fuel, Run(fuel, c, a.st))
  {
    assert Flat(c) == [Plain(c)] + [];
    LiesHead(p, pos, Plain(c), []);
    if c.Exit? || c.Kill? {
      NoMoves(p, a, w, fuel, Run(fuel, c, a.st));
    } else {
      var t := Running(pos + 1, None);
      if c.Leave? {
        t :| JumpsTo(p.insts, w.open, false, t);
      } else if c.Next? {
        t :| JumpsTo(p.insts, w.open, true, t);
      }
      LastMove(p, a, Config(t, After(Plain(c), a.st)), w, fuel, Run(fuel, c, a.st));
    }
  }

  // ----- selections -----

  /** The markers of an `if` at l, m and e, and its arms between them. */
  ghost predicate BranchHere(p: Stream, l: nat, c: Code, m: nat, e: nat) {
    && |p.insts| == |p.ts| && BranchAt(p.insts, l, c, m, e) && LoweredMarkers.Construct(p.insts, l, m, c.hasElse, e)
    && p.ts[l] == TIf(c.cond) && Lies(p, l + 1, FlatAll(c.yes)) && p.ts[e] == TEndIf
    && (c.hasElse ==> p.ts[m] == TElse && Lies(p, m + 1, FlatAll(c.no)))
  }

  lemma {:induction false} BranchLies(p: Stream, l: nat, c: Code)
    requires Means(p) && c.Branch? && Lies(p, l, Flat(c))
    ensures BranchHere(p, l, c, MidOf(l, c), l + |Flat(c)| - 1)
  {
    LiesSpells(p, l, Flat(c));
    BranchParts(p.insts, l, c);
    BranchBalanced(p.insts, l, c, MidOf(l, c), l + |Flat(c)| - 1);
    BranchTokens(c);
    LiesBracket(p, l, TIf(c.cond), FlatAll(c.yes), c.hasElse, TElse, FlatAll(c.no), TEndIf);
  }

  /** An arm of an `if` does to its surroundings what it does inside. */
  lemma {:induction false} ThroughIf(p: Stream, w: Place, f: Frame, end: nat, r: Effect, b: Config)
    requires f.construct < |p.insts| && p.insts[f.construct].op.If? && !r.Went?
    ensures Arrives(p, Place(w.open + [f], end, w.brk, w.cont), r, b) <==> Arrives(p, w, r, b)
  {
    UnderJumps(p.insts, w.open, f, false, b.at);
    UnderJumps(p.insts, w.open, f, true, b.at);
  }

  lemma {:induction false} IntoIf(insts: seq<Inst>, w: Place, f: Frame, end: nat)
    requires f.construct < |insts| && insts[f.construct].op.If? && CanJump(insts, w)
    ensures CanJump(insts, Place(w.open + [f], end, w.brk, w.cont))
  {
    if w.brk {
      var t :| JumpsTo(insts, w.open, false, t);
      UnderJumps(insts, w.open, f, false, t);
    }
    if w.cont {
      var t :| JumpsTo(insts, w.open, true, t);
      UnderJumps(insts, w.open, f, true, t);
    }
  }

  /** An `if` without an else has no later arm. */
  lemma {:induction false} NoElse(insts: seq<Inst>, l: nat, c: Code, e: nat)
    requires BranchAt(insts, l, c, e, e) && !c.hasElse
    ensures !HasLaterArm(insts, l)
  {
    if HasLaterArm(insts, l) {
      var m: nat :| Belongs(insts, m, l) && Splits(insts[m].op);
      MarkerWindow(insts, m, l);
      if m < e {
        NotInArm(insts, l, c, e, m);
      } else {
        BranchBalanced(insts, l, c, e, e);
      }
    }
  }

  lemma {:induction false} NotInArm(insts: seq<Inst>, l: nat, c: Code, e: nat, m: nat)
    requires BranchAt(insts, l, c, e, e) && !c.hasElse && l < m < e
    ensures !Belongs(insts, m, l)
  {
    RowIsHigh(insts, l + 1, c.yes, m);
    NotOutside(insts, l, l + 1, m);
  }

  lemma {:induction false} BranchDoes(p: Stream, a: Config, l: nat, c: Code, m: nat, e: nat, w: Place, fuel: nat)
    requires BranchHere(p, l, c, m, e) && Stands(p, a, l, w) && w.end == e + 1 && Nested(c, w.brk, w.cont)
    ensures Does(p, a, w, fuel, Run(fuel, c, a.st))
    decreases fuel, w.end - l, 4
  {
    ConstructStacks(p.insts, l, m, c.hasElse, e);
    if Test(c.cond, a.st) {
      var b := Config(Running(l + 1, Some(l)), a.st);
      YesDoes(p, b, l, c, m, e, w, fuel);
      MoveThen(p, a, b, w, fuel, fuel, Run(fuel, c, a.st));
    } else if c.hasElse {
      var b := Config(Running(m + 1, Some(m)), a.st);
      SecondArm(p.insts, l, c.yes, m);
      NoDoes(p, b, l, c, m, e, w, fuel);
      MoveThen(p, a, b, w, fuel, fuel, Run(fuel, c, a.st));
    } else {
      NoElse(p.insts, l, c, e);
      LeavesAt(p.insts, l, e, Running(e + 1, None));
      LastMove(p, a, Config(Running(e + 1, None), a.st), w, fuel, Run(fuel, c, a.st));
    }
  }

  lemma {:induction false} YesDoes(p: Stream, b: Config, l: nat, c: Code, m: nat, e: nat, w: Place, fuel: nat)
    requires BranchHere(p, l, c, m, e) && w.end == e + 1 && Nested(c, w.brk, w.cont)
    requires Means(p) && StackAt(p.insts, l) == w.open && CanJump(p.insts, w)
    requires b.at == Running(l + 1, Some(l)) && StackAt(p.insts, l + 1) == w.open + [Frame(l, l)]
    ensures Does(p, b, w, fuel, RunAll(fuel, c.yes, b.st))
    decreases fuel, w.end - l, 3
  {
    var inside := Place(w.open + [Frame(l, l)], m, w.brk, w.cont);
    IntoIf(p.insts, w, Frame(l, l), m);
    RowDoes(p, b, l + 1, c.yes, inside, fuel);
    var r := RunAll(fuel, c.yes, b.st);
    var x: Config, n: nat :| Goes(p, b, x, n) && Arrives(p, inside, r, x) && (r.Spent? ==> fuel <= n);
    if r.Went? {
      BehindArm(p, x, l, c, m, e, if c.hasElse then m else e, w, fuel);
      Follows(p, b, x, n, w, fuel, fuel, r);
    } else {
      ThroughIf(p, w, Frame(l, l), m, r, x);
    }
  }

  lemma {:induction false} NoDoes(p: Stream, b: Config, l: nat, c: Code, m: nat, e: nat, w: Place, fuel: nat)
    requires BranchHere(p, l, c, m, e) && c.hasElse && w.end == e + 1 && Nested(c, w.brk, w.cont)
    requires Means(p) && StackAt(p.insts, l) == w.open && CanJump(p.insts, w)
    requires b.at == Running(m + 1, Some(m)) && StackAt(p.insts, m + 1) == w.open + [Frame(l, m)]
    ensures Does(p, b, w, fuel, RunAll(fuel, c.no, b.st))
    decreases fuel, w.end - l, 3
  {
    var inside := Place(w.open + [Frame(l, m)], e, w.brk, w.cont);
    IntoIf(p.insts, w, Frame(l, m), e);
    RowDoes(p, b, m + 1, c.no, inside, fuel);
    var r := RunAll(fuel, c.no, b.st);
    var x: Config, n: nat :| Goes(p, b, x, n) && Arrives(p, inside, r, x) && (r.Spent? ==> fuel <= n);
    if r.Went? {
      BehindArm(p, x, l, c, m, e, e, w, fuel);
      Follows(p, b, x, n, w, fuel, fuel, r);
    } else {
      ThroughIf(p, w, Frame(l, m), e, r, x);
    }
  }

  /** From the marker behind an arm the machine goes on behind the `if`. */
  lemma {:induction false} BehindArm(p: Stream, x: Config, l: nat, c: Code, m: nat, e: nat, at: nat, w: Place, fuel: nat)
    requires BranchHere(p, l, c, m, e) && x.at.Running? && x.at.pc == at && w.end == e + 1
    requires at == e || (c.hasElse && at == m)
    ensures Does(p, x, w, fuel, Went(x.st))
  {
    ConstructStacks(p.insts, l, m, c.hasElse, e);
    LeavesAt(p.insts, l, e, Running(e + 1, None));
    LastMove(p, x, Config(Running(e + 1, None), x.st), w, fuel, Went(x.st));
  }

  // ----- loops -----

  ghost predicate LoopHere(p: Stream, l: nat, c: Code, m: nat, e: nat) {
    && Means(p) && LoopAt(p.insts, l, c, m, e) && LoweredMarkers.Construct(p.insts, l, m, c.hasCont, e)
    && p.ts[l] == TLoop && Lies(p, l + 1, FlatAll(c.body)) && p.ts[e] == TEndLoop(c.again)
    && (c.hasCont ==> p.ts[m] == TLoopContinue && Lies(p, m + 1, FlatAll(c.cont)))
  }

  lemma {:induction false} LoopLies(p: Stream, l: nat, c: Code)
    requires Means(p) && c.Loop? && Lies(p, l, Flat(c))
    ensures LoopHere(p, l, c, MidOf(l, c), l + |Flat(c)| - 1)
  {
    LiesSpells(p, l, Flat(c));
    LoopParts(p.insts, l, c);
    LoopBalanced(p.insts, l, c, MidOf(l, c), l + |Flat(c)| - 1);
    LoopTokens(c);
    LiesBracket(p, l, TLoop, FlatAll(c.body), c.hasCont, TLoopContinue, FlatAll(c.cont), TEndLoop(c.again));
  }

  /** The loop as its surroundings see it. */
  ghost predicate LoopIn(p: Stream, l: nat, c: Code, m: nat, e: nat, w: Place) {
    LoopHere(p, l, c, m, e) && w.end == e + 1 && StackAt(p.insts, l) == w.open && Nested(c, w.brk, w.cont)
  }

  lemma {:induction false} LoopDoes(p: Stream, a: Config, l: nat, c: Code, m: nat, e: nat, w: Place, fuel: nat)
    requires LoopHere(p, l, c, m, e) && Stands(p, a, l, w) && w.end == e + 1 && Nested(c, w.brk, w.cont)
    ensures Does(p, a, w, fuel, Run(fuel, c, a.st))
    decreases fuel, w.end - l, 4
  {
    var b := Config(Running(l + 1, Some(l)), a.st);
    PassDoes(p, b, l, c, m, e, w, fuel);
    MoveThen(p, a, b, w, fuel, fuel, Run(fuel, c, a.st));
  }

  function BodyPlace(l: nat, c: Code, m: nat, w: Place): Place
    requires c.Loop?
  {
    Place(w.open + [Frame(l, l)], m, true, c.hasCont)
  }

  lemma {:induction false} BreakLeads(p: Stream, l: nat, c: Code, m: nat, e: nat, w: Place, x: nat, t: Machine.State)
    requires LoopIn(p, l, c, m, e, w)
    ensures JumpsTo(p.insts, w.open + [Frame(l, x)], false, t) <==> t == Running(e + 1, None)
  {
    ConstructStacks(p.insts, l, m, c.hasCont, e);
    TopJumps(p.insts, w.open, Frame(l, x), false, t);
    LeavesAt(p.insts, l, e, t);
  }

  lemma {:induction false} ContinueLeads(p: Stream, l: nat, c: Code, m: nat, e: nat, w: Place, x: nat, t: Machine.State)
    requires LoopIn(p, l, c, m, e, w) && c.hasCont
    ensures JumpsTo(p.insts, w.open + [Frame(l, x)], true, t) <==> t == Running(m + 1, Some(m))
  {
    ConstructStacks(p.insts, l, m, c.hasCont, e);
    TopJumps(p.insts, w.open, Frame(l, x), true, t);
    SecondArm(p.insts, l, c.body, m);
    NthAt(p.insts, l, 0, m, t);
  }

  lemma {:induction false} BodyStands(p: Stream, b: Config, l: nat, c: Code, m: nat, e: nat, w: Place)
    requires LoopIn(p, l, c, m, e, w) && b.at == Running(l + 1, Some(l))
    ensures Stands(p, b, l + 1, BodyPlace(l, c, m, w))
  {
    ConstructStacks(p.insts, l, m, c.hasCont, e);
    BreakLeads(p, l, c, m, e, w, l, Running(e + 1, None));
    if c.hasCont {
      ContinueLeads(p, l, c, m, e, w, l, Running(m + 1, Some(m)));
    }
  }

  /** One pass through the body, and what comes after it. */
  lemma {:induction false} PassDoes(p: Stream, b: Config, l: nat, c: Code, m: nat, e: nat, w: Place, fuel: nat)
    requires LoopIn(p, l, c, m, e, w) && b.at == Running(l + 1, Some(l))
    ensures Does(p, b, w, fuel, RunLoop(fuel, c, b.st))
    decreases fuel, w.end - l, 3
  {
    var inside := BodyPlace(l, c, m, w);
    BodyStands(p, b, l, c, m, e, w);
    RowDoes(p, b, l + 1, c.body, inside, fuel);
    var r := RunAll(fuel, c.body, b.st);
    var x: Config, n: nat :| Goes(p, b, x, n) && Arrives(p, inside, r, x) && (r.Spent? ==> fuel <= n);
    if r.Went? || r.Nexted? {
      BodyEndDoes(p, x, l, c, m, e, w, fuel, r);
      Follows(p, b, x, n, w, fuel, fuel, LoopAgain(fuel, c, x.st));
    } else if r.Left? {
      BreakLeads(p, l, c, m, e, w, l, x.at);
    }
  }

  /** From the marker behind the body, or from a continue. */
  lemma {:induction false} BodyEndDoes(p: Stream, x: Config, l: nat, c: Code, m: nat, e: nat, w: Place, fuel: nat, r: Effect)
    requires LoopIn(p, l, c, m, e, w) && (r.Went? || r.Nexted?) && Arrives(p, BodyPlace(l, c, m, w), r, x)
    ensures Does(p, x, w, fuel, LoopAgain(fuel, c, x.st))
    decreases fuel, w.end - l, 2
  {
    if r.Nexted? {
      ContinueLeads(p, l, c, m, e, w, l, x.at);
      AgainDoes(p, x, l, c, m, e, w, fuel);
    } else if c.hasCont {
      var y := Config(Running(m + 1, Some(m)), x.st);
      AgainDoes(p, y, l, c, m, e, w, fuel);
      MoveThen(p, x, y, w, fuel, fuel, LoopAgain(fuel, c, x.st));
    } else {
      AgainDoes(p, x, l, c, m, e, w, fuel);
    }
  }

  /** The continue section, if there is one, and the back edge. */
  lemma {:induction false} AgainDoes(p: Stream, b: Config, l: nat, c: Code, m: nat, e: nat, w: Place, fuel: nat)
    requires LoopIn(p, l, c, m, e, w) && b.at.Running? && b.at.pc == if c.hasCont then m + 1 else e
    ensures Does(p, b, w, fuel, LoopAgain(fuel, c, b.st))
    decreases fuel, w.end - l, 1
  {
    if c.hasCont {
      ConstructStacks(p.insts, l, m, c.hasCont, e);
      var inside := Place(w.open + [Frame(l, m)], e, false, false);
      RowDoes(p, b, m + 1, c.cont, inside, fuel);
      var r := RunAll(fuel, c.cont, b.st);
      var x: Config, n: nat :| Goes(p, b, x, n) && Arrives(p, inside, r, x) && (r.Spent? ==> fuel <= n);
      if r.Went? {
        BackEdgeDoes(p, x, l, c, m, e, w, fuel);
        Follows(p, b, x, n, w, fuel, fuel, LoopAgain(fuel, c, b.st));
      }
    } else {
      BackEdgeDoes(p, b, l, c, m, e, w, fuel);
    }
  }

  function EdgeRun(fuel: nat, c: Code, st: LoweredRuns.State): Effect
    requires c.Loop?
  {
    if !Repeats(c.again, st) then Went(st) else if fuel == 0 then Spent else RunLoop(fuel - 1, c, st)
  }

  lemma {:induction false} BackEdgeDoes(p: Stream, x: Config, l: nat, c: Code, m: nat, e: nat, w: Place, fuel: nat)
    requires LoopIn(p, l, c, m, e, w) && x.at.Running? && x.at.pc == e
    ensures Does(p, x, w, fuel, EdgeRun(fuel, c, x.st))
    decreases fuel, w.end - l, 0
  {
    var b := EdgeEnd(l, c, e, x.st);
    EdgeMoves(p, x, l, c, m, e, w);
    if !Repeats(c.again, x.st) {
      LastMove(p, x, b, w, fuel, Went(x.st));
    } else if fuel == 0 {
      NoMoves(p, x, w, fuel, Spent);
    } else {
      PassDoes(p, b, l, c, m, e, w, fuel - 1);
      MoveThen(p, x, b, w, fuel - 1, fuel, RunLoop(fuel - 1, c, x.st));
    }
  }

  function EdgeEnd(l: nat, c: Code, e: nat, st: LoweredRuns.State): Config
    requires c.Loop?
  {
    Config(if Repeats(c.again, st) then Running(l + 1, Some(l)) else Running(e + 1, None), st)
  }

  lemma {:induction false} EdgeMoves(p: Stream, x: Config, l: nat, c: Code, m: nat, e: nat, w: Place)
    requires LoopIn(p, l, c, m, e, w) && x.at.Running? && x.at.pc == e
    ensures Move(p, x, EdgeEnd(l, c, e, x.st))
  {
    ConstructStacks(p.insts, l, m, c.hasCont, e);
  }

  // ----- switches -----

  ghost predicate SelectHere(p: Stream, l: nat, c: Code, e: nat) {
    && c.Select? && Means(p) && e == l + 1 + |FlatArms(c.arms)| && e < |p.ts|
    && p.insts[l].op.Switch? && IsEnd(p.insts, e, l) && StackAt(p.insts, l + 1) == StackAt(p.insts, l) + [Frame(l, l)]
    && p.ts[l] == TSwitch(c.key, ArmTags(c.arms)) && Lies(p, l + 1, FlatArms(c.arms)) && p.ts[e] == TEndSwitch
  }

  lemma {:induction false} SelectLies(p: Stream, l: nat, c: Code)
    requires Means(p) && c.Select? && Lies(p, l, Flat(c))
    ensures SelectHere(p, l, c, l + |Flat(c)| - 1)
  {
    var ts := FlatArms(c.arms);
    LiesSpells(p, l, Flat(c));
    SelectBalanced(p.insts, l, c);
    assert Flat(c) == [TSwitch(c.key, ArmTags(c.arms))] + (ts + [TEndSwitch]);
    LiesHead(p, l, TSwitch(c.key, ArmTags(c.arms)), ts + [TEndSwitch]);
    LiesLast(p, l + 1, ts, TEndSwitch);
  }

  /** A switch takes the breaks out of its arms. */
  function Caught(r: Effect): Effect {
    match r
    case Left(s) => Went(s)
    case _ => r
  }

  lemma {:induction false} SelectDoes(p: Stream, a: Config, l: nat, c: Code, w: Place, fuel: nat)
    requires c.Select? && Stands(p, a, l, w) && Lies(p, l, Flat(c)) && w.end == l + |Flat(c)| && Nested(c, w.brk, w.cont)
    ensures Does(p, a, w, fuel, Run(fuel, c, a.st))
    decreases fuel, w.end - l, 4
  {
    var e := w.end - 1;
    SelectLies(p, l, c);
    var k := Chosen(ArmTags(c.arms), c.key(a.st.store));
    if k < |c.arms| {
      var h := FlatSections.ArmAt(l + 1, c.arms, k);
      var b := Config(Running(h + 1, Some(h)), a.st);
      ChosenArm(p, l, c, k, e);
      ArmsDo(p, b, l + 1, c.arms, k, l, e, w, fuel);
      MoveThen(p, a, b, w, fuel, fuel, Run(fuel, c, a.st));
    } else {
      NoArm(fuel, c.arms, k, a.st);
      LeavesAt(p.insts, l, e, Running(e + 1, None));
      LastMove(p, a, Config(Running(e + 1, None), a.st), w, fuel, Run(fuel, c, a.st));
    }
  }

  lemma {:induction false} ChosenArm(p: Stream, l: nat, c: Code, k: nat, e: nat)
    requires SelectHere(p, l, c, e) && k < |c.arms|
    ensures var h := FlatSections.ArmAt(l + 1, c.arms, k); EntersNth(p.insts, l, k, Running(h + 1, Some(h)))
  {
    NoneYet(p.insts, l);
    LiesSpells(p, l + 1, FlatArms(c.arms));
    ArmIsNth(p.insts, l + 1, c.arms, StackAt(p.insts, l), l, k, 0);
  }

  lemma {:induction false} NoArm(fuel: nat, arms: seq<Arm>, k: nat, st: LoweredRuns.State)
    requires k >= |arms|
    ensures RunArms(fuel, arms, k, st) == Went(st)
    decreases |arms|
  {
    if arms != [] {
      NoArm(fuel, arms[1..], k - 1, st);
    }
  }

  /** These arms of the switch at l, whose closer is at e, stand at pos. */
  ghost predicate ArmsIn(p: Stream, pos: nat, arms: seq<Arm>, l: nat, e: nat, w: Place) {
    && Means(p) && l < pos <= e < |p.ts| && p.insts[l].op.Switch? && IsEnd(p.insts, e, l) && p.ts[e] == TEndSwitch
    && Lies(p, pos, FlatArms(arms)) && e == pos + |FlatArms(arms)| && w.end == e + 1 && CanJump(p.insts, w)
    && TopIs(StackAt(p.insts, pos), w.open, l) && NestedArms(arms, w.cont)
  }

  lemma {:induction false} FirstArmIn(p: Stream, pos: nat, arms: seq<Arm>, l: nat, e: nat, w: Place, next: nat)
    requires ArmsIn(p, pos, arms, l, e, w) && arms != [] && next == pos + 1 + |FlatAll(arms[0].body)|
    ensures next <= e && p.ts[pos] == TCase(arms[0].tag) && Lies(p, pos + 1, FlatAll(arms[0].body))
    ensures StackAt(p.insts, pos + 1) == w.open + [Frame(l, pos)]
    ensures ArmsIn(p, next, arms[1..], l, e, w)
  {
    ArmsLie(p, pos, arms, next);
    CaseStacks(p, pos, arms[0], l, w.open);
  }

  lemma {:induction false} ArmsLie(p: Stream, pos: nat, arms: seq<Arm>, next: nat)
    requires Lies(p, pos, FlatArms(arms)) && arms != [] && next == pos + 1 + |FlatAll(arms[0].body)|
    ensures pos < |p.ts| && p.ts[pos] == TCase(arms[0].tag) && Lies(p, pos + 1, FlatAll(arms[0].body))
    ensures Lies(p, next, FlatArms(arms[1..])) && next + |FlatArms(arms[1..])| == pos + |FlatArms(arms)|
  {
    var body, rest := FlatAll(arms[0].body), FlatArms(arms[1..]);
    FlatArmsParts(arms);
    LiesHead(p, pos, TCase(arms[0].tag), body + rest);
    LiesParts(p, pos + 1, body, rest);
  }

  /** The stack in an arm and behind it. */
  lemma {:induction false} CaseStacks(p: Stream, pos: nat, arm: Arm, l: nat, below: seq<Frame>)
    requires Means(p) && pos < |p.ts| && p.ts[pos] == TCase(arm.tag) && Lies(p, pos + 1, FlatAll(arm.body))
    requires TopIs(StackAt(p.insts, pos), below, l)
    ensures StackAt(p.insts, pos + 1) == below + [Frame(l, pos)]
    ensures TopIs(StackAt(p.insts, pos + 1 + |FlatAll(arm.body)|), below, l)
  {
    assert MeansAt(p, pos);
    AfterCase(p.insts, pos, below, l);
    LiesSpells(p, pos + 1, FlatAll(arm.body));
    AllBalanced(p.insts, pos + 1, arm.body, pos + 1 + |FlatAll(arm.body)|);
  }

  /** From the start of the k-th of these arms. */
  lemma {:induction false} ArmsDo(p: Stream, b: Config, pos: nat, arms: seq<Arm>, k: nat, l: nat, e: nat, w: Place, fuel: nat)
    requires ArmsIn(p, pos, arms, l, e, w) && k < |arms|
    requires b.at.Running? && b.at.pc == FlatSections.ArmAt(pos, arms, k) + 1
    ensures Does(p, b, w, fuel, Caught(RunArms(fuel, arms, k, b.st)))
    decreases fuel, w.end - pos, 3
  {
    var next := pos + 1 + |FlatAll(arms[0].body)|;
    FirstArmIn(p, pos, arms, l, e, w, next);
    if k > 0 {
      ArmsDo(p, b, next, arms[1..], k - 1, l, e, w, fuel);
    } else {
      ArmDoes(p, b, pos, arms, l, e, w, fuel);
    }
  }

  lemma {:induction false} ArmStands(p: Stream, b: Config, pos: nat, arms: seq<Arm>, l: nat, e: nat, w: Place, end: nat)
    requires ArmsIn(p, pos, arms, l, e, w) && pos < |p.insts| && StackAt(p.insts, pos + 1) == w.open + [Frame(l, pos)]
    requires b.at.Running? && b.at.pc == pos + 1
    ensures Stands(p, b, pos + 1, Place(w.open + [Frame(l, pos)], end, true, w.cont))
  {
    ArmJumps(p, pos, arms, l, e, w, pos, Running(e + 1, None));
    if w.cont {
      var t :| JumpsTo(p.insts, w.open, true, t);
      UnderJumps(p.insts, w.open, Frame(l, pos), true, t);
    }
  }

  lemma {:induction false} ArmJumps(p: Stream, pos: nat, arms: seq<Arm>, l: nat, e: nat, w: Place, x: nat, t: Machine.State)
    requires ArmsIn(p, pos, arms, l, e, w)
    ensures JumpsTo(p.insts, w.open + [Frame(l, x)], false, t) <==> t == Running(e + 1, None)
  {
    TopJumps(p.insts, w.open, Frame(l, x), false, t);
    LeavesAt(p.insts, l, e, t);
  }

  /** From the start of the first of these arms, through those it falls into. */
  lemma {:induction false} ArmDoes(p: Stream, b: Config, pos: nat, arms: seq<Arm>, l: nat, e: nat, w: Place, fuel: nat)
    requires ArmsIn(p, pos, arms, l, e, w) && arms != [] && b.at.Running? && b.at.pc == pos + 1
    ensures Does(p, b, w, fuel, Caught(RunArms(fuel, arms, 0, b.st)))
    decreases fuel, w.end - pos, 2
  {
    var next := pos + 1 + |FlatAll(arms[0].body)|;
    var inside := Place(w.open + [Frame(l, pos)], next, true, w.cont);
    FirstArmIn(p, pos, arms, l, e, w, next);
    ArmStands(p, b, pos, arms, l, e, w, next);
    RowDoes(p, b, pos + 1, arms[0].body, inside, fuel);
    var r := RunAll(fuel, arms[0].body, b.st);
    var x: Config, n: nat :| Goes(p, b, x, n) && Arrives(p, inside, r, x) && (r.Spent? ==> fuel <= n);
    if r.Went? {
      FallsInto(p, x, next, arms[1..], l, e, w, fuel);
      Follows(p, b, x, n, w, fuel, fuel, Caught(RunArms(fuel, arms, 0, b.st)));
    } else {
      OutOfArm(p, pos, arms, l, e, w, next, r, x);
    }
  }

  /** What an arm that does not fall off its end does to the switch's surroundings. */
  lemma {:induction false} OutOfArm(p: Stream, pos: nat, arms: seq<Arm>, l: nat, e: nat, w: Place, next: nat, r: Effect, x: Config)
    requires ArmsIn(p, pos, arms, l, e, w) && !r.Went?
    requires Arrives(p, Place(w.open + [Frame(l, pos)], next, true, w.cont), r, x)
    ensures Arrives(p, w, Caught(r), x)
  {
    match r
    case Left(_) => ArmJumps(p, pos, arms, l, e, w, pos, x.at);
    case Nexted(_) => UnderJumps(p.insts, w.open, Frame(l, pos), true, x.at);
    case _ =>
  }

  /** From the marker behind an arm: the next case, or the end of the switch. */
  lemma {:induction false} FallsInto(p: Stream, x: Config, pos: nat, arms: seq<Arm>, l: nat, e: nat, w: Place, fuel: nat)
    requires ArmsIn(p, pos, arms, l, e, w) && x.at.Running? && x.at.pc == pos
    ensures Does(p, x, w, fuel, Caught(RunArms(fuel, arms, 0, x.st)))
    decreases fuel, w.end - pos, 3
  {
    if arms == [] {
      LastMove(p, x, Config(Running(e + 1, None), x.st), w, fuel, Went(x.st));
    } else {
      FirstArmIn(p, pos, arms, l, e, w, pos + 1 + |FlatAll(arms[0].body)|);
      var y := Config(Running(pos + 1, Some(pos)), x.st);
      ArmDoes(p, y, pos, arms, l, e, w, fuel);
      MoveThen(p, x, y, w, fuel, fuel, Caught(RunArms(fuel, arms, 0, x.st)));
    }
  }
}
