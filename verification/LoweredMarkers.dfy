/** Lowered code, written out, is what the verifier's marker rules ask for; and each of its
    continues goes to a loop that has a continue section. */
module LoweredMarkers {
  import opened Ir
  import opened ControlFlow
  import opened Verifier
  import opened Machine
  import opened SourceRuns
  import opened SourceOutcomes
  import opened LoweredRuns
  import opened Lowering

  /** Instructions that spell a token: the marker itself, or any straight-line instruction. */
  predicate Writes(t: Token, op: Op) {
    match t
    case Plain(Leave) => op.Break?
    case Plain(Next) => op.Continue?
    case Plain(Exit) => op.Return?
    case Plain(Kill) => op.Discard?
    case Plain(_) => !IsMarker(op) || op.Demote?
    case TIf(_) => op.If?
    case TElse => op.Else?
    case TEndIf => op.EndIf?
    case TLoop => op.Loop?
    case TLoopContinue => op.LoopContinue?
    case TEndLoop(_) => op.EndLoop?
    case TSwitch(_, _) => op.Switch?
    case TCase(_) => op.Case?
    case TEndSwitch => op.EndSwitch?
  }

  predicate SpelledAt(insts: seq<Inst>, p: nat, ts: seq<Token>, k: nat)
    requires k < |ts| && p + |ts| <= |insts|
  {
    Writes(ts[k], insts[p + k].op)
  }

  /** The tokens ts stand at position p. */
  ghost predicate Spells(insts: seq<Inst>, p: nat, ts: seq<Token>) {
    p + |ts| <= |insts| && forall k: nat {:trigger SpelledAt(insts, p, ts, k)} :: k < |ts| ==> SpelledAt(insts, p, ts, k)
  }

  lemma {:induction false} SpellsParts(insts: seq<Inst>, p: nat, a: seq<Token>, b: seq<Token>)
    requires Spells(insts, p, a + b)
    ensures Spells(insts, p, a) && Spells(insts, p + |a|, b)
  {
    forall k: nat | k < |a|
      ensures SpelledAt(insts, p, a, k)
    {
      assert SpelledAt(insts, p, a + b, k);
    }
    forall k: nat {:trigger SpelledAt(insts, p + |a|, b, k)} | k < |b|
      ensures SpelledAt(insts, p + |a|, b, k)
    {
      assert SpelledAt(insts, p, a + b, |a| + k);
    }
  }

  lemma {:induction false} SpellsHead(insts: seq<Inst>, p: nat, t: Token, rest: seq<Token>)
    requires Spells(insts, p, [t] + rest)
    ensures p < |insts| && Writes(t, insts[p].op) && Spells(insts, p + 1, rest)
  {
    SpellsParts(insts, p, [t], rest);
    assert SpelledAt(insts, p, [t], 0);
  }

  lemma {:induction false} SpellsLast(insts: seq<Inst>, p: nat, a: seq<Token>, t: Token)
    requires Spells(insts, p, a + [t])
    ensures Spells(insts, p, a) && p + |a| < |insts| && Writes(t, insts[p + |a|].op)
  {
    SpellsParts(insts, p, a, [t]);
    assert SpelledAt(insts, p + |a|, [t], 0);
  }

  // ----- nested code is balanced -----

  /** Bracketed code leaves the stack as it found it. */
  lemma {:induction false} Balanced(insts: seq<Inst>, p: nat, c: Code)
    requires Spells(insts, p, Flat(c))
    ensures StackAt(insts, p + |Flat(c)|) == StackAt(insts, p)
    decreases |Flat(c)|, 2
  {
    match c
    case Branch(_, _, _, _) =>
      BranchParts(insts, p, c);
      BranchBalanced(insts, p, c, MidOf(p, c), p + |Flat(c)| - 1);
    case Loop(_, _, _, _) =>
      LoopParts(insts, p, c);
      LoopBalanced(insts, p, c, MidOf(p, c), p + |Flat(c)| - 1);
    case Select(_, _) => SelectBalanced(insts, p, c);
    case _ =>
      assert Flat(c) == [Plain(c)] + [];
      SpellsHead(insts, p, Plain(c), []);
  }

  lemma {:induction false} AllBalanced(insts: seq<Inst>, p: nat, cs: seq<Code>, end: nat)
    requires Spells(insts, p, FlatAll(cs)) && end == p + |FlatAll(cs)|
    ensures StackAt(insts, end) == StackAt(insts, p)
    decreases |FlatAll(cs)|, 3
  {
    if cs != [] {
      SpellsParts(insts, p, Flat(cs[0]), FlatAll(cs[1..]));
      Balanced(insts, p, cs[0]);
      AllBalanced(insts, p + |Flat(cs[0])|, cs[1..], end);
    }
  }

  /** The cases of the switch at `construct`: each starts an arm of it. */
  lemma {:induction false} ArmsBalanced(insts: seq<Inst>, p: nat, arms: seq<Arm>, below: seq<Frame>, construct: nat, end: nat)
    requires Spells(insts, p, FlatArms(arms)) && TopIs(StackAt(insts, p), below, construct)
    requires end == p + |FlatArms(arms)|
    ensures TopIs(StackAt(insts, end), below, construct)
    decreases |FlatArms(arms)|, 3
  {
    if arms != [] {
      ArmParts(insts, p, arms);
      AfterCase(insts, p, below, construct);
      var next := p + 1 + |FlatAll(arms[0].body)|;
      AllBalanced(insts, p + 1, arms[0].body, next);
      ArmsBalanced(insts, next, arms[1..], below, construct, end);
    }
  }

  /** The innermost construct, and the stack around it. */
  ghost predicate TopIs(st: seq<Frame>, below: seq<Frame>, construct: nat) {
    exists arm: nat :: st == below + [Frame(construct, arm)]
  }

  lemma {:induction false} AfterCase(insts: seq<Inst>, p: nat, below: seq<Frame>, construct: nat)
    requires p < |insts| && insts[p].op.Case? && TopIs(StackAt(insts, p), below, construct)
    ensures StackAt(insts, p + 1) == below + [Frame(construct, p)] && TopIs(StackAt(insts, p + 1), below, construct)
    ensures StackAt(insts, p) != [] && Last(StackAt(insts, p)).construct == construct
  {
  }

  lemma {:induction false} ArmParts(insts: seq<Inst>, p: nat, arms: seq<Arm>)
    requires arms != [] && Spells(insts, p, FlatArms(arms))
    ensures var body, rest := FlatAll(arms[0].body), FlatArms(arms[1..]);
            && |FlatArms(arms)| == 1 + |body| + |rest|
            && p < |insts| && insts[p].op.Case? && Spells(insts, p + 1, body) && Spells(insts, p + 1 + |body|, rest)
  {
    var head, body, rest := TCase(arms[0].tag), FlatAll(arms[0].body), FlatArms(arms[1..]);
    FlatArmsParts(arms);
    ThreeParts(insts, p, head, body, rest);
  }

  lemma {:induction false} FlatArmsParts(arms: seq<Arm>)
    requires arms != []
    ensures FlatArms(arms) == [TCase(arms[0].tag)] + (FlatAll(arms[0].body) + FlatArms(arms[1..]))
  {
  }

  lemma {:induction false} ThreeParts(insts: seq<Inst>, p: nat, head: Token, body: seq<Token>, rest: seq<Token>)
    requires Spells(insts, p, [head] + (body + rest))
    ensures p < |insts| && Writes(head, insts[p].op) && Spells(insts, p + 1, body) && Spells(insts, p + 1 + |body|, rest)
  {
    SpellsHead(insts, p, head, body + rest);
    SpellsParts(insts, p + 1, body, rest);
  }

  lemma {:induction false} SelectBalanced(insts: seq<Inst>, p: nat, c: Code)
    requires c.Select? && Spells(insts, p, Flat(c))
    ensures SelectLaidOut(insts, p, c)
    ensures StackAt(insts, p + |Flat(c)|) == StackAt(insts, p)
    decreases |Flat(c)|, 1
  {
    var ts := FlatArms(c.arms);
    assert Flat(c) == [TSwitch(c.key, ArmTags(c.arms))] + (ts + [TEndSwitch]);
    SpellsHead(insts, p, TSwitch(c.key, ArmTags(c.arms)), ts + [TEndSwitch]);
    SpellsLast(insts, p + 1, ts, TEndSwitch);
    assert StackAt(insts, p + 1) == StackAt(insts, p) + [Frame(p, p)];
    ArmsBalanced(insts, p + 1, c.arms, StackAt(insts, p), p, p + 1 + |ts|);
    SwitchCloses(insts, p, p + 1 + |ts|);
  }

  lemma {:induction false} SwitchCloses(insts: seq<Inst>, p: nat, e: nat)
    requires p < |insts| && e < |insts| && Closes(insts[e].op) && TopIs(StackAt(insts, e), StackAt(insts, p), p)
    ensures StackAt(insts, e) != [] && Last(StackAt(insts, e)).construct == p && StackAt(insts, e + 1) == StackAt(insts, p)
  {
  }

  ghost predicate SelectLaidOut(insts: seq<Inst>, p: nat, c: Code)
    requires c.Select?
  {
    var e := p + 1 + |FlatArms(c.arms)|;
    && e < |insts| && insts[p].op.Switch? && insts[e].op.EndSwitch?
    && StackAt(insts, p + 1) == StackAt(insts, p) + [Frame(p, p)]
    && StackAt(insts, e) != [] && Last(StackAt(insts, e)).construct == p
    && Spells(insts, p + 1, FlatArms(c.arms))
  }

  // ----- ifs and loops: opener, first arm, perhaps a second one, closer -----

  function Bracket(open: Token, a: seq<Token>, has: bool, mid: Token, b: seq<Token>, close: Token): seq<Token> {
    [open] + (a + (if has then [mid] + (b + [close]) else [close]))
  }

  lemma {:induction false} BracketParts(insts: seq<Inst>, p: nat, open: Token, a: seq<Token>, has: bool, mid: Token, b: seq<Token>, close: Token)
    requires Spells(insts, p, Bracket(open, a, has, mid, b, close))
    ensures p < |insts| && Writes(open, insts[p].op) && Spells(insts, p + 1, a)
    ensures var q := p + 1 + |a|;
            if has then
              var e := q + 1 + |b|;
              e < |insts| && Writes(mid, insts[q].op) && Spells(insts, q + 1, b) && Writes(close, insts[e].op)
            else q < |insts| && Writes(close, insts[q].op)
  {
    var rest := if has then [mid] + (b + [close]) else [close];
    SpellsHead(insts, p, open, a + rest);
    if has {
      SpellsParts(insts, p + 1, a, rest);
      SpellsHead(insts, p + 1 + |a|, mid, b + [close]);
      SpellsLast(insts, p + 1 + |a| + 1, b, close);
    } else {
      SpellsLast(insts, p + 1, a, close);
    }
  }

  /** The markers at p, q and e open, split (when `has`) and close one construct. */
  ghost predicate Construct(insts: seq<Inst>, p: nat, q: nat, has: bool, e: nat) {
    && p < q <= e < |insts| && Opens(insts[p].op) && Closes(insts[e].op)
    && StackAt(insts, q) == StackAt(insts, p) + [Frame(p, p)]
    && if has then
         q < e && Splits(insts[q].op) && StackAt(insts, e) == StackAt(insts, p) + [Frame(p, q)]
       else q == e
  }

  // What a marker does to the stack.
  lemma {:induction false} AfterOpener(insts: seq<Inst>, p: nat)
    requires p < |insts| && Opens(insts[p].op)
    ensures StackAt(insts, p + 1) == StackAt(insts, p) + [Frame(p, p)]
  {
  }

  lemma {:induction false} AfterMid(insts: seq<Inst>, q: nat, below: seq<Frame>, f: Frame)
    requires q < |insts| && Splits(insts[q].op) && StackAt(insts, q) == below + [f]
    ensures StackAt(insts, q + 1) == below + [Frame(f.construct, q)]
  {
    assert (below + [f])[..|below|] == below;
  }

  lemma {:induction false} AfterCloser(insts: seq<Inst>, e: nat, below: seq<Frame>, f: Frame)
    requires e < |insts| && Closes(insts[e].op) && StackAt(insts, e) == below + [f]
    ensures StackAt(insts, e + 1) == below
  {
    assert (below + [f])[..|below|] == below;
  }

  /** When the arms are balanced, so is the construct. */
  lemma {:induction false} ConstructBalanced(insts: seq<Inst>, p: nat, q: nat, has: bool, e: nat)
    requires p < q <= e < |insts| && Opens(insts[p].op) && Closes(insts[e].op)
    requires StackAt(insts, q) == StackAt(insts, p + 1)
    requires if has then q < e && Splits(insts[q].op) && StackAt(insts, e) == StackAt(insts, q + 1) else q == e
    ensures Construct(insts, p, q, has, e) && StackAt(insts, e + 1) == StackAt(insts, p)
  {
    AfterOpener(insts, p);
    if has {
      AfterMid(insts, q, StackAt(insts, p), Frame(p, p));
    }
    AfterCloser(insts, e, StackAt(insts, p), Frame(p, if has then q else p));
  }

  lemma {:induction false} BranchTokens(c: Code)
    requires c.Branch?
    ensures Flat(c) == Bracket(TIf(c.cond), FlatAll(c.yes), c.hasElse, TElse, FlatAll(c.no), TEndIf)
  {
  }

  lemma {:induction false} LoopTokens(c: Code)
    requires c.Loop?
    ensures Flat(c) == Bracket(TLoop, FlatAll(c.body), c.hasCont, TLoopContinue, FlatAll(c.cont), TEndLoop(c.again))
  {
  }

  /** Where the markers of an if or loop at p stand. */
  function MidOf(p: nat, c: Code): nat {
    match c
    case Branch(_, yes, _, _) => p + 1 + |FlatAll(yes)|
    case Loop(body, _, _, _) => p + 1 + |FlatAll(body)|
    case _ => p
  }

  lemma {:induction false} BranchBalanced(insts: seq<Inst>, p: nat, c: Code, q: nat, e: nat)
    requires BranchAt(insts, p, c, q, e)
    ensures Construct(insts, p, q, c.hasElse, e) && StackAt(insts, e + 1) == StackAt(insts, p)
    decreases e - p, 1
  {
    BranchArmsBalanced(insts, p, c, q, e);
    ConstructBalanced(insts, p, q, c.hasElse, e);
  }

  lemma {:induction false} BranchArmsBalanced(insts: seq<Inst>, p: nat, c: Code, q: nat, e: nat)
    requires BranchAt(insts, p, c, q, e)
    ensures StackAt(insts, q) == StackAt(insts, p + 1)
    ensures c.hasElse ==> StackAt(insts, e) == StackAt(insts, q + 1)
    decreases e - p, 0
  {
    AllBalanced(insts, p + 1, c.yes, q);
    if c.hasElse {
      AllBalanced(insts, q + 1, c.no, e);
    }
  }

  lemma {:induction false} LoopBalanced(insts: seq<Inst>, p: nat, c: Code, q: nat, e: nat)
    requires LoopAt(insts, p, c, q, e)
    ensures Construct(insts, p, q, c.hasCont, e) && StackAt(insts, e + 1) == StackAt(insts, p)
    decreases e - p, 1
  {
    LoopArmsBalanced(insts, p, c, q, e);
    ConstructBalanced(insts, p, q, c.hasCont, e);
  }

  lemma {:induction false} LoopArmsBalanced(insts: seq<Inst>, p: nat, c: Code, q: nat, e: nat)
    requires LoopAt(insts, p, c, q, e)
    ensures StackAt(insts, q) == StackAt(insts, p + 1)
    ensures c.hasCont ==> StackAt(insts, e) == StackAt(insts, q + 1)
    decreases e - p, 0
  {
    AllBalanced(insts, p + 1, c.body, q);
    if c.hasCont {
      AllBalanced(insts, q + 1, c.cont, e);
    }
  }

  // ----- every marker is one the verifier takes -----

  /** What MarkerOk asks, and that a continue's loop has a continue section. */
  ghost predicate Good(insts: seq<Inst>, i: nat)
    requires i < |insts|
  {
    MarkerOk(insts, i) &&
    (insts[i].op.Continue? ==> forall c :: IsTarget(insts, i, c, true) ==> HasLaterArm(insts, c))
  }

  ghost predicate AllGood(insts: seq<Inst>, p: nat, e: nat) {
    p <= e <= |insts| && forall i :: p <= i < e ==> Good(insts, i)
  }

  /** Every break and continue in the code has something to leave; no jump leaves a continue
      section. */
  predicate Nested(c: Code, brk: bool, cont: bool)
    decreases c, 1
  {
    match c
    case Leave => brk
    case Next => cont
    case Branch(_, yes, _, no) => NestedAll(yes, brk, cont) && NestedAll(no, brk, cont)
    case Loop(body, hasCont, section, _) => NestedAll(body, true, hasCont) && NestedAll(section, false, false)
    case Select(_, arms) => NestedArms(arms, cont)
    case _ => true
  }

  predicate NestedAll(cs: seq<Code>, brk: bool, cont: bool)
    decreases cs, 1
  {
    cs == [] || (Nested(cs[0], brk, cont) && NestedAll(cs[1..], brk, cont))
  }

  predicate NestedArms(arms: seq<Arm>, cont: bool)
    decreases arms, 1
  {
    arms == [] || (NestedAll(arms[0].body, true, cont) && NestedArms(arms[1..], cont))
  }

  ghost predicate CanBreak(insts: seq<Inst>, st: seq<Frame>) {
    exists d :: 0 <= d < |st| && st[d].construct < |insts| && Target(insts[st[d].construct].op, false)
  }

  predicate IsLoopFrame(insts: seq<Inst>, f: Frame) {
    f.construct < |insts| && insts[f.construct].op.Loop?
  }

  /** The innermost open loop has a continue section. */
  ghost predicate CanContinue(insts: seq<Inst>, st: seq<Frame>) {
    exists d :: 0 <= d < |st| && IsLoopFrame(insts, st[d]) && HasLaterArm(insts, st[d].construct) &&
      forall e :: d < e < |st| ==> !IsLoopFrame(insts, st[e])
  }

  ghost predicate Offers(insts: seq<Inst>, st: seq<Frame>, brk: bool, cont: bool) {
    (brk ==> CanBreak(insts, st)) && (cont ==> CanContinue(insts, st))
  }

  lemma {:induction false} PushKeepsOffers(insts: seq<Inst>, st: seq<Frame>, f: Frame, brk: bool, cont: bool)
    requires Offers(insts, st, brk, cont) && !IsLoopFrame(insts, f)
    ensures Offers(insts, st + [f], brk, cont)
  {
    var t := st + [f];
    if brk {
      var d :| 0 <= d < |st| && st[d].construct < |insts| && Target(insts[st[d].construct].op, false);
      assert t[d] == st[d];
    }
    if cont {
      var d :| 0 <= d < |st| && IsLoopFrame(insts, st[d]) && HasLaterArm(insts, st[d].construct) &&
        forall e :: d < e < |st| ==> !IsLoopFrame(insts, st[e]);
      assert t[d] == st[d];
      forall e | d < e < |t|
        ensures !IsLoopFrame(insts, t[e])
      {
        assert e < |st| ==> t[e] == st[e];
      }
    }
  }

  lemma {:induction false} TopOffersBreak(insts: seq<Inst>, st: seq<Frame>, f: Frame)
    requires f.construct < |insts| && Target(insts[f.construct].op, false)
    ensures CanBreak(insts, st + [f])
  {
    assert (st + [f])[|st|] == f;
  }

  lemma {:induction false} TopOffersContinue(insts: seq<Inst>, st: seq<Frame>, f: Frame)
    requires IsLoopFrame(insts, f) && HasLaterArm(insts, f.construct)
    ensures CanContinue(insts, st + [f])
  {
    assert (st + [f])[|st|] == f;
  }

  lemma {:induction false} ContinueIsGood(insts: seq<Inst>, i: nat)
    requires i < |insts| && insts[i].op.Continue? && CanContinue(insts, StackAt(insts, i))
    ensures Good(insts, i)
  {
    var st := StackAt(insts, i);
    var d :| 0 <= d < |st| && IsLoopFrame(insts, st[d]) && HasLaterArm(insts, st[d].construct) &&
      forall e :: d < e < |st| ==> !IsLoopFrame(insts, st[e]);
    forall c | IsTarget(insts, i, c, true)
      ensures HasLaterArm(insts, c)
    {
      var k: nat :| TargetDepth(insts, i, k, true) && StackAt(insts, i)[k].construct == c;
      assert IsLoopFrame(insts, st[k]);
      assert k == d;
    }
  }

  lemma {:induction false} LeafIsGood(insts: seq<Inst>, p: nat, c: Code, brk: bool, cont: bool)
    requires !c.Branch? && !c.Loop? && !c.Select? && Spells(insts, p, [Plain(c)])
    requires Nested(c, brk, cont) && Offers(insts, StackAt(insts, p), brk, cont)
    ensures AllGood(insts, p, p + 1)
  {
    assert Flat(c) == [Plain(c)] + [];
    SpellsHead(insts, p, Plain(c), []);
    if c.Next? {
      ContinueIsGood(insts, p);
    }
  }

  lemma {:induction false} CodeIsGood(insts: seq<Inst>, p: nat, c: Code, brk: bool, cont: bool)
    requires Spells(insts, p, Flat(c)) && Nested(c, brk, cont) && Offers(insts, StackAt(insts, p), brk, cont)
    ensures AllGood(insts, p, p + |Flat(c)|)
    decreases c, 2
  {
    match c
    case Branch(_, _, _, _) => BranchIsGood(insts, p, c, brk, cont);
    case Loop(_, _, _, _) => LoopIsGood(insts, p, c, brk, cont);
    case Select(_, _) => SelectIsGood(insts, p, c, brk, cont);
    case _ => LeafIsGood(insts, p, c, brk, cont);
  }

  lemma {:induction false} RowIsGood(insts: seq<Inst>, p: nat, cs: seq<Code>, brk: bool, cont: bool)
    requires Spells(insts, p, FlatAll(cs)) && NestedAll(cs, brk, cont) && Offers(insts, StackAt(insts, p), brk, cont)
    ensures AllGood(insts, p, p + |FlatAll(cs)|)
    decreases cs, 1
  {
    if cs != [] {
      SpellsParts(insts, p, Flat(cs[0]), FlatAll(cs[1..]));
      CodeIsGood(insts, p, cs[0], brk, cont);
      Balanced(insts, p, cs[0]);
      RowIsGood(insts, p + |Flat(cs[0])|, cs[1..], brk, cont);
    }
  }

  /** The stack inside the arms, and at the closer. */
  lemma {:induction false} ConstructStacks(insts: seq<Inst>, p: nat, q: nat, has: bool, e: nat)
    requires Construct(insts, p, q, has, e)
    ensures StackAt(insts, p + 1) == StackAt(insts, p) + [Frame(p, p)]
    ensures has ==> StackAt(insts, q + 1) == StackAt(insts, p) + [Frame(p, q)]
    ensures Last(StackAt(insts, q)).construct == p && Last(StackAt(insts, e)).construct == p
    ensures has ==> HasLaterArm(insts, p)
  {
    AfterOpener(insts, p);
    if has {
      AfterMid(insts, q, StackAt(insts, p), Frame(p, p));
      assert Belongs(insts, q, p);
    }
  }

  /** The three markers of an if or a loop are good when they stand where they should. */
  lemma {:induction false} MarkersAreGood(insts: seq<Inst>, p: nat, q: nat, has: bool, e: nat)
    requires Construct(insts, p, q, has, e)
    requires (insts[p].op.If? && (has ==> insts[q].op.Else?) && insts[e].op.EndIf?) ||
             (insts[p].op.Loop? && (has ==> insts[q].op.LoopContinue?) && insts[e].op.EndLoop?)
    requires AllGood(insts, p + 1, q) && (has ==> AllGood(insts, q + 1, e))
    ensures AllGood(insts, p, e + 1)
  {
    ConstructStacks(insts, p, q, has, e);
    assert Good(insts, p) && Good(insts, e);
    assert has ==> Good(insts, q);
  }

  lemma {:induction false} BranchIsGood(insts: seq<Inst>, p: nat, c: Code, brk: bool, cont: bool)
    requires c.Branch? && Spells(insts, p, Flat(c))
    requires Nested(c, brk, cont) && Offers(insts, StackAt(insts, p), brk, cont)
    ensures AllGood(insts, p, p + |Flat(c)|)
    decreases c, 1
  {
    var q, e := MidOf(p, c), p + |Flat(c)| - 1;
    BranchParts(insts, p, c);
    FirstArmIsGood(insts, p, c, q, e, brk, cont);
    if c.hasElse {
      SecondArmIsGood(insts, p, c, q, e, brk, cont);
    }
    BranchBalanced(insts, p, c, q, e);
    MarkersAreGood(insts, p, q, c.hasElse, e);
  }

  lemma {:induction false} FirstArmIsGood(insts: seq<Inst>, p: nat, c: Code, q: nat, e: nat, brk: bool, cont: bool)
    requires BranchAt(insts, p, c, q, e) && Nested(c, brk, cont) && Offers(insts, StackAt(insts, p), brk, cont)
    ensures AllGood(insts, p + 1, q)
    decreases c, 0
  {
    AfterOpener(insts, p);
    IfArmIsGood(insts, p + 1, c.yes, StackAt(insts, p), Frame(p, p), brk, cont);
  }

  lemma {:induction false} SecondArmIsGood(insts: seq<Inst>, p: nat, c: Code, q: nat, e: nat, brk: bool, cont: bool)
    requires BranchAt(insts, p, c, q, e) && c.hasElse
    requires Nested(c, brk, cont) && Offers(insts, StackAt(insts, p), brk, cont)
    ensures AllGood(insts, q + 1, e)
    decreases c, 0
  {
    ElseStack(insts, p, c, q, e);
    IfArmIsGood(insts, q + 1, c.no, StackAt(insts, p), Frame(p, q), brk, cont);
  }

  lemma {:induction false} ElseStack(insts: seq<Inst>, p: nat, c: Code, q: nat, e: nat)
    requires BranchAt(insts, p, c, q, e) && c.hasElse
    ensures StackAt(insts, q + 1) == StackAt(insts, p) + [Frame(p, q)]
  {
    BranchBalanced(insts, p, c, q, e);
    ConstructStacks(insts, p, q, true, e);
  }

  lemma {:induction false} IfArmIsGood(insts: seq<Inst>, p: nat, cs: seq<Code>, around: seq<Frame>, f: Frame, brk: bool, cont: bool)
    requires Spells(insts, p, FlatAll(cs)) && NestedAll(cs, brk, cont)
    requires Offers(insts, around, brk, cont) && !IsLoopFrame(insts, f) && StackAt(insts, p) == around + [f]
    ensures AllGood(insts, p, p + |FlatAll(cs)|)
    decreases cs, 2
  {
    PushKeepsOffers(insts, around, f, brk, cont);
    RowIsGood(insts, p, cs, brk, cont);
  }

  lemma {:induction false} BranchParts(insts: seq<Inst>, p: nat, c: Code)
    requires c.Branch? && Spells(insts, p, Flat(c))
    ensures BranchAt(insts, p, c, MidOf(p, c), p + |Flat(c)| - 1)
  {
    BranchTokens(c);
    BracketParts(insts, p, TIf(c.cond), FlatAll(c.yes), c.hasElse, TElse, FlatAll(c.no), TEndIf);
  }

  /** Where the parts of the code at p stand: its mid marker, or else its closer, at q, and its
      closer at e. */
  ghost predicate BranchAt(insts: seq<Inst>, p: nat, c: Code, q: nat, e: nat) {
    && c.Branch? && p < q <= e < |insts| && insts[p].op.If? && insts[e].op.EndIf?
    && Spells(insts, p + 1, FlatAll(c.yes)) && q == p + 1 + |FlatAll(c.yes)|
    && if c.hasElse then
         insts[q].op.Else? && Spells(insts, q + 1, FlatAll(c.no)) && e == q + 1 + |FlatAll(c.no)|
       else e == q
  }

  lemma {:induction false} LoopParts(insts: seq<Inst>, p: nat, c: Code)
    requires c.Loop? && Spells(insts, p, Flat(c))
    ensures LoopAt(insts, p, c, MidOf(p, c), p + |Flat(c)| - 1)
  {
    LoopTokens(c);
    BracketParts(insts, p, TLoop, FlatAll(c.body), c.hasCont, TLoopContinue, FlatAll(c.cont), TEndLoop(c.again));
  }

  /** Where the parts of the code at p stand: its mid marker, or else its closer, at q, and its
      closer at e. */
  ghost predicate LoopAt(insts: seq<Inst>, p: nat, c: Code, q: nat, e: nat) {
    && c.Loop? && p < q <= e < |insts| && insts[p].op.Loop? && insts[e].op.EndLoop?
    && Spells(insts, p + 1, FlatAll(c.body)) && q == p + 1 + |FlatAll(c.body)|
    && if c.hasCont then
         insts[q].op.LoopContinue? && Spells(insts, q + 1, FlatAll(c.cont)) && e == q + 1 + |FlatAll(c.cont)|
       else e == q
  }

  lemma {:induction false} LoopIsGood(insts: seq<Inst>, p: nat, c: Code, brk: bool, cont: bool)
    requires c.Loop? && Spells(insts, p, Flat(c)) && Nested(c, brk, cont)
    ensures AllGood(insts, p, p + |Flat(c)|)
    decreases c, 1
  {
    var q, e := MidOf(p, c), p + |Flat(c)| - 1;
    LoopParts(insts, p, c);
    LoopBodyIsGood(insts, p, c, q, e, brk, cont);
    if c.hasCont {
      RowIsGood(insts, q + 1, c.cont, false, false);
    }
    LoopBalanced(insts, p, c, q, e);
    MarkersAreGood(insts, p, q, c.hasCont, e);
  }

  lemma {:induction false} LoopOffers(insts: seq<Inst>, p: nat, c: Code, q: nat, e: nat)
    requires LoopAt(insts, p, c, q, e)
    ensures Offers(insts, StackAt(insts, p + 1), true, c.hasCont)
  {
    LoopBalanced(insts, p, c, q, e);
    ConstructStacks(insts, p, q, c.hasCont, e);
    TopOffersBreak(insts, StackAt(insts, p), Frame(p, p));
    if c.hasCont {
      TopOffersContinue(insts, StackAt(insts, p), Frame(p, p));
    }
  }

  lemma {:induction false} LoopBodyIsGood(insts: seq<Inst>, p: nat, c: Code, q: nat, e: nat, brk: bool, cont: bool)
    requires LoopAt(insts, p, c, q, e) && Nested(c, brk, cont)
    ensures AllGood(insts, p + 1, q)
    decreases c, 0
  {
    LoopOffers(insts, p, c, q, e);
    RowIsGood(insts, p + 1, c.body, true, c.hasCont);
  }

  lemma {:induction false} SelectIsGood(insts: seq<Inst>, p: nat, c: Code, brk: bool, cont: bool)
    requires c.Select? && Spells(insts, p, Flat(c))
    requires Nested(c, brk, cont) && Offers(insts, StackAt(insts, p), brk, cont)
    ensures AllGood(insts, p, p + |Flat(c)|)
    decreases c, 1
  {
    SelectBalanced(insts, p, c);
    AfterOpener(insts, p);
    ArmsAreGood(insts, p + 1, c.arms, StackAt(insts, p), p, cont);
    assert InnermostIs(insts, p + 1 + |FlatArms(c.arms)|, Op.Switch);
  }

  lemma {:induction false} ArmsAreGood(insts: seq<Inst>, p: nat, arms: seq<Arm>, below: seq<Frame>, construct: nat, cont: bool)
    requires Spells(insts, p, FlatArms(arms)) && NestedArms(arms, cont) && Offers(insts, below, false, cont)
    requires TopIs(StackAt(insts, p), below, construct) && construct < |insts| && insts[construct].op.Switch?
    ensures AllGood(insts, p, p + |FlatArms(arms)|)
    decreases arms, 1
  {
    if arms != [] {
      var e := p + 1 + |FlatAll(arms[0].body)|;
      ArmParts(insts, p, arms);
      ArmIsGood(insts, p, arms[0], below, construct, cont);
      ArmsAreGood(insts, e, arms[1..], below, construct, cont);
    }
  }

  lemma {:induction false} ArmIsGood(insts: seq<Inst>, p: nat, arm: Arm, below: seq<Frame>, construct: nat, cont: bool)
    requires p < |insts| && insts[p].op.Case? && Spells(insts, p + 1, FlatAll(arm.body))
    requires NestedAll(arm.body, true, cont) && Offers(insts, below, false, cont)
    requires TopIs(StackAt(insts, p), below, construct) && construct < |insts| && insts[construct].op.Switch?
    ensures var e := p + 1 + |FlatAll(arm.body)|;
            AllGood(insts, p, e) && StackAt(insts, e) == below + [Frame(construct, p)]
    decreases arm, 2
  {
    AfterCase(insts, p, below, construct);
    CaseOffers(insts, p, below, construct, cont);
    CaseIsGood(insts, p, construct);
    RowIsGood(insts, p + 1, arm.body, true, cont);
    AllBalanced(insts, p + 1, arm.body, p + 1 + |FlatAll(arm.body)|);
  }

  lemma {:induction false} CaseOffers(insts: seq<Inst>, p: nat, below: seq<Frame>, construct: nat, cont: bool)
    requires Offers(insts, below, false, cont) && construct < |insts| && insts[construct].op.Switch?
    ensures Offers(insts, below + [Frame(construct, p)], true, cont)
  {
    PushKeepsOffers(insts, below, Frame(construct, p), false, cont);
    TopOffersBreak(insts, below, Frame(construct, p));
  }

  lemma {:induction false} CaseIsGood(insts: seq<Inst>, p: nat, construct: nat)
    requires p < |insts| && insts[p].op.Case? && StackAt(insts, p) != []
    requires Last(StackAt(insts, p)).construct == construct < |insts| && insts[construct].op.Switch?
    ensures Good(insts, p)
  {
  }
}
