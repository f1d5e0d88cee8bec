/** Where the arms of emitted constructs stand, counted: nothing inside a piece of emitted code belongs
    to a construct around it. */
module FlatSections {
  import opened Ir
  import opened ControlFlow
  import opened Verifier
  import opened Machine
  import opened SourceRuns
  import opened LoweredRuns
  import opened LoweredMarkers
  import opened FlatRuns

  /** At x the stack is at least h high, and higher at a marker that splits or closes. */
  predicate HighAt(insts: seq<Inst>, x: nat, h: nat)
    requires x < |insts|
  {
    h <= |StackAt(insts, x)| && (Splits(insts[x].op) || Closes(insts[x].op) ==> h < |StackAt(insts, x)|)
  }

  lemma {:induction false} CodeIsHigh(insts: seq<Inst>, p: nat, c: Code, x: nat)
    requires Spells(insts, p, Flat(c)) && p <= x < p + |Flat(c)|
    ensures HighAt(insts, x, |StackAt(insts, p)|)
    decreases |Flat(c)|, 2
  {
    match c
    case Branch(_, _, _, _) =>
      BranchParts(insts, p, c);
      BranchIsHigh(insts, p, c, MidOf(p, c), p + |Flat(c)| - 1, x);
    case Loop(_, _, _, _) =>
      LoopParts(insts, p, c);
      LoopIsHigh(insts, p, c, MidOf(p, c), p + |Flat(c)| - 1, x);
    case Select(_, _) => SelectIsHigh(insts, p, c, x);
    case _ =>
      assert Flat(c) == [Plain(c)] + [];
      SpellsHead(insts, p, Plain(c), []);
  }

  /** The markers of a construct, and the stack in its arms. */
  lemma {:induction false} MarkersAreHigh(insts: seq<Inst>, p: nat, q: nat, has: bool, e: nat)
    requires LoweredMarkers.Construct(insts, p, q, has, e)
    ensures HighAt(insts, p, |StackAt(insts, p)|) && HighAt(insts, q, |StackAt(insts, p)|) && HighAt(insts, e, |StackAt(insts, p)|)
    ensures |StackAt(insts, p + 1)| == |StackAt(insts, p)| + 1
    ensures has ==> |StackAt(insts, q + 1)| == |StackAt(insts, p)| + 1
  {
    ConstructStacks(insts, p, q, has, e);
  }

  lemma {:induction false} BranchIsHigh(insts: seq<Inst>, p: nat, c: Code, q: nat, e: nat, x: nat)
    requires BranchAt(insts, p, c, q, e) && p <= x <= e
    ensures HighAt(insts, x, |StackAt(insts, p)|)
    decreases e + 1 - p, 1
  {
    BranchBalanced(insts, p, c, q, e);
    MarkersAreHigh(insts, p, q, c.hasElse, e);
    if p < x < q {
      RowIsHigh(insts, p + 1, c.yes, x);
    } else if q < x < e {
      RowIsHigh(insts, q + 1, c.no, x);
    }
  }

  lemma {:induction false} LoopIsHigh(insts: seq<Inst>, p: nat, c: Code, q: nat, e: nat, x: nat)
    requires LoopAt(insts, p, c, q, e) && p <= x <= e
    ensures HighAt(insts, x, |StackAt(insts, p)|)
    decreases e + 1 - p, 1
  {
    LoopBalanced(insts, p, c, q, e);
    MarkersAreHigh(insts, p, q, c.hasCont, e);
    if p < x < q {
      RowIsHigh(insts, p + 1, c.body, x);
    } else if q < x < e {
      RowIsHigh(insts, q + 1, c.cont, x);
    }
  }

  lemma {:induction false} SelectIsHigh(insts: seq<Inst>, p: nat, c: Code, x: nat)
    requires c.Select? && Spells(insts, p, Flat(c)) && p <= x < p + |Flat(c)|
    ensures HighAt(insts, x, |StackAt(insts, p)|)
    decreases |Flat(c)|, 1
  {
    SelectBalanced(insts, p, c);
    if p < x < p + |Flat(c)| - 1 {
      assert StackAt(insts, p + 1) == StackAt(insts, p) + [Frame(p, p)];
      ArmsAreHigh(insts, p + 1, c.arms, StackAt(insts, p), p, x);
    }
  }

  lemma {:induction false} RowIsHigh(insts: seq<Inst>, p: nat, cs: seq<Code>, x: nat)
    requires Spells(insts, p, FlatAll(cs)) && p <= x < p + |FlatAll(cs)|
    ensures HighAt(insts, x, |StackAt(insts, p)|)
    decreases |FlatAll(cs)|, 3
  {
    var next := p + |Flat(cs[0])|;
    SpellsParts(insts, p, Flat(cs[0]), FlatAll(cs[1..]));
    if x < next {
      CodeIsHigh(insts, p, cs[0], x);
    } else {
      Balanced(insts, p, cs[0]);
      RowIsHigh(insts, next, cs[1..], x);
    }
  }

  lemma {:induction false} ArmsAreHigh(insts: seq<Inst>, p: nat, arms: seq<Arm>, below: seq<Frame>, construct: nat, x: nat)
    requires Spells(insts, p, FlatArms(arms)) && TopIs(StackAt(insts, p), below, construct)
    requires p <= x < p + |FlatArms(arms)|
    ensures HighAt(insts, x, |below|)
    decreases |FlatArms(arms)|, 3
  {
    var next := p + 1 + |FlatAll(arms[0].body)|;
    ArmParts(insts, p, arms);
    AfterCase(insts, p, below, construct);
    if p < x < next {
      RowIsHigh(insts, p + 1, arms[0].body, x);
    } else if next <= x {
      AllBalanced(insts, p + 1, arms[0].body, next);
      ArmsAreHigh(insts, next, arms[1..], below, construct, x);
    }
  }

  // ----- counting arms -----

  /** A marker in code that starts at p belongs to no construct opened before p. */
  lemma {:induction false} NotOutside(insts: seq<Inst>, g: nat, p: nat, x: nat)
    requires g < p <= x < |insts| && HighAt(insts, x, |StackAt(insts, p)|)
    ensures !Belongs(insts, x, g)
  {
    if Belongs(insts, x, g) {
      MarkerWindow(insts, x, g);
    }
  }

  lemma {:induction false} SectionsSame(insts: seq<Inst>, g: nat, m: nat, n: nat)
    requires m <= n <= |insts| && forall x :: m <= x < n ==> !Belongs(insts, x, g)
    ensures Sections(insts, g, n) == Sections(insts, g, m)
    decreases n
  {
    if m < n {
      SectionsSame(insts, g, m, n - 1);
    }
  }

  lemma {:induction false} SectionsSkip(insts: seq<Inst>, g: nat, p: nat, cs: seq<Code>, end: nat)
    requires Spells(insts, p, FlatAll(cs)) && end == p + |FlatAll(cs)| && g < p
    ensures Sections(insts, g, end) == Sections(insts, g, p)
  {
    forall x | p <= x < end
      ensures !Belongs(insts, x, g)
    {
      RowIsHigh(insts, p, cs, x);
      NotOutside(insts, g, p, x);
    }
    SectionsSame(insts, g, p, end);
  }

  lemma {:induction false} NoneYet(insts: seq<Inst>, g: nat)
    requires g < |insts|
    ensures Sections(insts, g, g + 1) == 0
  {
    forall x | 0 <= x < g + 1
      ensures !Belongs(insts, x, g)
    {
      if Belongs(insts, x, g) {
        MarkerWindow(insts, x, g);
      }
    }
    SectionsSame(insts, g, 0, g + 1);
  }

  /** The marker behind the first arm starts the construct's first later arm. */
  lemma {:induction false} SecondArm(insts: seq<Inst>, p: nat, cs: seq<Code>, q: nat)
    requires Spells(insts, p + 1, FlatAll(cs)) && q == p + 1 + |FlatAll(cs)| && q < |insts|
    requires Belongs(insts, q, p) && Splits(insts[q].op)
    ensures IsNth(insts, p, 0, q)
  {
    NoneYet(insts, p);
    SectionsSkip(insts, p, p + 1, cs, q);
  }

  /** Where the k-th of these arms starts. */
  function ArmAt(p: nat, arms: seq<Arm>, k: nat): nat
    requires k <= |arms|
    decreases k
  {
    if k == 0 then p else ArmAt(p + 1 + |FlatAll(arms[0].body)|, arms[1..], k - 1)
  }

  lemma {:induction false} ArmIsNth(insts: seq<Inst>, p: nat, arms: seq<Arm>, below: seq<Frame>, construct: nat, k: nat, before: nat)
    requires Spells(insts, p, FlatArms(arms)) && TopIs(StackAt(insts, p), below, construct) && construct < p
    requires k < |arms| && Sections(insts, construct, p) == before
    ensures IsNth(insts, construct, before + k, ArmAt(p, arms, k))
    decreases k
  {
    ArmParts(insts, p, arms);
    AfterCase(insts, p, below, construct);
    if k > 0 {
      var next := p + 1 + |FlatAll(arms[0].body)|;
      AllBalanced(insts, p + 1, arms[0].body, next);
      SectionsSkip(insts, construct, p + 1, arms[0].body, next);
      ArmIsNth(insts, next, arms[1..], below, construct, k - 1, before + 1);
    }
  }
}
