/** Conditional directives of one file: a stack that is updated line by line, and the nested
    reading of #if, #elif, #else and #endif that it carries out. */
module Conditionals {
  type Macros(!new)   // the macro table

  /** A line, as far as conditionals care: what a live one does to the macro table, or a directive. */
  datatype Line =
    | Code(effect: Macros -> Macros)
    | If(cond: Macros -> bool)
    | Elif(cond: Macros -> bool)
    | Else
    | EndIf

  const MAX_COND_DEPTH: nat := 64

  // ----- the nested reading -----

  datatype Item =
    | Plain(line: Line)
    | Chain(first: Branch, elifs: seq<Branch>, hasElse: bool, otherwise: seq<Item>)

  datatype Branch = Branch(cond: Macros -> bool, body: seq<Item>)

  predicate IsItem(x: Item) {
    match x
    case Plain(l) => l.Code?
    case Chain(first, elifs, _, otherwise) => AreItems(first.body) && AreBranches(elifs) && AreItems(otherwise)
  }

  predicate AreItems(xs: seq<Item>) {
    xs == [] || (IsItem(xs[0]) && AreItems(xs[1..]))
  }

  predicate AreBranches(bs: seq<Branch>) {
    bs == [] || (AreItems(bs[0].body) && AreBranches(bs[1..]))
  }

  function Lines(x: Item): (ls: seq<Line>)
    ensures ls != []
    decreases x, 1
  {
    match x
    case Plain(l) => [l]
    case Chain(first, elifs, hasElse, otherwise) =>
      [If(first.cond)] + (LinesOf(first.body) + (LinesOfElifs(elifs) +
        ((if hasElse then [Else] + LinesOf(otherwise) else []) + [EndIf])))
  }

  function LinesOf(xs: seq<Item>): seq<Line>
    decreases xs, 1
  {
    if xs == [] then [] else Lines(xs[0]) + LinesOf(xs[1..])
  }

  function LinesOfElifs(bs: seq<Branch>): seq<Line>
    decreases bs, 1
  {
    if bs == [] then [] else [Elif(bs[0].cond)] + (LinesOf(bs[0].body) + LinesOfElifs(bs[1..]))
  }

  function Max(a: nat, b: nat): nat { if a < b then b else a }

  function Nesting(x: Item): nat
    decreases x, 1
  {
    match x
    case Plain(_) => 0
    case Chain(first, elifs, _, otherwise) =>
      1 + Max(Max(NestingOf(first.body), NestingOfElifs(elifs)), NestingOf(otherwise))
  }

  function NestingOf(xs: seq<Item>): nat
    decreases xs, 1
  {
    if xs == [] then 0 else Max(Nesting(xs[0]), NestingOf(xs[1..]))
  }

  function NestingOfElifs(bs: seq<Branch>): nat
    decreases bs, 1
  {
    if bs == [] then 0 else Max(NestingOf(bs[0].body), NestingOfElifs(bs[1..]))
  }

  /** What reading selects: which of the lines are live, and the macro table they leave. */
  datatype Selection = Selection(live: seq<bool>, macros: Macros)

  function Dead(n: nat): seq<bool> { seq(n, _ => false) }

  // A directive line is never emitted itself.
  function Read(x: Item, live: bool, m: Macros): (r: Selection)
    ensures |r.live| == |Lines(x)|
    decreases x, 2
  {
    match x
    case Plain(l) => if live && l.Code? then Selection([true], l.effect(m)) else Selection([false], m)
    case Chain(first, elifs, hasElse, otherwise) =>
      var take := live && first.cond(m);
      var a := ReadAll(first.body, take, m);
      var b := ReadElifs(elifs, live, take, a.macros);
      var taken := take || AnyTaken(elifs, live, take, a.macros);
      var c := if hasElse then ReadAll(otherwise, live && !taken, b.macros) else Selection([], b.macros);
      Selection([false] + (a.live + (b.live + ((if hasElse then [false] + c.live else []) + [false]))), c.macros)
  }

  function ReadAll(xs: seq<Item>, live: bool, m: Macros): (r: Selection)
    ensures |r.live| == |LinesOf(xs)|
    decreases xs, 1
  {
    if xs == [] then Selection([], m) else
      var a := Read(xs[0], live, m);
      var b := ReadAll(xs[1..], live, a.macros);
      Selection(a.live + b.live, b.macros)
  }

  /** The #elif branches after one that was (not) taken: the first whose condition holds is read. */
  function ReadElifs(bs: seq<Branch>, live: bool, taken: bool, m: Macros): (r: Selection)
    ensures |r.live| == |LinesOfElifs(bs)|
    decreases bs, 1
  {
    if bs == [] then Selection([], m) else
      var take := live && !taken && bs[0].cond(m);
      var a := ReadAll(bs[0].body, take, m);
      var b := ReadElifs(bs[1..], live, taken || take, a.macros);
      Selection([false] + (a.live + b.live), b.macros)
  }

  predicate AnyTaken(bs: seq<Branch>, live: bool, taken: bool, m: Macros)
    decreases bs, 1
  {
    bs != [] &&
    var take := live && !taken && bs[0].cond(m);
    take || AnyTaken(bs[1..], live, taken, ReadAll(bs[0].body, take, m).macros)
  }

  // ----- the stack -----

  datatype Entry = Entry(taken: bool, active: bool, hasElse: bool)

  /** The walk over the file so far. */
  datatype Walk = Walk(stack: seq<Entry>, macros: Macros, live: seq<bool>, ok: bool)

  predicate Active(stack: seq<Entry>) {
    stack == [] || stack[|stack| - 1].active
  }

  function Retop(stack: seq<Entry>, e: Entry): seq<Entry>
    requires stack != []
  {
    stack[|stack| - 1 := e]
  }

  /** One line. A directive that does not fit is reported and changes nothing else. */
  function Step(w: Walk, l: Line): Walk {
    var active := Active(w.stack);
    match l
    case Code(effect) =>
      if active then w.(macros := effect(w.macros), live := w.live + [true]) else w.(live := w.live + [false])
    case If(cond) =>
      if |w.stack| >= MAX_COND_DEPTH then Reported(w)
      else
        var holds := active && cond(w.macros);
        Passed(w.(stack := w.stack + [Entry(!active || holds, active && holds, false)]))
    case Elif(cond) =>
      if w.stack == [] then Reported(w)
      else
        var top := w.stack[|w.stack| - 1];
        if top.hasElse then Reported(w)
        else if top.taken then Passed(w.(stack := Retop(w.stack, top.(active := false))))
        else
          var holds := cond(w.macros);
          Passed(w.(stack := Retop(w.stack, top.(active := holds, taken := holds))))
    case Else =>
      if w.stack == [] then Reported(w)
      else
        var top := w.stack[|w.stack| - 1];
        if top.hasElse then Reported(w)
        else Passed(w.(stack := Retop(w.stack, Entry(true, !top.taken, true))))
    case EndIf =>
      if w.stack == [] then Reported(w) else Passed(w.(stack := w.stack[..|w.stack| - 1]))
  }

  function Passed(w: Walk): Walk { w.(live := w.live + [false]) }
  function Reported(w: Walk): Walk { w.(live := w.live + [false], ok := false) }

  function StepAll(w: Walk, ls: seq<Line>): Walk
    decreases ls
  {
    if ls == [] then w else StepAll(Step(w, ls[0]), ls[1..])
  }

  /** At the end of the file, conditionals left open are reported and dropped. */
  function Closed(w: Walk): Walk {
    w.(stack := [], ok := w.ok && w.stack == [])
  }

  lemma {:induction false} StepAllParts(w: Walk, a: seq<Line>, b: seq<Line>)
    ensures StepAll(w, a + b) == StepAll(StepAll(w, a), b)
    decreases |a|
  {
    if a == [] {
      assert a + b == b;
    } else {
      assert (a + b)[0] == a[0] && (a + b)[1..] == a[1..] + b;
      StepAllParts(Step(w, a[0]), a[1..], b);
    }
  }

  lemma {:induction false} StepOne(w: Walk, l: Line)
    ensures StepAll(w, [l]) == Step(w, l)
  {
    assert [l][1..] == [];
  }

  // ----- the stack carries out the reading -----

  /** The walk has passed over lines that reading gives as r, and the stack is as it was. */
  ghost predicate Passes(before: Walk, after: Walk, r: Selection) {
    after == before.(macros := r.macros, live := before.live + r.live)
  }

  lemma {:induction false} ItemsRead(w: Walk, xs: seq<Item>)
    requires AreItems(xs) && |w.stack| + NestingOf(xs) <= MAX_COND_DEPTH
    ensures Passes(w, StepAll(w, LinesOf(xs)), ReadAll(xs, Active(w.stack), w.macros))
    decreases xs, 3
  {
    if xs != [] {
      var live := Active(w.stack);
      var a := Read(xs[0], live, w.macros);
      ItemRead(w, xs[0]);
      StepAllParts(w, Lines(xs[0]), LinesOf(xs[1..]));
      var w1 := StepAll(w, Lines(xs[0]));
      ItemsRead(w1, xs[1..]);
      assert w.live + a.live + ReadAll(xs[1..], live, a.macros).live == w.live + (a.live + ReadAll(xs[1..], live, a.macros).live);
    }
  }

  lemma {:induction false} ItemRead(w: Walk, x: Item)
    requires IsItem(x) && |w.stack| + Nesting(x) <= MAX_COND_DEPTH
    ensures Passes(w, StepAll(w, Lines(x)), Read(x, Active(w.stack), w.macros))
    decreases x, 3
  {
    match x
    case Plain(l) => StepOne(w, l);
    case Chain(_, _, _, _) => ChainRead(w, x);
  }

  /** Inside a branch: the walk entered it from w with this entry on top. */
  ghost function Inside(w: Walk, e: Entry): Walk {
    w.(stack := w.stack + [e])
  }

  /** One branch: the directive that opens it, then its body. */
  lemma {:induction false} BodyRead(w: Walk, e: Entry, xs: seq<Item>)
    requires AreItems(xs) && |w.stack| + 1 + NestingOf(xs) <= MAX_COND_DEPTH
    ensures Passes(Inside(w, e), StepAll(Inside(w, e), LinesOf(xs)), ReadAll(xs, e.active, w.macros))
    decreases xs, 4
  {
    ItemsRead(Inside(w, e), xs);
  }

  /** The #elif branches: at most the first that holds is read, and none after one was taken. */
  lemma {:induction false} ElifsRead(w: Walk, e: Entry, bs: seq<Branch>, live: bool, taken: bool) returns (e': Entry)
    requires AreBranches(bs) && |w.stack| + 1 + NestingOfElifs(bs) <= MAX_COND_DEPTH
    requires !e.hasElse && e.taken == (!live || taken)
    ensures !e'.hasElse && e'.taken == (!live || taken || AnyTaken(bs, live, taken, w.macros))
    ensures var r := ReadElifs(bs, live, taken, w.macros);
            StepAll(Inside(w, e), LinesOfElifs(bs)) == Inside(w.(macros := r.macros, live := w.live + r.live), e')
    decreases bs, 3
  {
    e' := e;
    if bs == [] {
      assert w.live + [] == w.live;
    } else {
      var take := live && !taken && bs[0].cond(w.macros);
      var head, rest := [Elif(bs[0].cond)] + LinesOf(bs[0].body), LinesOfElifs(bs[1..]);
      assert LinesOfElifs(bs) == head + rest;
      StepAllParts(Inside(w, e), head, rest);
      var entered := ElifRead(w, e, bs[0], live, taken);
      var w2 := AfterElif(w, bs[0], take);
      e' := ElifsRead(w2, entered, bs[1..], live, taken || take);
      TakenOnce(bs[1..], live, taken, take, w2.macros);
      RegroupElifs(w.live, ReadAll(bs[0].body, take, w.macros).live, ReadElifs(bs[1..], live, taken || take, w2.macros).live);
    }
  }

  lemma {:induction false} RegroupElifs(w: seq<bool>, a: seq<bool>, b: seq<bool>)
    ensures w + ([false] + a) + b == w + ([false] + (a + b))
  {
  }

  ghost function AfterElif(w: Walk, b: Branch, take: bool): Walk {
    var a := ReadAll(b.body, take, w.macros);
    w.(macros := a.macros, live := w.live + ([false] + a.live))
  }

  lemma {:induction false} ElifRead(w: Walk, e: Entry, b: Branch, live: bool, taken: bool) returns (entered: Entry)
    requires AreItems(b.body) && |w.stack| + 1 + NestingOf(b.body) <= MAX_COND_DEPTH
    requires !e.hasElse && e.taken == (!live || taken)
    ensures var take := live && !taken && b.cond(w.macros);
            && !entered.hasElse && entered.taken == (!live || taken || take)
            && StepAll(Inside(w, e), [Elif(b.cond)] + LinesOf(b.body)) == Inside(AfterElif(w, b, take), entered)
    decreases b.body, 5
  {
    StepAllParts(Inside(w, e), [Elif(b.cond)], LinesOf(b.body));
    StepOne(Inside(w, e), Elif(b.cond));
    entered := ElifEnters(w, e, b.cond, live, taken);
    BodyRead(Passed(w), entered, b.body);
    var a := ReadAll(b.body, entered.active, w.macros);
    assert w.live + [false] + a.live == w.live + ([false] + a.live);
  }

  lemma {:induction false} ElifEnters(w: Walk, e: Entry, cond: Macros -> bool, live: bool, taken: bool) returns (entered: Entry)
    requires !e.hasElse && e.taken == (!live || taken)
    ensures var take := live && !taken && cond(w.macros);
            && !entered.hasElse && entered.active == take && entered.taken == (!live || taken || take)
            && Step(Inside(w, e), Elif(cond)) == Inside(Passed(w), entered)
  {
    var holds := cond(w.macros);
    entered := if e.taken then e.(active := false) else e.(active := holds, taken := holds);
    assert Retop(w.stack + [e], entered) == w.stack + [entered];
  }

  /** Once a branch was taken, no later one is. */
  lemma {:induction false} TakenOnce(bs: seq<Branch>, live: bool, taken: bool, take: bool, m: Macros)
    ensures (taken || take || AnyTaken(bs, live, taken || take, m)) == (taken || take || AnyTaken(bs, live, taken, m))
    decreases bs
  {
  }

  lemma {:induction false} ChainRead(w: Walk, x: Item)
    requires x.Chain? && IsItem(x) && |w.stack| + Nesting(x) <= MAX_COND_DEPTH
    ensures Passes(w, StepAll(w, Lines(x)), Read(x, Active(w.stack), w.macros))
    decreases x, 2
  {
    var live := Active(w.stack);
    var take := live && x.first.cond(w.macros);
    var e := Entry(!live || take, take, false);
    var head, elifs, end := FirstLines(x), LinesOfElifs(x.elifs), EndLines(x);
    assert Lines(x) == head + (elifs + end);
    StepAllParts(w, head, elifs + end);
    FirstRead(w, x, e);
    var w2 := AfterFirst(w, x, take);
    StepAllParts(Inside(w2, e), elifs, end);
    var e' := ElifsRead(w2, e, x.elifs, live, take);
    var b := ReadElifs(x.elifs, live, take, w2.macros);
    EndRead(w2.(macros := b.macros, live := w2.live + b.live), e', x);
    ChainSelects(w, x, e'.taken);
  }

  function FirstLines(x: Item): seq<Line>
    requires x.Chain?
  {
    [If(x.first.cond)] + LinesOf(x.first.body)
  }

  function EndLines(x: Item): seq<Line>
    requires x.Chain?
  {
    (if x.hasElse then [Else] + LinesOf(x.otherwise) else []) + [EndIf]
  }

  /** The walk as it is behind the first branch, apart from the branch's own entry. */
  ghost function AfterFirst(w: Walk, x: Item, take: bool): Walk
    requires x.Chain?
  {
    var a := ReadAll(x.first.body, take, w.macros);
    w.(macros := a.macros, live := w.live + ([false] + a.live))
  }

  lemma {:induction false} FirstRead(w: Walk, x: Item, e: Entry)
    requires x.Chain? && IsItem(x) && |w.stack| + Nesting(x) <= MAX_COND_DEPTH
    requires var live := Active(w.stack);
             var take := live && x.first.cond(w.macros);
             e == Entry(!live || take, take, false)
    ensures StepAll(w, FirstLines(x)) == Inside(AfterFirst(w, x, e.active), e)
    decreases x, 0
  {
    StepAllParts(w, [If(x.first.cond)], LinesOf(x.first.body));
    StepOne(w, If(x.first.cond));
    BodyRead(Passed(w), e, x.first.body);
    var a := ReadAll(x.first.body, e.active, w.macros);
    assert w.live + [false] + a.live == w.live + ([false] + a.live);
  }

  /** The pieces of a chain's selection, put together. */
  lemma {:induction false} ChainSelects(w: Walk, x: Item, taken: bool)
    requires x.Chain?
    requires var live := Active(w.stack);
             var take := live && x.first.cond(w.macros);
             taken == (!live || take || AnyTaken(x.elifs, live, take, AfterFirst(w, x, take).macros))
    ensures var live := Active(w.stack);
            var take := live && x.first.cond(w.macros);
            var w2 := AfterFirst(w, x, take);
            var b := ReadElifs(x.elifs, live, take, w2.macros);
            var c := if x.hasElse then ReadAll(x.otherwise, !taken, b.macros) else Selection([], b.macros);
            Passes(w, w.(macros := c.macros, live := w2.live + b.live + ((if x.hasElse then [false] + c.live else []) + [false])),
                   Read(x, live, w.macros))
  {
    var live := Active(w.stack);
    var take := live && x.first.cond(w.macros);
    var a := ReadAll(x.first.body, take, w.macros);
    var b := ReadElifs(x.elifs, live, take, a.macros);
    var c := if x.hasElse then ReadAll(x.otherwise, !taken, b.macros) else Selection([], b.macros);
    Regroup(w.live, [false], a.live, b.live, (if x.hasElse then [false] + c.live else []) + [false]);
  }

  lemma {:induction false} Regroup(w: seq<bool>, f: seq<bool>, a: seq<bool>, b: seq<bool>, t: seq<bool>)
    ensures w + (f + a) + b + t == w + (f + (a + (b + t)))
  {
  }

  /** The #else, if there is one, and the #endif. */
  lemma {:induction false} EndRead(w: Walk, e: Entry, x: Item)
    requires x.Chain? && AreItems(x.otherwise) && |w.stack| + 1 + NestingOf(x.otherwise) <= MAX_COND_DEPTH && !e.hasElse
    ensures var c := if x.hasElse then ReadAll(x.otherwise, !e.taken, w.macros) else Selection([], w.macros);
            StepAll(Inside(w, e), EndLines(x)) ==
            w.(macros := c.macros, live := w.live + ((if x.hasElse then [false] + c.live else []) + [false]))
    decreases x, 1
  {
    if x.hasElse {
      ElseRead(w, e, x);
    } else {
      EndIfPops(w, e);
      assert EndLines(x) == [EndIf];
      assert [] + [false] == [false];
    }
  }

  lemma {:induction false} ElseRead(w: Walk, e: Entry, x: Item)
    requires x.Chain? && x.hasElse && AreItems(x.otherwise) && !e.hasElse
    requires |w.stack| + 1 + NestingOf(x.otherwise) <= MAX_COND_DEPTH
    ensures var c := ReadAll(x.otherwise, !e.taken, w.macros);
            StepAll(Inside(w, e), EndLines(x)) == w.(macros := c.macros, live := w.live + ([false] + c.live + [false]))
    decreases x, 0
  {
    var body := LinesOf(x.otherwise);
    var entered := Entry(true, !e.taken, true);
    var w1 := Passed(w);
    assert EndLines(x) == [Else] + (body + [EndIf]);
    StepAllParts(Inside(w, e), [Else], body + [EndIf]);
    StepOne(Inside(w, e), Else);
    assert Retop(w.stack + [e], entered) == w.stack + [entered];
    StepAllParts(Inside(w1, entered), body, [EndIf]);
    BodyRead(w1, entered, x.otherwise);
    var c := ReadAll(x.otherwise, !e.taken, w.macros);
    EndIfPops(w1.(macros := c.macros, live := w1.live + c.live), entered);
    Framed(w.live, c.live);
  }

  lemma {:induction false} Framed(before: seq<bool>, inner: seq<bool>)
    ensures before + [false] + inner + [false] == before + ([false] + inner + [false])
  {
  }

  lemma {:induction false} EndIfPops(w: Walk, e: Entry)
    ensures StepAll(Inside(w, e), [EndIf]) == Passed(w)
  {
    StepOne(Inside(w, e), EndIf);
    assert (w.stack + [e])[..|w.stack|] == w.stack;
  }

  /** A whole file of nested conditionals, at most 64 deep: exactly the lines that the nested
      reading selects are live, nothing is reported, and no conditional is left open. */
  lemma {:induction false} FileReadsNested(xs: seq<Item>, m: Macros)
    requires AreItems(xs) && NestingOf(xs) <= MAX_COND_DEPTH
    ensures var r := ReadAll(xs, true, m);
            Closed(StepAll(Walk([], m, [], true), LinesOf(xs))) == Walk([], r.macros, r.live, true)
  {
    ItemsRead(Walk([], m, [], true), xs);
    assert [] + ReadAll(xs, true, m).live == ReadAll(xs, true, m).live;
  }

  // ----- what the reading selects -----

  /** In a region that is not live nothing is, and nothing happens. */
  lemma {:induction false} DeadStaysDead(xs: seq<Item>, m: Macros)
    ensures ReadAll(xs, false, m) == Selection(Dead(|LinesOf(xs)|), m)
    decreases xs, 1
  {
    if xs != [] {
      DeadItem(xs[0], m);
      DeadStaysDead(xs[1..], m);
    }
  }

  lemma {:induction false} DeadItem(x: Item, m: Macros)
    ensures Read(x, false, m) == Selection(Dead(|Lines(x)|), m)
    decreases x, 1
  {
    if x.Chain? {
      DeadStaysDead(x.first.body, m);
      DeadElifs(x.elifs, false, false, m);
      DeadStaysDead(x.otherwise, m);
    }
  }

  /** After a branch was taken, or in a dead region, no #elif branch is live. */
  lemma {:induction false} DeadElifs(bs: seq<Branch>, live: bool, taken: bool, m: Macros)
    requires !live || taken
    ensures ReadElifs(bs, live, taken, m) == Selection(Dead(|LinesOfElifs(bs)|), m)
    decreases bs, 1
  {
    if bs != [] {
      DeadStaysDead(bs[0].body, m);
      DeadElifs(bs[1..], live, taken, m);
    }
  }

  // ----- the walk in place -----

  class Preprocessor {
    var stack: seq<Entry>
    var macros: Macros
    var live: seq<bool>
    var ok: bool

    function State(): Walk
      reads this
    {
      Walk(stack, macros, live, ok)
    }

    constructor (m: Macros)
      ensures State() == Walk([], m, [], true)
    {
      stack, macros, live, ok := [], m, [], true;
    }

    method Report()
      modifies this`ok
      ensures !ok
    {
      ok := false;
    }

    method Directive(l: Line)
      requires !l.Code?
      modifies this
      ensures State() == Step(old(State()), l)
    {
      var active := stack == [] || stack[|stack| - 1].active;
      live := live + [false];
      if l.If? {
        if |stack| >= MAX_COND_DEPTH {
          Report();
          return;
        }
        var cond := false;
        if active {
          cond := l.cond(macros);
        }
        stack := stack + [Entry(!active || cond, active && cond, false)];
        return;
      }
      if stack == [] {
        Report();
        return;
      }
      var top := stack[|stack| - 1];
      if l.EndIf? {
        stack := stack[..|stack| - 1];
        return;
      }
      if top.hasElse {
        Report();
        return;
      }
      if l.Else? {
        top := Entry(true, !top.taken, true);
      } else if top.taken {
        top := top.(active := false);
      } else {
        var cond := l.cond(macros);
        top := top.(active := cond, taken := cond);
      }
      stack := stack[|stack| - 1 := top];
    }

    method ProcessFile(lines: seq<Line>)
      requires stack == [] && live == [] && ok
      modifies this
      ensures State() == Closed(StepAll(old(State()), lines))
    {
      for i := 0 to |lines|
        invariant StepAll(State(), lines[i..]) == StepAll(old(State()), lines)
      {
        assert lines[i..][0] == lines[i] && lines[i..][1..] == lines[i + 1..];
        if lines[i].Code? {
          if stack == [] || stack[|stack| - 1].active {
            macros := lines[i].effect(macros);
            live := live + [true];
          } else {
            live := live + [false];
          }
        } else {
          Directive(lines[i]);
        }
      }
      while stack != []
        invariant State() == StepAll(old(State()), lines).(stack := stack, ok := ok)
        invariant ok == (StepAll(old(State()), lines).ok && stack == StepAll(old(State()), lines).stack)
        decreases |stack|
      {
        Report();
        stack := stack[..|stack| - 1];
      }
    }
  }
}
