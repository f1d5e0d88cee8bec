/** Which files have their conditionals accepted: exactly those that are lines of well-nested chains, no
    deeper than the cap. So every directive out of place is reported. */
module Unmatched {
  import opened Conditionals

  // ----- what is reported -----

  /** The directive does not fit: nothing is open, the chain has had its #else, or too much is open. */
  predicate Misfits(l: Line, flags: seq<bool>) {
    match l
    case Code(_) => false
    case If(_) => |flags| >= 64
    case Elif(_) => flags == [] || flags[|flags| - 1]
    case Else => flags == [] || flags[|flags| - 1]
    case EndIf => flags == []
  }

  /** Which of the open chains have had their #else. */
  function Next(l: Line, flags: seq<bool>): seq<bool>
    requires !Misfits(l, flags)
  {
    match l
    case Code(_) => flags
    case If(_) => flags + [false]
    case Elif(_) => flags
    case Else => flags[..|flags| - 1] + [true]
    case EndIf => flags[..|flags| - 1]
  }

  /** Nothing is out of place from here on, and nothing stays open. */
  predicate AllFit(ls: seq<Line>, flags: seq<bool>)
    decreases |ls|
  {
    if ls == [] then flags == [] else !Misfits(ls[0], flags) && AllFit(ls[1..], Next(ls[0], flags))
  }

  function Flags(stack: seq<Entry>): (flags: seq<bool>)
    ensures |flags| == |stack| && forall d :: 0 <= d < |stack| ==> flags[d] == stack[d].hasElse
  {
    seq(|stack|, d requires 0 <= d < |stack| => stack[d].hasElse)
  }

  lemma {:induction false} StepReports(w: Walk, l: Line)
    ensures Step(w, l).ok <==> w.ok && !Misfits(l, Flags(w.stack))
    ensures !Misfits(l, Flags(w.stack)) ==> Flags(Step(w, l).stack) == Next(l, Flags(w.stack))
  {
  }

  lemma {:induction false} ReportsStay(w: Walk, ls: seq<Line>)
    requires !w.ok
    ensures !StepAll(w, ls).ok
    decreases |ls|
  {
    if ls != [] {
      StepReports(w, ls[0]);
      ReportsStay(Step(w, ls[0]), ls[1..]);
    }
  }

  lemma {:induction false} ReportedUnlessAllFit(w: Walk, ls: seq<Line>)
    requires w.ok
    ensures Closed(StepAll(w, ls)).ok <==> AllFit(ls, Flags(w.stack))
    decreases |ls|
  {
    if ls != [] {
      StepReports(w, ls[0]);
      if Misfits(ls[0], Flags(w.stack)) {
        ReportsStay(Step(w, ls[0]), ls[1..]);
      } else {
        ReportedUnlessAllFit(Step(w, ls[0]), ls[1..]);
      }
    }
  }

  // ----- what fits is nested -----

  /** The rest of a chain that is open: items, #elif branches, an #else, and its end. */
  datatype Rest = Rest(items: seq<Item>, elifs: seq<Branch>, hasElse: bool, otherwise: seq<Item>)

  predicate IsRest(r: Rest, depth: nat) {
    && AreItems(r.items) && AreBranches(r.elifs) && AreItems(r.otherwise)
    && depth + NestingOf(r.items) <= 64 && depth + NestingOfElifs(r.elifs) <= 64 && depth + NestingOf(r.otherwise) <= 64
  }

  /** From the #else on, or from the end. */
  function TailLines(r: Rest): seq<Line> {
    (if r.hasElse then [Else] + LinesOf(r.otherwise) else []) + [EndIf]
  }

  /** Everything behind its items. */
  function ElifLines(r: Rest): seq<Line> {
    LinesOfElifs(r.elifs) + TailLines(r)
  }

  function RestLines(r: Rest): seq<Line> {
    LinesOf(r.items) + ElifLines(r)
  }

  /** The lines are the rest of every open chain, innermost first, and then more items. */
  ghost predicate Nested(ls: seq<Line>, flags: seq<bool>)
    decreases |flags|
  {
    if flags == [] then exists xs :: IsWhole(ls, xs)
    else exists r: Rest, after: seq<Line> :: IsOpen(ls, flags, r, after) && Nested(after, flags[..|flags| - 1])
  }

  ghost predicate IsWhole(ls: seq<Line>, xs: seq<Item>) {
    AreItems(xs) && NestingOf(xs) <= 64 && ls == LinesOf(xs)
  }

  ghost predicate IsOpen(ls: seq<Line>, flags: seq<bool>, r: Rest, after: seq<Line>)
    requires flags != []
  {
    IsRest(r, |flags|) && (flags[|flags| - 1] ==> r.elifs == [] && !r.hasElse) && ls == RestLines(r) + after
  }

  lemma {:induction false} OneMoreItem(x: Item, xs: seq<Item>)
    ensures LinesOf([x] + xs) == Lines(x) + LinesOf(xs) && NestingOf([x] + xs) == Max(Nesting(x), NestingOf(xs))
    ensures AreItems([x] + xs) <==> IsItem(x) && AreItems(xs)
  {
    assert ([x] + xs)[1..] == xs;
  }

  lemma {:induction false} OneMoreElif(b: Branch, bs: seq<Branch>)
    ensures LinesOfElifs([b] + bs) == [Elif(b.cond)] + (LinesOf(b.body) + LinesOfElifs(bs))
    ensures NestingOfElifs([b] + bs) == Max(NestingOf(b.body), NestingOfElifs(bs))
    ensures AreBranches([b] + bs) <==> AreItems(b.body) && AreBranches(bs)
  {
    assert ([b] + bs)[1..] == bs;
  }

  lemma {:induction false} Joined(a: seq<Line>, b: seq<Line>, c: seq<Line>)
    ensures (a + b) + c == a + (b + c)
  {
  }

  lemma {:induction false} ItemInFront(x: Item, ls: seq<Line>, flags: seq<bool>)
    requires IsItem(x) && |flags| + Nesting(x) <= 64 && Nested(ls, flags)
    ensures Nested(Lines(x) + ls, flags)
  {
    if flags == [] {
      var xs :| IsWhole(ls, xs);
      OneMoreItem(x, xs);
      assert IsWhole(Lines(x) + ls, [x] + xs);
    } else {
      var r: Rest, after: seq<Line> :| IsOpen(ls, flags, r, after) && Nested(after, flags[..|flags| - 1]);
      var more := r.(items := [x] + r.items);
      OneMoreItem(x, r.items);
      Joined(Lines(x), LinesOf(r.items), ElifLines(r));
      Joined(Lines(x), RestLines(r), after);
      assert IsOpen(Lines(x) + ls, flags, more, after);
    }
  }

  /** A chain that is opened here: what was open one deeper becomes an item. */
  lemma {:induction false} ChainInFront(cond: Macros -> bool, ls: seq<Line>, flags: seq<bool>)
    requires |flags| < 64 && Nested(ls, flags + [false])
    ensures Nested([If(cond)] + ls, flags)
  {
    var deeper := flags + [false];
    assert deeper[..|deeper| - 1] == flags;
    var r: Rest, after: seq<Line> :| IsOpen(ls, deeper, r, after) && Nested(after, flags);
    var x := Chain(Branch(cond, r.items), r.elifs, r.hasElse, r.otherwise);
    ChainIsItem(cond, r, |flags|);
    ChainLines(cond, r);
    Joined([If(cond)], RestLines(r), after);
    ItemInFront(x, after, flags);
  }

  lemma {:induction false} ChainIsItem(cond: Macros -> bool, r: Rest, depth: nat)
    requires IsRest(r, depth + 1)
    ensures var x := Chain(Branch(cond, r.items), r.elifs, r.hasElse, r.otherwise); IsItem(x) && depth + Nesting(x) <= 64
  {
  }

  lemma {:induction false} ChainLines(cond: Macros -> bool, r: Rest)
    ensures Lines(Chain(Branch(cond, r.items), r.elifs, r.hasElse, r.otherwise)) == [If(cond)] + RestLines(r)
  {
  }

  lemma {:induction false} ElifInFront(cond: Macros -> bool, ls: seq<Line>, flags: seq<bool>)
    requires flags != [] && !flags[|flags| - 1] && Nested(ls, flags)
    ensures Nested([Elif(cond)] + ls, flags)
  {
    var r: Rest, after: seq<Line> :| IsOpen(ls, flags, r, after) && Nested(after, flags[..|flags| - 1]);
    var b := Branch(cond, r.items);
    var more := Rest([], [b] + r.elifs, r.hasElse, r.otherwise);
    OneMoreElif(b, r.elifs);
    Joined(LinesOf(r.items), LinesOfElifs(r.elifs), TailLines(r));
    Joined([Elif(cond)], LinesOf(r.items) + LinesOfElifs(r.elifs), TailLines(r));
    Joined([Elif(cond)], RestLines(r), after);
    NoItems(more);
    assert IsOpen([Elif(cond)] + ls, flags, more, after);
  }

  lemma {:induction false} NoItems(r: Rest)
    requires r.items == []
    ensures RestLines(r) == ElifLines(r)
  {
    assert LinesOf([]) == [] && [] + ElifLines(r) == ElifLines(r);
  }

  lemma {:induction false} NoElifs(r: Rest)
    requires r.elifs == []
    ensures ElifLines(r) == TailLines(r)
  {
    assert LinesOfElifs([]) == [] && [] + TailLines(r) == TailLines(r);
  }

  lemma {:induction false} ElseInFront(ls: seq<Line>, flags: seq<bool>)
    requires flags != [] && !flags[|flags| - 1] && Nested(ls, flags[..|flags| - 1] + [true])
    ensures Nested([Else] + ls, flags)
  {
    var later := flags[..|flags| - 1] + [true];
    assert later[..|later| - 1] == flags[..|flags| - 1];
    var r: Rest, after: seq<Line> :| IsOpen(ls, later, r, after) && Nested(after, flags[..|flags| - 1]);
    var more := Rest([], [], true, r.items);
    NoItems(more);
    NoElifs(more);
    NoElifs(r);
    Joined([Else], LinesOf(r.items), [EndIf]);
    Joined([Else], RestLines(r), after);
    assert IsOpen([Else] + ls, flags, more, after);
  }

  lemma {:induction false} EndInFront(ls: seq<Line>, flags: seq<bool>)
    requires flags != [] && |flags| <= 64 && Nested(ls, flags[..|flags| - 1])
    ensures Nested([EndIf] + ls, flags)
  {
    var r := Rest([], [], false, []);
    NoItems(r);
    NoElifs(r);
    assert TailLines(r) == [EndIf];
    assert IsOpen([EndIf] + ls, flags, r, ls);
  }

  lemma {:induction false} FittingIsNested(ls: seq<Line>, flags: seq<bool>)
    requires AllFit(ls, flags) && |flags| <= 64
    ensures Nested(ls, flags)
    decreases |ls|
  {
    if ls == [] {
      assert IsWhole(ls, []);
    } else {
      FittingIsNested(ls[1..], Next(ls[0], flags));
      assert ls == [ls[0]] + ls[1..];
      match ls[0]
      case Code(_) => ItemInFront(Plain(ls[0]), ls[1..], flags);
      case If(cond) => ChainInFront(cond, ls[1..], flags);
      case Elif(cond) => ElifInFront(cond, ls[1..], flags);
      case Else => ElseInFront(ls[1..], flags);
      case EndIf => EndInFront(ls[1..], flags);
    }
  }

  /** A file passes without a report exactly when it is the lines of nested items, at most 64 deep:
      every #endif, #elif and #else without its #if, every second #else, and every #if left open or
      nested too deep is reported. */
  lemma {:induction false} AcceptedIffNested(ls: seq<Line>, m: Macros)
    ensures Closed(StepAll(Walk([], m, [], true), ls)).ok <==>
            exists xs :: AreItems(xs) && NestingOf(xs) <= 64 && ls == LinesOf(xs)
  {
    var w := Walk([], m, [], true);
    ReportedUnlessAllFit(w, ls);
    assert Flags([]) == [];
    if AllFit(ls, []) {
      FittingIsNested(ls, []);
      var xs :| IsWhole(ls, xs);
    }
    if xs :| AreItems(xs) && NestingOf(xs) <= 64 && ls == LinesOf(xs) {
      FileReadsNested(xs, m);
    }
  }
}
