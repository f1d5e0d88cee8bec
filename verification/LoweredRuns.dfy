/** The structured code that lowering emits, and what running it does. A variable made by the
    lowering itself (a call's result, its `returned` flag) is named by the index of the
    instruction that declares it, as every value is. */
module LoweredRuns {
  import opened Ir
  import opened SourceRuns

  datatype Cond = Holds(p: Store -> bool) | Fails(p: Store -> bool) | Flag(slot: nat)

  datatype Code =
    | Step(f: Store -> Store)
    | Slot
    | SetResult(slot: nat, value: Store -> Word)
    | SetFlag(slot: nat, on: bool)
    | UseResult(from: Option<nat>, use: (Store, Option<Word>) -> Store)
    | Branch(cond: Cond, yes: seq<Code>, hasElse: bool, no: seq<Code>)
    | Loop(body: seq<Code>, hasCont: bool, cont: seq<Code>, again: Option<Store -> bool>)
    | Select(key: Store -> int, arms: seq<Arm>)
    | Leave | Next       // break, continue
    | Exit | Kill        // return from the entry point, discard

  datatype Arm = Arm(tag: Option<int>, body: seq<Code>)

  /** Source variables, and the slots that have been written. */
  datatype State = State(store: Store, results: map<nat, Word>, flags: map<nat, bool>)

  function ResultOf(st: State, k: nat): Option<Word> {
    if k in st.results then Some(st.results[k]) else None
  }

  predicate FlagOf(st: State, k: nat) {
    k in st.flags && st.flags[k]
  }

  predicate Test(c: Cond, st: State) {
    match c
    case Holds(p) => p(st.store)
    case Fails(p) => !p(st.store)
    case Flag(k) => FlagOf(st, k)
  }

  datatype Effect =
    | Went(st: State)          // fell off the end
    | Left(st: State)          // a break is on its way out
    | Nexted(st: State)        // a continue is
    | Exited(st: State)
    | Killed(st: State)
    | Spent                    // out of fuel

  function Run(fuel: nat, c: Code, st: State): Effect
    decreases fuel, c, 1
  {
    match c
    case Step(f) => Went(st.(store := f(st.store)))
    case Slot => Went(st)
    case SetResult(k, value) => Went(st.(results := st.results[k := value(st.store)]))
    case SetFlag(k, on) => Went(st.(flags := st.flags[k := on]))
    case UseResult(from, use) =>
      Went(st.(store := use(st.store, if from.Some? then ResultOf(st, from.value) else None)))
    case Branch(cond, yes, hasElse, no) =>
      if Test(cond, st) then RunAll(fuel, yes, st)
      else if hasElse then RunAll(fuel, no, st) else Went(st)
    case Loop(_, _, _, _) => RunLoop(fuel, c, st)
    case Select(key, arms) =>
      (match RunArms(fuel, arms, Chosen(ArmTags(arms), key(st.store)), st)
       case Left(s1) => Went(s1)
       case other => other)
    case Leave => Left(st)
    case Next => Nexted(st)
    case Exit => Exited(st)
    case Kill => Killed(st)
  }

  function RunAll(fuel: nat, cs: seq<Code>, st: State): Effect
    decreases fuel, cs, 1
  {
    if cs == [] then Went(st) else
      match Run(fuel, cs[0], st)
      case Went(s1) => RunAll(fuel, cs[1..], s1)
      case other => other
  }

  function RunArms(fuel: nat, arms: seq<Arm>, k: nat, st: State): Effect
    decreases fuel, arms, 1
  {
    if arms == [] then Went(st)
    else if k > 0 then RunArms(fuel, arms[1..], k - 1, st)
    else
      match RunAll(fuel, arms[0].body, st)
      case Went(s1) => RunArms(fuel, arms[1..], 0, s1)
      case other => other
  }

  function RunLoop(fuel: nat, c: Code, st: State): Effect
    requires c.Loop?
    decreases fuel, c, 0
  {
    match RunAll(fuel, c.body, st)
    case Went(s1) => LoopAgain(fuel, c, s1)
    case Nexted(s1) => LoopAgain(fuel, c, s1)
    case Left(s1) => Went(s1)
    case other => other
  }

  // The continue section and the back edge.
  function LoopAgain(fuel: nat, c: Code, st: State): Effect
    requires c.Loop?
    decreases fuel, c.cont, 2
  {
    match if c.hasCont then RunAll(fuel, c.cont, st) else Went(st)
    case Went(s1) =>
      if c.again.Some? && !c.again.value(s1.store) then Went(s1)
      else if fuel == 0 then Spent else RunLoop(fuel - 1, c, s1)
    case other => other
  }

  function ArmTags(arms: seq<Arm>): (tags: seq<Option<int>>)
    ensures |tags| == |arms|
    ensures forall k :: 0 <= k < |tags| ==> tags[k] == arms[k].tag
  {
    seq(|arms|, k requires 0 <= k < |arms| => arms[k].tag)
  }

  lemma {:induction false} RunAppend(fuel: nat, a: seq<Code>, b: seq<Code>, st: State)
    ensures RunAll(fuel, a + b, st) ==
            match RunAll(fuel, a, st) case Went(s1) => RunAll(fuel, b, s1) case other => other
    decreases a
  {
    if a == [] {
      assert a + b == b;
    } else {
      assert (a + b)[0] == a[0] && (a + b)[1..] == a[1..] + b;
      match Run(fuel, a[0], st)
      case Went(s1) => RunAppend(fuel, a[1..], b, s1);
      case _ =>
    }
  }

  lemma {:induction false} RunOne(fuel: nat, c: Code, st: State)
    ensures RunAll(fuel, [c], st) == Run(fuel, c, st)
  {
    assert [c][1..] == [];
    match Run(fuel, c, st)
    case Went(s1) => assert RunAll(fuel, [c][1..], s1) == Went(s1);
    case _ =>
  }

  // ----- the instructions themselves -----

  /** The stream as it stands in the function: markers bracket the nested code. */
  datatype Token =
    | Plain(code: Code)
    | TIf(cond: Cond) | TElse | TEndIf
    | TLoop | TLoopContinue | TEndLoop(again: Option<Store -> bool>)
    | TSwitch(key: Store -> int, tags: seq<Option<int>>) | TCase(tag: Option<int>) | TEndSwitch

  function Flat(c: Code): (ts: seq<Token>)
    ensures |ts| > 0
    decreases c, 1
  {
    match c
    case Branch(cond, yes, hasElse, no) =>
      [TIf(cond)] + FlatAll(yes) + (if hasElse then [TElse] + FlatAll(no) else []) + [TEndIf]
    case Loop(body, hasCont, cont, again) =>
      [TLoop] + FlatAll(body) + (if hasCont then [TLoopContinue] + FlatAll(cont) else []) + [TEndLoop(again)]
    case Select(key, arms) => [TSwitch(key, ArmTags(arms))] + FlatArms(arms) + [TEndSwitch]
    case _ => [Plain(c)]
  }

  function FlatAll(cs: seq<Code>): seq<Token>
    decreases cs, 1
  {
    if cs == [] then [] else Flat(cs[0]) + FlatAll(cs[1..])
  }

  function FlatArms(arms: seq<Arm>): seq<Token>
    decreases arms, 1
  {
    if arms == [] then [] else [TCase(arms[0].tag)] + FlatAll(arms[0].body) + FlatArms(arms[1..])
  }

  lemma {:induction false} FlatAppend(a: seq<Code>, b: seq<Code>)
    ensures FlatAll(a + b) == FlatAll(a) + FlatAll(b)
    decreases a
  {
    if a == [] {
      assert a + b == b;
    } else {
      assert (a + b)[0] == a[0] && (a + b)[1..] == a[1..] + b;
      FlatAppend(a[1..], b);
    }
  }
}
