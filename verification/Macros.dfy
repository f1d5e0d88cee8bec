/** Macro expansion with a cap on how deep expansions nest. */
module Macros {
  import opened Ir
  import opened MacroText

  datatype Macro = Macro(body: Text, params: Option<seq<Text>>)

  /** The newest live definition of each name. */
  type Table = map<Text, Macro>

  const MAX_EXPAND_DEPTH: nat := 64
  const MAX_ARGS: nat := 32

  datatype Problem = TooDeep(name: Text) | Unterminated(name: Text) | WrongCount(name: Text, got: nat)

  /** Text put out, and problems reported on the way. */
  datatype Out = Out(text: Text, problems: seq<Problem>)

  function Then(a: Out, b: Out): Out {
    Out(a.text + b.text, a.problems + b.problems)
  }

  /** What follows the name of a macro with parameters. */
  datatype Call = NoCall | Broken | Call(args: seq<Text>, size: nat)

  function CallAt(rest: Text): (c: Call)
    ensures c.Call? ==> c.size <= |rest|
  {
    var skip := Run(rest, IsHSpace);
    if skip == |rest| || rest[skip] != '(' then NoCall
    else
      var list := RawArgs(rest[skip + 1..], 1, "");
      if list.None? then Broken else Call(Args(list.value.raw), skip + 1 + list.value.size)
  }

  /** Each shorter than a text of that size. */
  ghost predicate Short(args: seq<Text>, size: nat) {
    forall i :: 0 <= i < |args| ==> |args[i]| < size
  }

  lemma {:induction false} CallArgsAreShort(rest: Text)
    ensures CallAt(rest).Call? ==> Short(CallAt(rest).args, |rest|)
  {
    if CallAt(rest).Call? {
      var skip := Run(rest, IsHSpace);
      var raw := RawArgs(rest[skip + 1..], 1, "").value.raw;
      forall i | 0 <= i < |Args(raw)|
        ensures |Args(raw)[i]| < |rest|
      {
        RawIsShort(rest[skip + 1..], 1, "", i);
        TrimIsShorter(raw[i]);
      }
    }
  }

  /** The names being expanded, outermost first: macros, each once. */
  ghost predicate Nested(tab: Table, busy: seq<Text>) {
    busy == [] || (var n := |busy| - 1; busy[n] in tab && busy[n] !in busy[..n] && Nested(tab, busy[..n]))
  }

  lemma {:induction false} PushNests(tab: Table, busy: seq<Text>, name: Text)
    requires Nested(tab, busy) && name in tab && name !in busy
    ensures Nested(tab, busy + [name])
  {
    assert (busy + [name])[..|busy|] == busy;
  }

  /** The expansion of a text while the busy names are being expanded. */
  function Expand(tab: Table, busy: seq<Text>, t: Text, cap: nat): Out
    requires |busy| <= cap && Nested(tab, busy)
    decreases cap - |busy|, |t|, 3, 0
  {
    if t == "" then Out("", [])
    else
      var n := Piece(t);
      if IsStart(t[0]) then
        var step := AtName(tab, busy, t[..n], t[n..], |t|, cap);
        Then(step.out, Expand(tab, busy, t[n + step.taken..], cap))
      else Then(Out(t[..n], []), Expand(tab, busy, t[n..], cap))
  }

  /** What a name puts out, and how much of what follows it goes with it. */
  datatype Step = Step(out: Out, taken: nat)

  function AtName(tab: Table, busy: seq<Text>, word: Text, rest: Text, ghost size: nat, cap: nat): (step: Step)
    requires |busy| <= cap && Nested(tab, busy) && |rest| < size
    ensures step.taken <= |rest|
    decreases cap - |busy|, size, 2, 0
  {
    if word !in tab || word in busy then Step(Out(word, []), 0)
    else if tab[word].params.None? then Step(ExpandMacro(tab, busy, word, [], size, cap), 0)
    else
      var c := CallAt(rest);
      match c
      case NoCall => Step(Out(word, []), 0)
      case Broken => Step(Out(word, [Unterminated(word)]), 0)
      case Call(args, taken) =>
        CallArgsAreShort(rest);
        if |args| != |tab[word].params.value| then Step(Out("", [WrongCount(word, |args|)]), taken)
        else Step(ExpandMacro(tab, busy, word, args, size, cap), taken)
  }

  /** The expansion of one macro: its arguments expanded, put in its body, and that expanded while
      the macro itself is busy. */
  function ExpandMacro(tab: Table, busy: seq<Text>, name: Text, args: seq<Text>, ghost size: nat, cap: nat): Out
    requires |busy| <= cap && Nested(tab, busy) && name in tab && name !in busy && Short(args, size)
    requires tab[name].params.Some? ==> |args| == |tab[name].params.value|
    decreases cap - |busy|, size, 1, 0
  {
    PushNests(tab, busy, name);
    if |busy| >= cap then Out("", [TooDeep(name)])
    else if tab[name].params.None? then Expand(tab, busy + [name], tab[name].body, cap)
    else
      var all := ExpandArgs(tab, busy, args, size, cap);
      var inner := Expand(tab, busy + [name], Substitute(tab[name].body, tab[name].params.value, all.texts), cap);
      Out(inner.text, all.problems + inner.problems)
  }

  datatype Outs = Outs(texts: seq<Text>, problems: seq<Problem>)

  function ExpandArgs(tab: Table, busy: seq<Text>, args: seq<Text>, ghost size: nat, cap: nat): (all: Outs)
    requires |busy| <= cap && Nested(tab, busy) && Short(args, size)
    ensures |all.texts| == |args|
    decreases cap - |busy|, size, 0, |args|
  {
    if args == [] then Outs([], [])
    else
      var first := Expand(tab, busy, args[0], cap);
      var others := ExpandArgs(tab, busy, args[1..], size, cap);
      Outs([first.text] + others.texts, first.problems + others.problems)
  }

  lemma {:induction false} NameComesFirst(tab: Table, busy: seq<Text>, t: Text, word: Text, rest: Text, last: Text, step: Step, cap: nat)
    requires |busy| <= cap && Nested(tab, busy) && t != "" && IsStart(t[0])
    requires word == t[..Piece(t)] && rest == t[Piece(t)..] && step == AtName(tab, busy, word, rest, |t|, cap)
    requires last == t[Piece(t) + step.taken..]
    ensures Expand(tab, busy, t, cap) == Then(step.out, Expand(tab, busy, last, cap))
  {
  }

  /** A first piece that names nothing to expand is put out as it is. */
  lemma {:induction false} PieceIsKept(tab: Table, busy: seq<Text>, t: Text, cap: nat)
    requires |busy| <= cap && Nested(tab, busy) && t != ""
    requires IsStart(t[0]) ==> t[..Piece(t)] !in tab || t[..Piece(t)] in busy
    ensures Expand(tab, busy, t, cap) == Then(Out(t[..Piece(t)], []), Expand(tab, busy, t[Piece(t)..], cap))
  {
    if IsStart(t[0]) {
      NameComesFirst(tab, busy, t, t[..Piece(t)], t[Piece(t)..], t[Piece(t)..], Step(Out(t[..Piece(t)], []), 0), cap);
    }
  }

  // ----- the cap -----

  /** Names nested in a table are as many different ones of its names. */
  lemma {:induction false} NestedNames(tab: Table, busy: seq<Text>) returns (names: set<Text>)
    requires Nested(tab, busy)
    ensures |names| == |busy| && names <= tab.Keys && forall name :: name in names ==> name in busy
  {
    names := {};
    if busy != [] {
      var n := |busy| - 1;
      var outer := NestedNames(tab, busy[..n]);
      names := outer + {busy[n]};
    }
  }

  lemma {:induction false} SubsetIsSmaller(a: set<Text>, b: set<Text>)
    requires a <= b
    ensures |a| <= |b|
  {
    assert b == a + (b - a);
  }

  /** A macro that is not busy leaves room for one more name. */
  lemma {:induction false} RoomForOneMore(tab: Table, busy: seq<Text>, name: Text)
    requires Nested(tab, busy) && name in tab && name !in busy
    ensures |busy| < |tab|
  {
    var names := NestedNames(tab, busy);
    SubsetIsSmaller(names + {name}, tab.Keys);
  }

  predicate NoneTooDeep(problems: seq<Problem>) {
    forall i :: 0 <= i < |problems| ==> !problems[i].TooDeep?
  }

  /** With no more macro names than the cap, nothing is ever too deep, and the cap does not show. */
  lemma {:induction false} CapIsUnobservable(tab: Table, busy: seq<Text>, t: Text, cap: nat, cap': nat)
    requires |busy| <= cap && |busy| <= cap' && Nested(tab, busy) && |tab| <= cap && |tab| <= cap'
    ensures Expand(tab, busy, t, cap) == Expand(tab, busy, t, cap')
    ensures NoneTooDeep(Expand(tab, busy, t, cap).problems)
    decreases cap - |busy|, |t|, 3, 0
  {
    if t != "" {
      var n := Piece(t);
      if IsStart(t[0]) {
        NameCapIsUnobservable(tab, busy, t[..n], t[n..], |t|, cap, cap');
        var step := AtName(tab, busy, t[..n], t[n..], |t|, cap);
        var last := t[n + step.taken..];
        CapIsUnobservable(tab, busy, last, cap, cap');
        NameComesFirst(tab, busy, t, t[..n], t[n..], last, step, cap);
        NameComesFirst(tab, busy, t, t[..n], t[n..], last, step, cap');
      } else {
        CapIsUnobservable(tab, busy, t[n..], cap, cap');
      }
    }
  }

  lemma {:induction false} NameCapIsUnobservable(tab: Table, busy: seq<Text>, word: Text, rest: Text, size: nat, cap: nat, cap': nat)
    requires |busy| <= cap && |busy| <= cap' && Nested(tab, busy) && |tab| <= cap && |tab| <= cap' && |rest| < size
    ensures AtName(tab, busy, word, rest, size, cap) == AtName(tab, busy, word, rest, size, cap')
    ensures NoneTooDeep(AtName(tab, busy, word, rest, size, cap).out.problems)
    decreases cap - |busy|, size, 2, 0
  {
    if word in tab && word !in busy {
      if tab[word].params.None? {
        MacroCapIsUnobservable(tab, busy, word, [], size, cap, cap');
      } else if CallAt(rest).Call? && |CallAt(rest).args| == |tab[word].params.value| {
        CallArgsAreShort(rest);
        MacroCapIsUnobservable(tab, busy, word, CallAt(rest).args, size, cap, cap');
      }
    }
  }

  lemma {:induction false} MacroCapIsUnobservable(tab: Table, busy: seq<Text>, name: Text, args: seq<Text>, size: nat, cap: nat, cap': nat)
    requires |busy| <= cap && |busy| <= cap' && Nested(tab, busy) && |tab| <= cap && |tab| <= cap'
    requires name in tab && name !in busy && Short(args, size)
    requires tab[name].params.Some? ==> |args| == |tab[name].params.value|
    ensures ExpandMacro(tab, busy, name, args, size, cap) == ExpandMacro(tab, busy, name, args, size, cap')
    ensures NoneTooDeep(ExpandMacro(tab, busy, name, args, size, cap).problems)
    decreases cap - |busy|, size, 1, 0
  {
    RoomForOneMore(tab, busy, name);
    PushNests(tab, busy, name);
    if tab[name].params.None? {
      CapIsUnobservable(tab, busy + [name], tab[name].body, cap, cap');
    } else {
      ArgsCapIsUnobservable(tab, busy, args, size, cap, cap');
      var all := ExpandArgs(tab, busy, args, size, cap);
      CapIsUnobservable(tab, busy + [name], Substitute(tab[name].body, tab[name].params.value, all.texts), cap, cap');
    }
  }

  lemma {:induction false} ArgsCapIsUnobservable(tab: Table, busy: seq<Text>, args: seq<Text>, size: nat, cap: nat, cap': nat)
    requires |busy| <= cap && |busy| <= cap' && Nested(tab, busy) && |tab| <= cap && |tab| <= cap'
    requires Short(args, size)
    ensures ExpandArgs(tab, busy, args, size, cap) == ExpandArgs(tab, busy, args, size, cap')
    ensures NoneTooDeep(ExpandArgs(tab, busy, args, size, cap).problems)
    decreases cap - |busy|, size, 0, |args|
  {
    if args != [] {
      CapIsUnobservable(tab, busy, args[0], cap, cap');
      ArgsCapIsUnobservable(tab, busy, args[1..], size, cap, cap');
    }
  }

  /** The k-th of a chain of names. */
  function Name(k: nat): (name: Text)
    ensures |name| == k + 1 && forall i :: 0 <= i < |name| ==> name[i] == 'a'
  {
    seq(k + 1, _ => 'a')
  }

  /** Macros of which each expands to the next. */
  function Chain(n: nat): (tab: Table)
    ensures |tab| == n && (forall k: nat :: Name(k) in tab <==> k < n)
    ensures forall k: nat :: k < n ==> tab[Name(k)] == Macro(Name(k + 1), None)
  {
    if n == 0 then map[] else Chain(n - 1)[Name(n - 1) := Macro(Name(n), None)]
  }

  lemma {:induction false} ChainGoesOn(cap: nat, busy: seq<Text>)
    requires |busy| <= cap && Nested(Chain(cap + 1), busy) && Name(|busy|) !in busy
    requires forall k :: 0 <= k < |busy| ==> busy[k] == Name(k)
    ensures Expand(Chain(cap + 1), busy, Name(|busy|), cap).problems == [TooDeep(Name(cap))]
    decreases cap - |busy|
  {
    var tab, t := Chain(cap + 1), Name(|busy|);
    RunIs(t, IsIdent, |t|);
    assert t in tab && tab[t] == Macro(Name(|busy| + 1), None);
    LoneName(tab, busy, t, cap);
    if |busy| < cap {
      PushNests(tab, busy, t);
      ChainGoesOn(cap, busy + [t]);
    }
  }

  /** A text that is the name of a macro without parameters. */
  lemma {:induction false} LoneName(tab: Table, busy: seq<Text>, t: Text, cap: nat)
    requires |busy| <= cap && Nested(tab, busy) && t != "" && IsStart(t[0]) && Piece(t) == |t|
    requires t in tab && t !in busy && tab[t].params.None?
    ensures Expand(tab, busy, t, cap).problems
            == if |busy| >= cap then [TooDeep(t)]
               else (PushNests(tab, busy, t); Expand(tab, busy + [t], tab[t].body, cap).problems)
  {
    assert t[..|t|] == t && t[|t|..] == "";
    NameComesFirst(tab, busy, t, t, "", "", AtName(tab, busy, t, "", |t|, cap), cap);
    assert Expand(tab, busy, "", cap) == Out("", []);
  }

  /** One macro name more than the cap can be too many. */
  lemma {:induction false} CapIsTight(cap: nat)
    ensures |Chain(cap + 1)| == cap + 1
    ensures Expand(Chain(cap + 1), [], Name(0), cap).problems == [TooDeep(Name(cap))]
  {
    ChainGoesOn(cap, []);
  }

  /** In numbers: 64 macro names never nest too deep, 65 can. */
  lemma {:induction false} SixtyFourNames(tab: Table, t: Text, n: nat)
    requires n == MAX_EXPAND_DEPTH
    ensures n == 64
    ensures |tab| <= n ==> NoneTooDeep(Expand(tab, [], t, n).problems)
    ensures |Chain(n + 1)| == n + 1 && Expand(Chain(n + 1), [], Name(0), n).problems == [TooDeep(Name(n))]
  {
    if |tab| <= n {
      CapIsUnobservable(tab, [], t, n, n);
    }
    CapIsTight(n);
  }

  // ----- what expansion leaves alone -----

  /** No piece of the text is the name of a macro that may be expanded. */
  predicate Inert(tab: Table, busy: seq<Text>, t: Text) {
    if t == "" then true
    else
      var n := Piece(t);
      (!IsStart(t[0]) || t[..n] !in tab || t[..n] in busy) && Inert(tab, busy, t[n..])
  }

  /** Text without such names is put out unchanged, strings, numbers and all. */
  lemma {:induction false} InertIsUnchanged(tab: Table, busy: seq<Text>, t: Text, cap: nat)
    requires |busy| <= cap && Nested(tab, busy) && Inert(tab, busy, t)
    ensures Expand(tab, busy, t, cap) == Out(t, [])
    decreases |t|
  {
    if t != "" {
      InertStep(tab, busy, t, Piece(t));
      InertIsUnchanged(tab, busy, t[Piece(t)..], cap);
      PieceIsKept(tab, busy, t, cap);
      PutTogether(t, Piece(t));
    }
  }

  lemma {:induction false} InertStep(tab: Table, busy: seq<Text>, t: Text, n: nat)
    requires t != "" && n == Piece(t) && Inert(tab, busy, t)
    ensures Inert(tab, busy, t[n..]) && (IsStart(t[0]) ==> t[..n] !in tab || t[..n] in busy)
  {
  }

  lemma {:induction false} PutTogether(t: Text, n: nat)
    requires n <= |t|
    ensures Then(Out(t[..n], []), Out(t[n..], [])) == Out(t, [])
  {
    assert t == t[..n] + t[n..];
  }
}
