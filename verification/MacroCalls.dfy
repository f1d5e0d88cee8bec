/** What a call of a macro stands for: its body with each argument where the parameter of the same
    position stands. */
module MacroCalls {
  import opened Ir
  import opened MacroText
  import opened MacroPieces
  import opened Macros

  // ----- bodies, as text and parameters by position -----

  datatype Part = Words(text: Text) | Param(index: nat)

  predicate IsName(t: Text) {
    t != "" && IsStart(t[0]) && forall k :: 0 <= k < |t| ==> IsIdent(t[k])
  }

  /** Names, no two the same. */
  predicate AreParams(params: seq<Text>) {
    (forall i :: 0 <= i < |params| ==> IsName(params[i])) &&
    forall i, j :: 0 <= i < j < |params| ==> params[i] != params[j]
  }

  predicate InBounds(parts: seq<Part>, n: nat) {
    forall i :: 0 <= i < |parts| ==> parts[i].Param? ==> parts[i].index < n
  }

  /** The parts with these texts at the parameters. */
  function Filled(parts: seq<Part>, texts: seq<Text>): Text
    requires InBounds(parts, |texts|)
  {
    if parts == [] then "" else FilledPart(parts[0], texts) + Filled(parts[1..], texts)
  }

  function FilledPart(part: Part, texts: seq<Text>): Text
    requires part.Param? ==> part.index < |texts|
  {
    match part
    case Words(t) => t
    case Param(i) => texts[i]
  }

  /** How far substitution gets at once: a name, or one character. */
  function Unit(t: Text): (n: nat)
    requires t != ""
    ensures 0 < n <= |t|
  {
    if IsStart(t[0]) then Run(t, IsIdent) else 1
  }

  /** Reading a and then b, a name ends where a does. */
  predicate Cut(a: Text, b: Text)
    decreases |a|
  {
    a == "" || (Unit(a + b) <= |a| && Cut(a[Unit(a + b)..], b))
  }

  lemma {:induction false} SubstituteCuts(a: Text, b: Text, params: seq<Text>, args: seq<Text>)
    requires |args| == |params| && Cut(a, b)
    ensures Substitute(a + b, params, args) == Substitute(a, params, args) + Substitute(b, params, args)
    decreases |a|
  {
    if a == "" {
      assert a + b == b;
    } else {
      var n := Unit(a + b);
      assert (a + b)[..n] == a[..n] && (a + b)[n..] == a[n..] + b;
      SubstituteCuts(a[n..], b, params, args);
      if IsStart(a[0]) {
        assert forall k :: 0 <= k < n ==> a[k] == (a + b)[k];
        RunCut(a, b, n);
        Reassociate(Actual(a[..n], params, args), Substitute(a[n..], params, args), Substitute(b, params, args));
      } else {
        Reassociate([a[0]], Substitute(a[1..], params, args), Substitute(b, params, args));
      }
    }
  }

  lemma {:induction false} RunCut(a: Text, b: Text, n: nat)
    requires Run(a + b, IsIdent) == n <= |a|
    ensures Run(a, IsIdent) == n
  {
    assert forall k :: 0 <= k < |a| ==> (a + b)[k] == a[k];
    RunIs(a, IsIdent, n);
  }

  /** Written with the parameters' names, the parts are told apart: no other name is a parameter, and
      no name runs over from one part into the next. */
  predicate Readable(parts: seq<Part>, params: seq<Text>)
    requires InBounds(parts, |params|)
  {
    parts == [] || (
      && (parts[0].Words? ==> NamesNone(parts[0].text, params))
      && Cut(FilledPart(parts[0], params), Filled(parts[1..], params))
      && Readable(parts[1..], params))
  }

  lemma {:induction false} NameIsRun(name: Text)
    requires IsName(name)
    ensures Run(name, IsIdent) == |name|
  {
    RunIs(name, IsIdent, |name|);
  }

  lemma {:induction false} OwnArgument(params: seq<Text>, args: seq<Text>, i: nat)
    requires AreParams(params) && i < |params| == |args|
    ensures Substitute(params[i], params, args) == args[i]
  {
    var name := params[i];
    NameIsRun(name);
    assert name[..|name|] == name && name[|name|..] == "";
    SameIndex(params, i, ParamIndex(params, name).value);
    assert Substitute("", params, args) == "";
  }

  lemma {:induction false} SameIndex(params: seq<Text>, i: nat, k: nat)
    requires AreParams(params) && i < |params| && k < |params| && params[k] == params[i]
    ensures k == i
  {
  }

  /** A body so written becomes the same parts with the arguments at their parameters. */
  lemma {:induction false} SubstituteFills(parts: seq<Part>, params: seq<Text>, args: seq<Text>)
    requires AreParams(params) && |args| == |params| && InBounds(parts, |params|) && Readable(parts, params)
    ensures Substitute(Filled(parts, params), params, args) == Filled(parts, args)
    decreases |parts|
  {
    if parts != [] {
      SubstituteCuts(FilledPart(parts[0], params), Filled(parts[1..], params), params, args);
      SubstituteFills(parts[1..], params, args);
      match parts[0]
      case Words(t) => NoneSubstituted(t, params, args);
      case Param(i) => OwnArgument(params, args, i);
    }
  }

  // ----- and every body is written so -----

  /** The parts of a body. */
  function PartsOf(body: Text, params: seq<Text>): (parts: seq<Part>)
    ensures InBounds(parts, |params|)
    decreases |body|
  {
    if body == "" then [] else [HeadOf(body, params)] + PartsOf(body[Unit(body)..], params)
  }

  /** The first of them. */
  function HeadOf(body: Text, params: seq<Text>): (part: Part)
    requires body != ""
    ensures part.Param? ==> part.index < |params|
  {
    var t := body[..Unit(body)];
    var k := ParamIndex(params, t);
    if IsStart(body[0]) && k.Some? then Param(k.value) else Words(t)
  }

  lemma {:induction false} BodyIsFilled(body: Text, params: seq<Text>)
    ensures Filled(PartsOf(body, params), params) == body
    ensures Readable(PartsOf(body, params), params)
    decreases |body|
  {
    if body != "" {
      var n := Unit(body);
      BodyIsFilled(body[n..], params);
      FirstPart(body, params, n);
      OnePartMore(HeadOf(body, params), PartsOf(body[n..], params), params, body, n);
    }
  }

  lemma {:induction false} OnePartMore(head: Part, rest: seq<Part>, params: seq<Text>, body: Text, n: nat)
    requires InBounds(rest, |params|) && (head.Param? ==> head.index < |params|) && n <= |body|
    requires FilledPart(head, params) == body[..n] && Filled(rest, params) == body[n..] && Readable(rest, params)
    requires (head.Words? ==> NamesNone(head.text, params)) && Cut(body[..n], body[n..])
    ensures InBounds([head] + rest, |params|)
    ensures Filled([head] + rest, params) == body && Readable([head] + rest, params)
  {
    assert ([head] + rest)[1..] == rest;
  }

  lemma {:induction false} FirstPart(body: Text, params: seq<Text>, n: nat)
    requires body != "" && n == Unit(body)
    ensures FilledPart(HeadOf(body, params), params) == body[..n] && Cut(body[..n], body[n..])
    ensures HeadOf(body, params).Words? ==> NamesNone(body[..n], params)
  {
    var t := body[..n];
    assert t + body[n..] == body && t[n..] == "";
    if IsStart(body[0]) {
      RunIs(t, IsIdent, n);
      assert t[..n] == t;
    }
  }

  // ----- calls in a text -----

  /** The text up to here is read piece by piece and names nothing that may be expanded. */
  predicate Passed(tab: Table, busy: seq<Text>, before: Text, t: Text)
    decreases |before|
  {
    before == "" ||
    (var n := Piece(before + t);
     && n <= |before| && (IsStart(before[0]) ==> before[..n] !in tab || before[..n] in busy)
     && Passed(tab, busy, before[n..], t))
  }

  lemma {:induction false} PassedIsKept(tab: Table, busy: seq<Text>, before: Text, t: Text, cap: nat)
    requires |busy| <= cap && Nested(tab, busy) && Passed(tab, busy, before, t)
    ensures Expand(tab, busy, before + t, cap) == Then(Out(before, []), Expand(tab, busy, t, cap))
    decreases |before|
  {
    if before == "" {
      assert before + t == t;
      NothingBefore(Expand(tab, busy, t, cap));
    } else {
      var n := Piece(before + t);
      PassedIsKept(tab, busy, before[n..], t, cap);
      CutText(before, t, n);
      PieceIsKept(tab, busy, before + t, cap);
      OutsJoin(before[..n], before[n..], Expand(tab, busy, t, cap));
    }
  }

  lemma {:induction false} CutText(a: Text, b: Text, n: nat)
    requires n <= |a|
    ensures (a + b)[..n] == a[..n] && (a + b)[n..] == a[n..] + b && a == a[..n] + a[n..]
  {
  }

  lemma {:induction false} NothingBefore(o: Out)
    ensures Then(Out("", []), o) == o
  {
    assert "" + o.text == o.text && [] + o.problems == o.problems;
  }

  lemma {:induction false} OutsJoin(a: Text, b: Text, o: Out)
    ensures Then(Out(a, []), Then(Out(b, []), o)) == Then(Out(a + b, []), o)
  {
    Reassociate(a, b, o.text);
    assert [] + ([] + o.problems) == [] + o.problems;
  }

  /** The written arguments count as n: a single blank one counts as none. */
  ghost predicate Supplies(raw: seq<Text>, n: nat) {
    AllFlat(raw) && if n == 0 then |raw| == 1 && Trim(raw[0]) == "" else |raw| == n && (n == 1 ==> Trim(raw[0]) != "")
  }

  /** The arguments expanded where the call stands. */
  ghost function Expanded(tab: Table, busy: seq<Text>, raw: seq<Text>, n: nat, cap: nat): (texts: seq<Text>)
    requires |busy| <= cap && Nested(tab, busy) && n <= |raw|
    ensures |texts| == n && forall i :: 0 <= i < n ==> texts[i] == Expand(tab, busy, Trim(raw[i]), cap).text
  {
    seq(n, i requires 0 <= i < n => Expand(tab, busy, Trim(raw[i]), cap).text)
  }

  /** The texts are the arguments, expanded. */
  ghost predicate ExpandTo(tab: Table, busy: seq<Text>, args: seq<Text>, texts: seq<Text>, cap: nat)
    requires |busy| <= cap && Nested(tab, busy)
  {
    |args| == |texts| && forall i {:trigger texts[i]} :: 0 <= i < |texts| ==> texts[i] == Expand(tab, busy, args[i], cap).text
  }

  lemma {:induction false} SuppliedTexts(tab: Table, busy: seq<Text>, raw: seq<Text>, n: nat, cap: nat)
    requires |busy| <= cap && Nested(tab, busy) && Supplies(raw, n) && n <= |raw|
    ensures |Args(raw)| == n && ExpandTo(tab, busy, Args(raw), Expanded(tab, busy, raw, n, cap), cap)
  {
    SuppliedArgs(raw, n);
  }

  lemma {:induction false} EachExpanded(tab: Table, busy: seq<Text>, args: seq<Text>, size: nat, cap: nat, i: nat)
    requires |busy| <= cap && Nested(tab, busy) && Short(args, size) && i < |args|
    ensures ExpandArgs(tab, busy, args, size, cap).texts[i] == Expand(tab, busy, args[i], cap).text
    decreases |args|
  {
    if i > 0 {
      EachExpanded(tab, busy, args[1..], size, cap, i - 1);
    }
  }

  lemma {:induction false} SuppliedArgs(raw: seq<Text>, n: nat)
    requires Supplies(raw, n)
    ensures |Args(raw)| == n <= |raw| && forall i :: 0 <= i < n ==> Args(raw)[i] == Trim(raw[i])
  {
  }

  /** What follows the name of a call. */
  function Tail(gap: Text, raw: seq<Text>, rest: Text): Text
    requires |raw| > 0
  {
    gap + ("(" + (Listed(raw) + rest))
  }

  lemma {:induction false} CallIsRead(gap: Text, raw: seq<Text>, rest: Text)
    requires |raw| > 0 && AllFlat(raw) && forall k :: 0 <= k < |gap| ==> IsHSpace(gap[k])
    ensures var c := CallAt(Tail(gap, raw, rest));
            c.Call? && c.args == Args(raw) && Tail(gap, raw, rest)[c.size..] == rest
  {
    var inner := Listed(raw) + rest;
    var t := Tail(gap, raw, rest);
    assert t[|gap|] == '(' && t[|gap| + 1..] == inner;
    RunIs(t, IsHSpace, |gap|);
    ListedIsRead(raw, rest);
    assert t[|gap| + 1 + |Listed(raw)|..] == inner[|Listed(raw)|..] == rest;
  }

  /** The name of the call is read up to the gap or the parenthesis. */
  lemma {:induction false} NameIsRead(name: Text, tail: Text)
    requires IsName(name) && tail != "" && !IsIdent(tail[0])
    ensures Piece(name + tail) == |name| && (name + tail)[..|name|] == name && (name + tail)[|name|..] == tail
  {
    var t := name + tail;
    assert forall k :: 0 <= k < |name| ==> t[k] == name[k];
    RunIs(t, IsIdent, |name|);
  }

  /** A call puts out the macro's body with the i-th argument, expanded, at the i-th parameter, that
      expanded in turn while the macro is busy; then what follows the call. */
  lemma {:induction false} CallExpands(tab: Table, busy: seq<Text>, name: Text, params: seq<Text>, parts: seq<Part>,
                                       gap: Text, raw: seq<Text>, rest: Text, cap: nat)
    requires |busy| < cap && Nested(tab, busy) && IsName(name) && name !in busy
    requires AreParams(params) && InBounds(parts, |params|) && Readable(parts, params)
    requires name in tab && tab[name] == Macro(Filled(parts, params), Some(params))
    requires Supplies(raw, |params|) && forall k :: 0 <= k < |gap| ==> IsHSpace(gap[k])
    ensures (PushNests(tab, busy, name);
             Expand(tab, busy, name + Tail(gap, raw, rest), cap).text ==
               Expand(tab, busy + [name], Filled(parts, Expanded(tab, busy, raw, |params|, cap)), cap).text +
               Expand(tab, busy, rest, cap).text)
  {
    var tail := Tail(gap, raw, rest);
    CallIsRead(gap, raw, rest);
    SuppliedTexts(tab, busy, raw, |params|, cap);
    NameIsRead(name, tail);
    CallArgsAreShort(tail);
    JoinCall(tab, busy, name, params, parts, tail, Args(raw), Expanded(tab, busy, raw, |params|, cap), rest, |name + tail|, cap);
  }

  lemma {:induction false} JoinCall(tab: Table, busy: seq<Text>, name: Text, params: seq<Text>, parts: seq<Part>, tail: Text,
                                    args: seq<Text>, texts: seq<Text>, rest: Text, size: nat, cap: nat)
    requires |busy| < cap && Nested(tab, busy) && IsName(name) && name !in busy
    requires AreParams(params) && InBounds(parts, |params|) && Readable(parts, params)
    requires name in tab && tab[name] == Macro(Filled(parts, params), Some(params))
    requires |args| == |params| == |texts| && Short(args, |tail|) && size == |name + tail|
    requires ExpandTo(tab, busy, args, texts, cap)
    requires CallAt(tail).Call? && CallAt(tail).args == args && tail[CallAt(tail).size..] == rest
    requires Piece(name + tail) == |name| && (name + tail)[..|name|] == name && (name + tail)[|name|..] == tail
    ensures (PushNests(tab, busy, name);
             Expand(tab, busy, name + tail, cap).text ==
               Expand(tab, busy + [name], Filled(parts, texts), cap).text + Expand(tab, busy, rest, cap).text)
  {
    PushNests(tab, busy, name);
    var step := Step(ExpandMacro(tab, busy, name, args, size, cap), CallAt(tail).size);
    BodyIsSpliced(tab, busy, name, params, parts, args, texts, size, cap);
    CallStep(tab, busy, name, tail, args, size, cap);
    NameComesFirst(tab, busy, name + tail, name, tail, rest, step, cap);
  }

  lemma {:induction false} CallStep(tab: Table, busy: seq<Text>, name: Text, tail: Text, args: seq<Text>, size: nat, cap: nat)
    requires |busy| <= cap && Nested(tab, busy) && name in tab && name !in busy && tab[name].params.Some?
    requires CallAt(tail).Call? && CallAt(tail).args == args && |args| == |tab[name].params.value|
    requires |tail| < size && Short(args, size)
    ensures AtName(tab, busy, name, tail, size, cap) == Step(ExpandMacro(tab, busy, name, args, size, cap), CallAt(tail).size)
  {
  }

  lemma {:induction false} BodyIsSpliced(tab: Table, busy: seq<Text>, name: Text, params: seq<Text>, parts: seq<Part>,
                                         args: seq<Text>, texts: seq<Text>, size: nat, cap: nat)
    requires |busy| < cap && Nested(tab, busy) && name !in busy
    requires AreParams(params) && InBounds(parts, |params|) && Readable(parts, params)
    requires name in tab && tab[name] == Macro(Filled(parts, params), Some(params))
    requires |args| == |params| == |texts| && Short(args, size)
    requires ExpandTo(tab, busy, args, texts, cap)
    ensures (PushNests(tab, busy, name);
             ExpandMacro(tab, busy, name, args, size, cap).text == Expand(tab, busy + [name], Filled(parts, texts), cap).text)
  {
    PushNests(tab, busy, name);
    var all := ExpandArgs(tab, busy, args, size, cap);
    forall i | 0 <= i < |args|
      ensures all.texts[i] == texts[i]
    {
      EachExpanded(tab, busy, args, size, cap, i);
    }
    assert all.texts == texts;
    SubstituteFills(parts, params, texts);
  }

  /** A macro without parameters puts out its body, expanded while it is busy. */
  lemma {:induction false} ObjectExpands(tab: Table, busy: seq<Text>, name: Text, rest: Text, cap: nat)
    requires |busy| < cap && Nested(tab, busy) && IsName(name) && name !in busy
    requires name in tab && tab[name].params.None? && (rest != "" ==> !IsIdent(rest[0]))
    ensures (PushNests(tab, busy, name);
             Expand(tab, busy, name + rest, cap) ==
               Then(Expand(tab, busy + [name], tab[name].body, cap), Expand(tab, busy, rest, cap)))
  {
    PushNests(tab, busy, name);
    if rest == "" {
      assert name + rest == name && name[..|name|] == name && name[|name|..] == "";
      NameIsRun(name);
    } else {
      NameIsRead(name, rest);
    }
    var size := |name + rest|;
    NameComesFirst(tab, busy, name + rest, name, rest, rest, AtName(tab, busy, name, rest, size, cap), cap);
  }

  /** The same anywhere in a text, behind what stays as it is. */
  lemma {:induction false} CallInText(tab: Table, busy: seq<Text>, before: Text, name: Text, params: seq<Text>, parts: seq<Part>,
                                      gap: Text, raw: seq<Text>, rest: Text, cap: nat)
    requires |busy| < cap && Nested(tab, busy) && IsName(name) && name !in busy
    requires AreParams(params) && InBounds(parts, |params|) && Readable(parts, params)
    requires name in tab && tab[name] == Macro(Filled(parts, params), Some(params))
    requires Supplies(raw, |params|) && forall k :: 0 <= k < |gap| ==> IsHSpace(gap[k])
    requires Passed(tab, busy, before, name + Tail(gap, raw, rest))
    ensures (PushNests(tab, busy, name);
             Expand(tab, busy, before + (name + Tail(gap, raw, rest)), cap).text ==
               before + (Expand(tab, busy + [name], Filled(parts, Expanded(tab, busy, raw, |params|, cap)), cap).text +
                         Expand(tab, busy, rest, cap).text))
  {
    CallExpands(tab, busy, name, params, parts, gap, raw, rest, cap);
    PassedIsKept(tab, busy, before, name + Tail(gap, raw, rest), cap);
  }

  // ----- what is put out as it stands, and what is reported -----

  /** A number is one piece, names in it and all. */
  lemma {:induction false} NumbersStay(tab: Table, busy: seq<Text>, number: Text, rest: Text, cap: nat)
    requires |busy| <= cap && Nested(tab, busy)
    requires number != "" && '0' <= number[0] <= '9' && (forall k :: 0 <= k < |number| ==> IsIdent(number[k]) || number[k] == '.')
    requires rest != "" ==> !IsIdent(rest[0]) && rest[0] != '.'
    ensures Expand(tab, busy, number + rest, cap) == Then(Out(number, []), Expand(tab, busy, rest, cap))
  {
    var t := number + rest;
    assert forall k :: 0 <= k < |number| ==> t[k] == number[k];
    RunIs(t, IsNumber, |number|);
    CutText(number, rest, |number|);
    PieceIsKept(tab, busy, t, cap);
  }

  /** Inside a string literal: a backslash takes the next character along. */
  predicate IsQuoted(s: Text) {
    s == "" || (if s[0] == '\\' then |s| > 1 && IsQuoted(s[2..]) else s[0] != '"' && IsQuoted(s[1..]))
  }

  lemma {:induction false} QuotedIs(s: Text, rest: Text)
    requires IsQuoted(s)
    ensures Quoted(s + ("\"" + rest)) == |s| + 1
    decreases |s|
  {
    var t := s + ("\"" + rest);
    if s == "" {
      assert t[0] == '"';
    } else {
      var n := if s[0] == '\\' then 2 else 1;
      assert t[n..] == s[n..] + ("\"" + rest);
      QuotedIs(s[n..], rest);
    }
  }

  /** A string literal is one piece too. */
  lemma {:induction false} StringsStay(tab: Table, busy: seq<Text>, s: Text, rest: Text, cap: nat)
    requires |busy| <= cap && Nested(tab, busy) && IsQuoted(s)
    ensures Expand(tab, busy, "\"" + s + "\"" + rest, cap) == Then(Out("\"" + s + "\"", []), Expand(tab, busy, rest, cap))
  {
    var literal: Text := "\"" + s + "\"";
    var t := literal + rest;
    assert t[1..] == s + ("\"" + rest);
    QuotedIs(s, rest);
    CutText(literal, rest, |literal|);
    PieceIsKept(tab, busy, t, cap);
  }

  /** A call with another number of arguments is reported, and nothing is put out for it. */
  lemma {:induction false} WrongCountIsReported(tab: Table, busy: seq<Text>, name: Text, gap: Text, raw: seq<Text>, rest: Text, n: nat, cap: nat)
    requires |busy| <= cap && Nested(tab, busy) && IsName(name) && name !in busy
    requires name in tab && tab[name].params.Some? && |tab[name].params.value| != n
    requires Supplies(raw, n) && forall k :: 0 <= k < |gap| ==> IsHSpace(gap[k])
    ensures Expand(tab, busy, name + Tail(gap, raw, rest), cap) == Then(Out("", [WrongCount(name, n)]), Expand(tab, busy, rest, cap))
  {
    var tail := Tail(gap, raw, rest);
    CallIsRead(gap, raw, rest);
    SuppliedArgs(raw, n);
    NameIsRead(name, tail);
    var step := AtName(tab, busy, name, tail, |name + tail|, cap);
    assert step == Step(Out("", [WrongCount(name, n)]), CallAt(tail).size);
    NameComesFirst(tab, busy, name + tail, name, tail, rest, step, cap);
  }

  /** The name of a macro with parameters that no parenthesis follows is put out as it stands. */
  lemma {:induction false} NoCallStays(tab: Table, busy: seq<Text>, name: Text, gap: Text, rest: Text, cap: nat)
    requires |busy| <= cap && Nested(tab, busy) && IsName(name) && name in tab && tab[name].params.Some?
    requires (forall k :: 0 <= k < |gap| ==> IsHSpace(gap[k])) && (rest != "" ==> !IsHSpace(rest[0]) && rest[0] != '(')
    requires gap + rest != "" ==> !IsIdent((gap + rest)[0])
    ensures Expand(tab, busy, name + (gap + rest), cap) == Then(Out(name, []), Expand(tab, busy, gap + rest, cap))
  {
    var tail := gap + rest;
    if tail == "" {
      assert name + tail == name && name[..|name|] == name && name[|name|..] == "";
      NameIsRun(name);
    } else {
      NameIsRead(name, tail);
    }
    assert forall k :: 0 <= k < |gap| ==> tail[k] == gap[k];
    RunIs(tail, IsHSpace, |gap|);
    var step := AtName(tab, busy, name, tail, |name + tail|, cap);
    NameComesFirst(tab, busy, name + tail, name, tail, tail, step, cap);
  }
}
