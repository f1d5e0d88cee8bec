/** The macro expander at work: scans with an index, a stack of the names being expanded. */
module MacroExpander {
  import opened Ir
  import opened MacroText
  import opened Macros

  method ScanWhile(text: Text, start: nat, ok: char -> bool) returns (i: nat)
    requires start <= |text|
    ensures i == start + Run(text[start..], ok)
  {
    i := start;
    while i < |text| && ok(text[i])
      invariant start <= i <= |text|
      invariant start + Run(text[start..], ok) == i + Run(text[i..], ok)
    {
      assert text[i..][1..] == text[i + 1..];
      i := i + 1;
    }
  }

  /** Past the string literal whose opening quote is at start. */
  method ScanString(text: Text, start: nat) returns (i: nat)
    requires start < |text|
    ensures i == start + 1 + Quoted(text[start + 1..])
  {
    i := start + 1;
    while i < |text| && text[i] != '"'
      invariant start < i <= |text|
      invariant start + 1 + Quoted(text[start + 1..]) == i + Quoted(text[i..])
    {
      assert text[i..][1..] == text[i + 1..];
      if text[i] == '\\' && i + 1 < |text| {
        assert text[i..][2..] == text[i + 2..];
        i := i + 1;
      }
      i := i + 1;
    }
    if i < |text| {
      i := i + 1;
    }
  }

  /** The argument list whose parenthesis is at start: how many arguments, as many of them as are
      kept, and where the list ends. */
  method ParseArgs(text: Text, start: nat, max: nat) returns (ok: bool, args: seq<Text>, count: nat, end: nat)
    requires start < |text|
    ensures ok <==> RawArgs(text[start + 1..], 1, "").Some?
    ensures ok ==> var list := RawArgs(text[start + 1..], 1, "").value;
                   end == start + 1 + list.size && count == |Args(list.raw)|
                   && args == Args(list.raw)[..if count < max then count else max]
    ensures !ok ==> end == start
  {
    ghost var goal := RawArgs(text[start + 1..], 1, "");
    ghost var raw: seq<Text> := [];
    var depth: nat := 1;
    var from := start + 1;
    var i := start + 1;
    args, count := [], 0;
    assert text[from..i] == "";
    NoShift(goal);
    while i < |text| && depth > 0
      invariant start < from <= i <= |text| && count == |raw|
      invariant args == Kept(raw, max)
      invariant depth > 0 ==> goal == Shift(RawArgs(text[i..], depth, text[from..i]), raw, i - start - 1)
      invariant depth == 0 ==> from < i && goal == Some(ArgList(raw + [text[from..i - 1]], i - start - 1))
      decreases |text| - i
    {
      ScanStep(text, from, i, depth, raw, i - start - 1);
      if text[i] == '(' {
        depth := depth + 1;
      } else if text[i] == ')' {
        depth := depth - 1;
      } else if text[i] == ',' && depth == 1 {
        args := Keep(args, count, max, text[from..i], raw);
        raw := raw + [text[from..i]];
        count := count + 1;
        from := i + 1;
      }
      i := i + 1;
    }
    if depth > 0 {
      return false, args, count, start;
    }
    ok, end := true, i;
    if count > 0 || |Trim(text[from..i - 1])| > 0 {
      args := Keep(args, count, max, text[from..i - 1], raw);
      count := count + 1;
    }
  }

  method Keep(args: seq<Text>, count: nat, max: nat, arg: Text, ghost raw: seq<Text>) returns (kept: seq<Text>)
    requires count == |raw| && args == Kept(raw, max)
    ensures kept == Kept(raw + [arg], max)
  {
    KeepArg(raw, arg, max);
    kept := if count < max then args + [Trim(arg)] else args;
  }

  /** Keeping an argument while there is room keeps the prefix of all of them. */
  lemma {:induction false} KeepArg(raw: seq<Text>, last: Text, max: nat)
    ensures Kept(raw + [last], max) == if |raw| < max then Kept(raw, max) + [Trim(last)] else Kept(raw, max)
  {
    assert Trims(raw + [last]) == Trims(raw) + [Trim(last)];
  }

  /** As many of the arguments as are kept. */
  function Kept(raw: seq<Text>, max: nat): seq<Text> {
    Trims(raw)[..if |raw| < max then |raw| else max]
  }

  /** One character further. */
  lemma {:induction false} ScanStep(text: Text, from: nat, i: nat, depth: nat, raw: seq<Text>, more: nat)
    requires from <= i < |text| && depth > 0
    ensures var before := Shift(RawArgs(text[i..], depth, text[from..i]), raw, more);
            var deeper := if text[i] == '(' then depth + 1 else if text[i] == ')' then depth - 1 else depth;
            if deeper == 0 then before == Some(ArgList(raw + [text[from..i]], more + 1))
            else if text[i] == ',' && depth == 1 then
              before == Shift(RawArgs(text[i + 1..], 1, text[i + 1..i + 1]), raw + [text[from..i]], more + 1)
            else before == Shift(RawArgs(text[i + 1..], deeper, text[from..i + 1]), raw, more + 1)
  {
    var deeper := if text[i] == '(' then depth + 1 else if text[i] == ')' then depth - 1 else depth;
    assert text[i..][1..] == text[i + 1..];
    if deeper > 0 && text[i] == ',' && depth == 1 {
      assert text[i + 1..i + 1] == "";
      ShiftOnto(RawArgs(text[i + 1..], 1, ""), raw, [text[from..i]], more);
    } else if deeper > 0 {
      assert text[from..i] + [text[i]] == text[from..i + 1];
      ShiftOnto(RawArgs(text[i + 1..], deeper, text[from..i + 1]), raw, [], more);
      assert raw + [] == raw;
    }
  }

  lemma {:induction false} ShiftOnto(list: Option<ArgList>, raw: seq<Text>, first: seq<Text>, more: nat)
    ensures Shift(Shift(list, first, 1), raw, more) == Shift(list, raw + first, more + 1)
  {
    if list.Some? {
      assert raw + (first + list.value.raw) == raw + first + list.value.raw;
    }
  }

  method SubstituteArgs(body: Text, params: seq<Text>, args: seq<Text>) returns (subst: Text)
    requires |args| == |params|
    ensures subst == Substitute(body, params, args)
  {
    subst := "";
    var i := 0;
    assert body[0..] == body;
    while i < |body|
      invariant i <= |body|
      invariant Substitute(body, params, args) == subst + Substitute(body[i..], params, args)
    {
      var piece, next := SubstituteNext(body, i, params, args);
      Reassociate(subst, piece, Substitute(body[next..], params, args));
      subst, i := subst + piece, next;
    }
    assert body[i..] == "";
  }

  /** What stands for the name, or the character, at start. */
  method SubstituteNext(body: Text, start: nat, params: seq<Text>, args: seq<Text>) returns (piece: Text, next: nat)
    requires |args| == |params| && start < |body|
    ensures start < next <= |body|
    ensures Substitute(body[start..], params, args) == piece + Substitute(body[next..], params, args)
  {
    if IsStart(body[start]) {
      next := ScanWhile(body, start, IsIdent);
      var ident := body[start..next];
      var param := FindParam(params, ident);
      piece := if param >= 0 then args[param] else ident;
      assert body[start..] == ident + body[next..];
      NameReplaced(body[start..], ident, body[next..], params, args);
    } else {
      piece, next := [body[start]], start + 1;
      assert body[start..][1..] == body[next..];
    }
  }

  lemma {:induction false} NameReplaced(t: Text, ident: Text, rest: Text, params: seq<Text>, args: seq<Text>)
    requires |args| == |params| && t != "" && IsStart(t[0]) && t == ident + rest && |ident| == Run(t, IsIdent)
    ensures Substitute(t, params, args) == Actual(ident, params, args) + Substitute(rest, params, args)
  {
    assert t[..|ident|] == ident && t[|ident|..] == rest;
  }

  method FindParam(params: seq<Text>, ident: Text) returns (param: int)
    ensures param == if ParamIndex(params, ident).Some? then ParamIndex(params, ident).value else -1
  {
    var k := 0;
    while k < |params|
      invariant k <= |params| && ident !in params[..k]
    {
      if params[k] == ident {
        return k;
      }
      k := k + 1;
    }
    return -1;
  }

  class Expander {
    var macros: Table
    var expanding: seq<Text>
    var problems: seq<Problem>

    constructor (macros: Table)
      ensures this.macros == macros && expanding == [] && problems == []
    {
      this.macros, expanding, problems := macros, [], [];
    }

    ghost predicate Valid()
      reads this
    {
      |expanding| <= MAX_EXPAND_DEPTH && Nested(macros, expanding)
      && forall m :: m in macros && macros[m].params.Some? ==> |macros[m].params.value| <= MAX_ARGS
    }

    /** The expansion of the text; the stack of names is back as it was. */
    method ExpandText(text: Text) returns (out: Text)
      requires Valid()
      modifies this`expanding, this`problems
      ensures Valid() && expanding == old(expanding)
      ensures var r := Expand(macros, expanding, text, MAX_EXPAND_DEPTH);
              out == r.text && problems == old(problems) + r.problems
      decreases MAX_EXPAND_DEPTH - |expanding|, |text|, 3, 0
    {
      out := "";
      var i := 0;
      ghost var found: seq<Problem> := [];
      assert text[0..] == text;
      while i < |text|
        invariant i <= |text| && Valid() && expanding == old(expanding) && problems == old(problems) + found
        invariant Expand(macros, expanding, text, MAX_EXPAND_DEPTH)
                  == Then(Out(out, found), Expand(macros, expanding, text[i..], MAX_EXPAND_DEPTH))
      {
        var start := i;
        var piece: Text;
        ghost var more: seq<Problem>;
        var end := ScanPiece(text, start);
        if IsStart(text[start]) {
          piece, i, more := ExpandName(text, start, end);
          AfterNameAt(macros, expanding, text, start, end, i, Out(piece, more),
                      text[start..], text[start..end], text[end..], text[i..], MAX_EXPAND_DEPTH);
        } else {
          piece, i, more := text[start..end], end, [];
          Cut(text, start, end, end);
          AfterOther(macros, expanding, text[start..], piece, text[end..], MAX_EXPAND_DEPTH);
        }
        ThenAssociates(Out(out, found), Out(piece, more), Expand(macros, expanding, text[i..], MAX_EXPAND_DEPTH));
        ProblemsAssociate(old(problems), found, more);
        out, found := out + piece, found + more;
      }
      assert text[i..] == "";
    }

    /** What the name at text[start..end] puts out, with the arguments it takes along. */
    method ExpandName(text: Text, start: nat, end: nat) returns (piece: Text, next: nat, ghost more: seq<Problem>)
      requires Valid() && start < end <= |text|
      modifies this`expanding, this`problems
      ensures Valid() && expanding == old(expanding) && end <= next <= |text| && problems == old(problems) + more
      ensures AtName(macros, expanding, text[start..end], text[end..], |text| - start, MAX_EXPAND_DEPTH)
              == Step(Out(piece, more), next - end)
      decreases MAX_EXPAND_DEPTH - |expanding|, |text| - start, 2, 0
    {
      var ident := text[start..end];
      piece, next, more := ident, end, [];
      if ident !in macros || ident in expanding {
        return;
      }
      var macro := macros[ident];
      if macro.params.None? {
        piece, more := ExpandOne(ident, [], |text| - start);
        return;
      }
      piece, next, more := ExpandCall(text, end, ident, |text| - start);
    }

    /** What the name of a macro with parameters puts out, the text going on at end. */
    method ExpandCall(text: Text, end: nat, ident: Text, ghost size: nat) returns (piece: Text, next: nat, ghost more: seq<Problem>)
      requires Valid() && end <= |text| && |text| - end < size && ident in macros && ident !in expanding
      requires macros[ident].params.Some?
      modifies this`expanding, this`problems
      ensures Valid() && expanding == old(expanding) && end <= next <= |text| && problems == old(problems) + more
      ensures AtName(macros, expanding, ident, text[end..], size, MAX_EXPAND_DEPTH) == Step(Out(piece, more), next - end)
      decreases MAX_EXPAND_DEPTH - |expanding|, size, 1, 1
    {
      ghost var rest := text[end..];
      piece, next, more := ident, end, [];
      var peek := ScanWhile(text, end, IsHSpace);
      if peek >= |text| || text[peek] != '(' {
        return;
      }
      var ok, args, count, after := ParseArgs(text, peek, MAX_ARGS);
      CallIs(text, end, peek, rest);
      if !ok {
        problems, more := problems + [Unterminated(ident)], [Unterminated(ident)];
        return;
      }
      next := after;
      if count != |macros[ident].params.value| {
        problems, more, piece := problems + [WrongCount(ident, count)], [WrongCount(ident, count)], "";
        return;
      }
      CallArgsAreShort(rest);
      assert args == CallAt(rest).args;
      piece, more := ExpandOne(ident, args, size);
    }

    /** The expansion of a macro with these arguments. */
    method ExpandOne(name: Text, args: seq<Text>, ghost size: nat) returns (out: Text, ghost more: seq<Problem>)
      requires Valid() && name in macros && name !in expanding && Short(args, size)
      requires macros[name].params.Some? ==> |args| == |macros[name].params.value|
      modifies this`expanding, this`problems
      ensures Valid() && expanding == old(expanding) && problems == old(problems) + more
      ensures Out(out, more) == ExpandMacro(macros, expanding, name, args, size, MAX_EXPAND_DEPTH)
      decreases MAX_EXPAND_DEPTH - |expanding|, size, 1, 0
    {
      if |expanding| >= MAX_EXPAND_DEPTH {
        problems := problems + [TooDeep(name)];
        return "", [TooDeep(name)];
      }
      var body := macros[name].body;
      more := [];
      if macros[name].params.Some? {
        var expanded := ExpandEach(args, size);
        more := ExpandArgs(macros, expanding, args, size, MAX_EXPAND_DEPTH).problems;
        body := SubstituteArgs(body, macros[name].params.value, expanded);
      }
      ghost var before := expanding;
      PushNests(macros, expanding, name);
      expanding := expanding + [name];
      ghost var inner := Expand(macros, expanding, body, MAX_EXPAND_DEPTH).problems;
      ProblemsAssociate(old(problems), more, inner);
      more := more + inner;
      out := ExpandText(body);
      expanding := expanding[..|expanding| - 1];
      assert expanding == before;
    }

    method ExpandEach(args: seq<Text>, ghost size: nat) returns (texts: seq<Text>)
      requires Valid() && Short(args, size)
      modifies this`expanding, this`problems
      ensures Valid() && expanding == old(expanding)
      ensures var all := ExpandArgs(macros, expanding, args, size, MAX_EXPAND_DEPTH);
              texts == all.texts && problems == old(problems) + all.problems
      decreases MAX_EXPAND_DEPTH - |expanding|, size, 0, |args|
    {
      texts := [];
      ghost var found: seq<Problem> := [];
      assert args[0..] == args;
      for a := 0 to |args|
        invariant Valid() && expanding == old(expanding) && |texts| == a && problems == old(problems) + found
        invariant var all := ExpandArgs(macros, expanding, args, size, MAX_EXPAND_DEPTH);
                  var rest := ExpandArgs(macros, expanding, args[a..], size, MAX_EXPAND_DEPTH);
                  all == Outs(texts + rest.texts, found + rest.problems)
      {
        assert args[a..][0] == args[a] && args[a..][1..] == args[a + 1..];
        var text := ExpandText(args[a]);
        ghost var more := Expand(macros, expanding, args[a], MAX_EXPAND_DEPTH).problems;
        ghost var rest := ExpandArgs(macros, expanding, args[a + 1..], size, MAX_EXPAND_DEPTH);
        ProblemsAssociate(old(problems), found, more);
        OutsAssociate(texts, found, text, more, rest);
        found := found + more;
        texts := texts + [text];
      }
      assert args[|args|..] == [];
    }
  }

  method ScanPiece(text: Text, start: nat) returns (end: nat)
    requires start < |text|
    ensures end == start + Piece(text[start..]) <= |text|
  {
    var c := text[start];
    assert text[start..][1..] == text[start + 1..];
    if c == '"' {
      end := ScanString(text, start);
    } else if IsDigit(c) {
      end := ScanWhile(text, start, IsNumber);
    } else if IsStart(c) {
      end := ScanWhile(text, start, IsIdent);
    } else {
      end := ScanWhile(text, start + 1, IsOther);
    }
  }

  lemma {:induction false} CallIs(text: Text, end: nat, peek: nat, rest: Text)
    requires end <= peek < |text| && rest == text[end..]
    requires peek == end + Run(rest, IsHSpace) && text[peek] == '('
    ensures var list := RawArgs(text[peek + 1..], 1, "");
            CallAt(rest) == if list.None? then Broken else Call(Args(list.value.raw), peek + 1 + list.value.size - end)
  {
    assert rest[peek - end + 1..] == text[peek + 1..];
  }

  lemma {:induction false} Cut(text: Text, start: nat, end: nat, next: nat)
    requires start <= end <= next <= |text|
    ensures text[start..][..end - start] == text[start..end] && text[start..][end - start..] == text[end..]
    ensures text[start..][next - start..] == text[next..]
  {
  }

  lemma {:induction false} AfterNameAt(tab: Table, busy: seq<Text>, text: Text, start: nat, end: nat, next: nat, out: Out,
                                       t: Text, word: Text, rest: Text, last: Text, cap: nat)
    requires |busy| <= cap && Nested(tab, busy) && start < end <= next <= |text|
    requires IsStart(text[start]) && t == text[start..] && end == start + Piece(t) && word == text[start..end] && rest == text[end..] && last == text[next..]
    requires AtName(tab, busy, word, rest, |t|, cap) == Step(out, next - end)
    ensures Expand(tab, busy, t, cap) == Then(out, Expand(tab, busy, last, cap))
  {
    NameComesFirst(tab, busy, t, word, rest, last, Step(out, next - end), cap);
  }

  lemma {:induction false} AfterOther(tab: Table, busy: seq<Text>, t: Text, piece: Text, last: Text, cap: nat)
    requires |busy| <= cap && Nested(tab, busy) && t != "" && !IsStart(t[0])
    requires piece == t[..Piece(t)] && last == t[Piece(t)..]
    ensures Expand(tab, busy, t, cap) == Then(Out(piece, []), Expand(tab, busy, last, cap))
  {
  }

  lemma {:induction false} OutsAssociate(texts: seq<Text>, found: seq<Problem>, text: Text, more: seq<Problem>, rest: Outs)
    ensures Outs(texts + ([text] + rest.texts), found + (more + rest.problems))
            == Outs(texts + [text] + rest.texts, found + more + rest.problems)
  {
    assert texts + ([text] + rest.texts) == texts + [text] + rest.texts;
    ProblemsAssociate(found, more, rest.problems);
  }

  lemma {:induction false} ProblemsAssociate(a: seq<Problem>, b: seq<Problem>, c: seq<Problem>)
    ensures a + b + c == a + (b + c)
  {
  }

  lemma {:induction false} ThenAssociates(a: Out, b: Out, c: Out)
    ensures Then(a, Then(b, c)) == Then(Then(a, b), c)
  {
    assert a.text + (b.text + c.text) == a.text + b.text + c.text;
    assert a.problems + (b.problems + c.problems) == a.problems + b.problems + c.problems;
  }
}
