/** Text as the macro expander scans it: pieces, argument lists, parameter substitution. */
module MacroText {
  import opened Ir

  type Text = string

  predicate IsStart(c: char) {
    'a' <= c <= 'z' || 'A' <= c <= 'Z' || c == '_'
  }

  predicate IsDigit(c: char) {
    '0' <= c <= '9'
  }

  predicate IsIdent(c: char) {
    IsStart(c) || IsDigit(c)
  }

  predicate IsNumber(c: char) {
    IsIdent(c) || c == '.'
  }

  predicate IsOther(c: char) {
    !IsIdent(c) && c != '"'
  }

  predicate IsHSpace(c: char) {
    c == ' ' || c == '\t' || c == '\r'
  }

  predicate IsSpace(c: char) {
    IsHSpace(c) || c == '\n' || c == '\U{0B}' || c == '\U{0C}'
  }

  /** The length of the longest prefix whose characters are all ok. */
  function Run(t: Text, ok: char -> bool): (n: nat)
    ensures n <= |t| && (n < |t| ==> !ok(t[n]))
    ensures forall k :: 0 <= k < n ==> ok(t[k])
  {
    if t == "" || !ok(t[0]) then 0 else 1 + Run(t[1..], ok)
  }

  lemma {:induction false} RunIs(t: Text, ok: char -> bool, n: nat)
    requires n <= |t| && (forall k :: 0 <= k < n ==> ok(t[k])) && (n < |t| ==> !ok(t[n]))
    ensures Run(t, ok) == n
  {
  }

  function Trim(t: Text): Text {
    var head := t[Run(t, IsSpace)..];
    TrimEnd(head)
  }

  function TrimEnd(t: Text): Text {
    if t == "" || !IsSpace(t[|t| - 1]) then t else TrimEnd(t[..|t| - 1])
  }

  lemma {:induction false} TrimIsShorter(t: Text)
    ensures |Trim(t)| <= |t|
  {
    TrimEndIsShorter(t[Run(t, IsSpace)..]);
  }

  lemma {:induction false} TrimEndIsShorter(t: Text)
    ensures |TrimEnd(t)| <= |t|
  {
    if t != "" && IsSpace(t[|t| - 1]) {
      TrimEndIsShorter(t[..|t| - 1]);
    }
  }

  predicate AllSpace(t: Text) {
    forall k :: 0 <= k < |t| ==> IsSpace(t[k])
  }

  /** Trimming takes away the space at both ends, and nothing else. */
  lemma {:induction false} TrimStrips(t: Text) returns (i: nat, j: nat)
    ensures i <= j <= |t| && Trim(t) == t[i..j] && AllSpace(t[..i]) && AllSpace(t[j..])
    ensures Trim(t) != "" ==> !IsSpace(t[i]) && !IsSpace(t[j - 1])
  {
    i := Run(t, IsSpace);
    var n := EndStrips(t[i..]);
    j := i + n;
    assert t[j..] == t[i..][n..];
  }

  lemma {:induction false} EndStrips(t: Text) returns (n: nat)
    ensures n <= |t| && TrimEnd(t) == t[..n] && AllSpace(t[n..]) && (n > 0 ==> !IsSpace(t[n - 1]))
    decreases |t|
  {
    n := |t|;
    if t != "" && IsSpace(t[|t| - 1]) {
      n := EndStrips(t[..|t| - 1]);
      assert t[n..] == t[..|t| - 1][n..] + [t[|t| - 1]];
    }
  }

  // ----- pieces -----

  /** How much of t, which follows an opening quote, belongs to the string literal. */
  function Quoted(t: Text): (n: nat)
    ensures n <= |t|
  {
    if t == "" then 0
    else if t[0] == '"' then 1
    else if t[0] == '\\' && |t| > 1 then 2 + Quoted(t[2..])
    else 1 + Quoted(t[1..])
  }

  /** The length of the first piece: a string literal, a number, a name, or what lies between those. */
  function Piece(t: Text): (n: nat)
    requires t != ""
    ensures 0 < n <= |t|
  {
    if t[0] == '"' then 1 + Quoted(t[1..])
    else if IsDigit(t[0]) then Run(t, IsNumber)
    else if IsStart(t[0]) then Run(t, IsIdent)
    else 1 + Run(t[1..], IsOther)
  }

  // ----- argument lists -----

  /** The text read as an argument list: the raw arguments, and where the list ends. */
  datatype ArgList = ArgList(raw: seq<Text>, size: nat)

  function Shift(list: Option<ArgList>, first: seq<Text>, more: nat): Option<ArgList> {
    if list.None? then None else Some(ArgList(first + list.value.raw, more + list.value.size))
  }

  /** Reads on inside the parentheses, depth of them open, with the current argument so far. */
  function RawArgs(t: Text, depth: nat, current: Text): (r: Option<ArgList>)
    requires depth > 0
    ensures r.Some? ==> 0 < r.value.size <= |t| && |r.value.raw| > 0
  {
    if t == "" then None
    else if t[0] == ')' && depth == 1 then Some(ArgList([current], 1))
    else if t[0] == ',' && depth == 1 then Shift(RawArgs(t[1..], 1, ""), [current], 1)
    else
      var deeper := if t[0] == '(' then depth + 1 else if t[0] == ')' then depth - 1 else depth;
      Shift(RawArgs(t[1..], deeper, current + [t[0]]), [], 1)
  }

  /** The arguments of a list: trimmed, and none at all when the parentheses hold only space. */
  function Args(raw: seq<Text>): (args: seq<Text>)
    ensures |args| <= |raw|
  {
    if |raw| == 1 && Trim(raw[0]) == "" then [] else Trims(raw)
  }

  function Trims(raw: seq<Text>): (args: seq<Text>)
    ensures |args| == |raw|
  {
    seq(|raw|, i requires 0 <= i < |raw| => Trim(raw[i]))
  }

  /** Balanced parentheses, and commas only inside them; d are open before the text. */
  predicate FlatFrom(t: Text, d: nat) {
    if t == "" then d == 0
    else if t[0] == '(' then FlatFrom(t[1..], d + 1)
    else if t[0] == ')' then d > 0 && FlatFrom(t[1..], d - 1)
    else (t[0] == ',' ==> d > 0) && FlatFrom(t[1..], d)
  }

  ghost predicate AllFlat(raw: seq<Text>) {
    forall i :: 0 <= i < |raw| ==> FlatFrom(raw[i], 0)
  }

  /** No argument is longer than what it was read from. */
  lemma {:induction false} RawIsShort(t: Text, depth: nat, current: Text, i: nat)
    requires depth > 0 && RawArgs(t, depth, current).Some? && i < |RawArgs(t, depth, current).value.raw|
    ensures |RawArgs(t, depth, current).value.raw[i]| <= |current| + |t|
    decreases |t|
  {
    if t[0] == ')' && depth == 1 {
    } else if t[0] == ',' && depth == 1 {
      if i > 0 {
        RawIsShort(t[1..], 1, "", i - 1);
      }
    } else {
      var deeper := if t[0] == '(' then depth + 1 else if t[0] == ')' then depth - 1 else depth;
      RawIsShort(t[1..], deeper, current + [t[0]], i);
    }
  }

  /** Arguments written between commas, with the closing parenthesis. */
  function Listed(raw: seq<Text>): Text
    requires |raw| > 0
  {
    if |raw| == 1 then raw[0] + ")" else raw[0] + ("," + Listed(raw[1..]))
  }

  lemma {:induction false} Reassociate(a: Text, b: Text, c: Text)
    ensures a + b + c == a + (b + c)
  {
  }

  /** Flat text is skimmed over into the current argument. */
  lemma {:induction false} Skims(s: Text, d: nat, t: Text, current: Text)
    requires FlatFrom(s, d)
    ensures RawArgs(s + t, d + 1, current) == Shift(RawArgs(t, 1, current + s), [], |s|)
    decreases |s|
  {
    if s == "" {
      assert s + t == t && current + s == current;
      NoShift(RawArgs(t, 1, current));
    } else {
      assert (s + t)[1..] == s[1..] + t;
      var deeper := if s[0] == '(' then d + 1 else if s[0] == ')' then d - 1 else d;
      Skims(s[1..], deeper, t, current + [s[0]]);
      ShiftTwice(RawArgs(t, 1, current + [s[0]] + s[1..]), [], |s| - 1, 1);
      assert current + [s[0]] + s[1..] == current + s by {
        Reassociate(current, [s[0]], s[1..]);
        assert [s[0]] + s[1..] == s;
      }
    }
  }

  lemma {:induction false} NoShift(list: Option<ArgList>)
    ensures Shift(list, [], 0) == list
  {
    if list.Some? {
      assert [] + list.value.raw == list.value.raw;
    }
  }

  lemma {:induction false} ShiftTwice(list: Option<ArgList>, first: seq<Text>, a: nat, b: nat)
    ensures Shift(Shift(list, [], a), first, b) == Shift(list, first, a + b)
  {
    if list.Some? {
      assert [] + list.value.raw == list.value.raw;
    }
  }

  /** Written arguments are read back as they were, whatever follows the list. */
  lemma {:induction false} ListedIsRead(raw: seq<Text>, rest: Text)
    requires |raw| > 0 && AllFlat(raw)
    ensures RawArgs(Listed(raw) + rest, 1, "") == Some(ArgList(raw, |Listed(raw)|))
    decreases |raw|
  {
    var tail := if |raw| == 1 then ")" else "," + Listed(raw[1..]);
    Reassociate(raw[0], tail, rest);
    Skims(raw[0], 0, tail + rest, "");
    assert "" + raw[0] == raw[0];
    if |raw| == 1 {
      assert raw == [raw[0]] && [] + raw == raw;
    } else {
      ListedIsRead(raw[1..], rest);
      assert (tail + rest)[1..] == Listed(raw[1..]) + rest;
      ListStep(raw, rest);
    }
  }

  lemma {:induction false} ListStep(raw: seq<Text>, rest: Text)
    requires |raw| > 1
    requires RawArgs(Listed(raw[1..]) + rest, 1, "") == Some(ArgList(raw[1..], |Listed(raw[1..])|))
    ensures var tail := "," + Listed(raw[1..]);
            Shift(RawArgs(tail + rest, 1, raw[0]), [], |raw[0]|) == Some(ArgList(raw, |Listed(raw)|))
  {
    var tail := "," + Listed(raw[1..]);
    assert (tail + rest)[1..] == Listed(raw[1..]) + rest;
    assert [raw[0]] + raw[1..] == raw && [] + raw == raw;
  }

  /** The list begins with the current argument; what is left of its first argument closes what is
      open, the others are flat, and all of it is written as the text is. */
  ghost predicate ReadsAs(r: ArgList, t: Text, depth: nat, current: Text)
    requires depth > 0
  {
    && r.size <= |t| && |r.raw| > 0 && |current| <= |r.raw[0]| && r.raw[0][..|current|] == current
    && FlatFrom(r.raw[0][|current|..], depth - 1) && AllFlat(r.raw[1..])
    && current + t[..r.size] == Listed(r.raw)
  }

  /** Whatever is read is a list so written: flat arguments between commas. */
  lemma {:induction false} ReadIsListed(t: Text, depth: nat, current: Text)
    requires depth > 0 && RawArgs(t, depth, current).Some?
    ensures ReadsAs(RawArgs(t, depth, current).value, t, depth, current)
    decreases |t|
  {
    if t[0] == ')' && depth == 1 {
      assert t[..1] == ")" && current[|current|..] == "";
    } else if t[0] == ',' && depth == 1 {
      ReadIsListed(t[1..], 1, "");
      ReadComma(RawArgs(t[1..], 1, "").value, t, current);
    } else {
      var deeper := if t[0] == '(' then depth + 1 else if t[0] == ')' then depth - 1 else depth;
      ReadIsListed(t[1..], deeper, current + [t[0]]);
      ReadOn(RawArgs(t[1..], deeper, current + [t[0]]).value, t, depth, deeper, current);
    }
  }

  lemma {:induction false} ReadComma(inner: ArgList, t: Text, current: Text)
    requires t != "" && t[0] == ',' && ReadsAs(inner, t[1..], 1, "")
    ensures ReadsAs(ArgList([current] + inner.raw, 1 + inner.size), t, 1, current)
  {
    var raw := [current] + inner.raw;
    assert raw[1..] == inner.raw && current[|current|..] == "";
    assert inner.raw[0][0..] == inner.raw[0];
    assert "" + t[1..][..inner.size] == t[1..][..inner.size];
    assert t[..1 + inner.size] == "," + t[1..][..inner.size];
  }

  lemma {:induction false} ReadOn(inner: ArgList, t: Text, depth: nat, deeper: nat, current: Text)
    requires t != "" && depth > 0 && deeper > 0 && (t[0] == ',' ==> depth > 1)
    requires deeper == if t[0] == '(' then depth + 1 else if t[0] == ')' then depth - 1 else depth
    requires ReadsAs(inner, t[1..], deeper, current + [t[0]])
    ensures ReadsAs(ArgList([] + inner.raw, 1 + inner.size), t, depth, current)
  {
    var open: Text := [t[0]];
    var first := inner.raw[0];
    assert [] + inner.raw == inner.raw;
    assert first[|current|..] == open + first[|current| + 1..] && first[..|current|] == current;
    assert t[..1 + inner.size] == open + t[1..][..inner.size];
    Reassociate(current, open, t[1..][..inner.size]);
  }

  // ----- substitution -----

  /** The first parameter of that name. */
  function ParamIndex(params: seq<Text>, name: Text): (k: Option<nat>)
    ensures k.Some? <==> name in params
    ensures k.Some? ==> k.value < |params| && params[k.value] == name
    ensures k.Some? ==> name !in params[..k.value]
  {
    if params == [] then None
    else if params[0] == name then Some(0)
    else
      var k := ParamIndex(params[1..], name);
      if k.None? then None else Some(k.value + 1)
  }

  /** What stands for a name of the body. */
  function Actual(name: Text, params: seq<Text>, args: seq<Text>): Text
    requires |args| == |params|
  {
    var k := ParamIndex(params, name);
    if k.Some? then args[k.value] else name
  }

  /** The body with every name that is a parameter replaced. */
  function Substitute(body: Text, params: seq<Text>, args: seq<Text>): Text
    requires |args| == |params|
  {
    if body == "" then ""
    else if IsStart(body[0]) then
      var n := Run(body, IsIdent);
      Actual(body[..n], params, args) + Substitute(body[n..], params, args)
    else [body[0]] + Substitute(body[1..], params, args)
  }
}
