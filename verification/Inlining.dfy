/** Which values fold into their single use instead of becoming a `let`, and where their text is
    finally evaluated. */
module Inlining {
  import opened StraightLine

  function CountIn(s: seq<nat>, x: nat): nat {
    if s == [] then 0 else CountIn(s[..|s| - 1], x) + if s[|s| - 1] == x then 1 else 0
  }

  /** Uses of x by the first n instructions, weighted. */
  function Uses(p: Program, x: nat, n: nat): nat
    requires n <= p.Count()
  {
    if n == 0 then 0 else Uses(p, x, n - 1) + p.items[n - 1].weight * CountIn(p.items[n - 1].operands, x)
  }

  function LastUse(p: Program, x: nat, n: nat): (i: int)
    requires n <= p.Count()
    ensures -1 <= i < n && (i >= 0 ==> x in p.items[i].operands)
  {
    if n == 0 then -1
    else if x in p.items[n - 1].operands then n - 1
    else LastUse(p, x, n - 1)
  }

  function EffectsBefore(p: Program, n: nat): nat
    requires n <= p.Count()
  {
    if n == 0 then 0 else EffectsBefore(p, n - 1) + if p.items[n - 1].effect then 1 else 0
  }

  ghost predicate UsedOnce(p: Program, x: nat)
    requires p.Valid()
  {
    Uses(p, x, p.Count()) == 1 && LastUse(p, x, p.Count()) >= 0
  }

  /** The instruction that uses x last. */
  ghost function User(p: Program, x: nat): (u: nat)
    requires p.Valid() && UsedOnce(p, x)
    ensures x < u < p.Count() && x in p.items[u].operands
  {
    LastUse(p, x, p.Count())
  }

  /** Where the text of x is evaluated: -1 when that is more than one place. */
  ghost function Sink(p: Program, x: nat): (s: int)
    requires p.Valid() && x < p.Count()
    ensures -1 <= s < p.Count() && (s >= 0 ==> x <= s) && (s < 0 ==> p.items[x].kind.Path?)
    decreases p.Count() - x
  {
    if p.items[x].kind.Path? then
      if UsedOnce(p, x) then Sink(p, User(p, x)) else -1
    else if Inlined(p, x) then Sink(p, User(p, x))
    else x
  }

  ghost predicate Inlined(p: Program, x: nat)
    requires p.Valid() && x < p.Count()
    decreases p.Count() - x, 0
  {
    UsedOnce(p, x) &&
    var s := Sink(p, User(p, x));
    s >= 0 &&
    (p.items[x].kind.Pure? || (p.items[x].kind.Read? && EffectsBefore(p, s) - EffectsBefore(p, x + 1) == 0))
  }

  // ----- what the counts say -----

  lemma {:induction false} CountPositive(s: seq<nat>, x: nat)
    ensures CountIn(s, x) > 0 <==> x in s
  {
    if s != [] {
      CountPositive(s[..|s| - 1], x);
      assert s == s[..|s| - 1] + [s[|s| - 1]];
    }
  }

  lemma {:induction false} AtLeastOne(a: nat, b: nat)
    requires a > 0 && b > 0
    ensures a * b >= 1
  {
    assert a * b >= a * 1;
  }

  /** Each user weighs in. */
  lemma {:induction false} UserCounts(p: Program, x: nat, n: nat, i: nat)
    requires p.Valid() && i < n <= p.Count() && x in p.items[i].operands
    ensures Uses(p, x, n) >= 1
  {
    if i == n - 1 {
      CountPositive(p.items[i].operands, x);
      AtLeastOne(p.items[i].weight, CountIn(p.items[i].operands, x));
    } else {
      UserCounts(p, x, n - 1, i);
    }
  }

  /** With all its weight. */
  lemma {:induction false} HeavyUse(p: Program, x: nat, n: nat, i: nat)
    requires p.Valid() && i < n <= p.Count() && x in p.items[i].operands && p.items[i].weight > 1
    ensures Uses(p, x, n) > 1
  {
    if i == n - 1 {
      CountPositive(p.items[i].operands, x);
      AtLeastOne(p.items[i].weight - 1, CountIn(p.items[i].operands, x));
      OneLess(p.items[i].weight, CountIn(p.items[i].operands, x));
    } else {
      HeavyUse(p, x, n - 1, i);
    }
  }

  lemma {:induction false} OneLess(a: nat, b: nat)
    requires a > 0
    ensures a * b == (a - 1) * b + b
  {
  }

  lemma {:induction false} OneUser(p: Program, x: nat, n: nat, i: nat, j: nat)
    requires p.Valid() && i <= j < n <= p.Count() && x in p.items[i].operands && x in p.items[j].operands
    requires Uses(p, x, n) == 1
    ensures i == j
  {
    if j < n - 1 {
      UserCounts(p, x, n - 1, j);
      OneUser(p, x, n - 1, i, j);
    } else if i < j {
      CountPositive(p.items[j].operands, x);
      AtLeastOne(p.items[j].weight, CountIn(p.items[j].operands, x));
      UserCounts(p, x, n - 1, i);
    }
  }

  lemma {:induction false} NoEffectsBetween(p: Program, a: nat, b: nat, i: nat)
    requires p.Valid() && a <= i < b <= p.Count() && EffectsBefore(p, b) == EffectsBefore(p, a)
    ensures !p.items[i].effect
  {
    EffectsGrow(p, a, i);
    EffectsGrow(p, i + 1, b);
  }

  lemma {:induction false} EffectsGrow(p: Program, a: nat, b: nat)
    requires p.Valid() && a <= b <= p.Count()
    ensures EffectsBefore(p, a) <= EffectsBefore(p, b)
  {
    if a < b {
      EffectsGrow(p, a, b - 1);
    }
  }

  // ----- where operands are evaluated -----

  /** x is not a name of its own: its text stands in its users. */
  ghost predicate Spelled(p: Program, x: nat)
    requires p.Valid() && x < p.Count()
  {
    p.items[x].kind.Fixed? || p.items[x].kind.Path? || Inlined(p, x)
  }

  /** An operand folded into instruction i is evaluated where i is; a path with several users has
      no sink, and nothing folded in it. */
  lemma {:induction false} OperandSink(p: Program, i: nat, k: nat)
    requires p.Valid() && i < p.Count() && k < |p.items[i].operands|
    ensures var o := p.items[i].operands[k];
            && (Inlined(p, o) ==> Sink(p, i) >= 0 && Sink(p, o) == Sink(p, i))
            && (p.items[o].kind.Path? ==> Sink(p, o) < 0 || Sink(p, o) == Sink(p, i))
  {
    var o := p.items[i].operands[k];
    if UsedOnce(p, o) {
      var u := User(p, o);
      if i <= u {
        OneUser(p, o, p.Count(), i, u);
      } else {
        OneUser(p, o, p.Count(), u, i);
      }
    }
  }
}
