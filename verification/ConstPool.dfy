/** Constants inserted by an edit, each once: an open-addressing table over the inserts so far. */
module ConstPool {
  import opened Ir
  import opened Residues
  import opened IntBits
  import opened Finite

  datatype Key = Key(typ: nat, bits: U64)

  /** The 32 high bits of a multiplicative hash. */
  function Hash(key: Key): nat {
    var mixed := Cast(Xor(key.bits, Cast(key.typ % 0x1_0000_0000 * 0x100_0000_0000)));
    Cast(mixed * 0x9E37_79B9_7F4A_7C15) / 0x1_0000_0000
  }

  /** A key's first slot in a table of cap slots. */
  function Home(key: Key, cap: nat): nat
    requires cap > 0
  {
    And(Hash(key), cap - 1)
  }

  function Next(s: nat, cap: nat): nat
    requires cap > 0
  {
    And(s + 1, cap - 1)
  }

  lemma {:induction false} MaskIsRemainder(x: nat, cap: nat, exp: nat)
    requires cap == Pow2(exp)
    ensures And(x, cap - 1) == x % cap < cap
  {
    AndMask(x, exp);
  }

  /** How far u is behind the home slot h, going round. */
  function Dist(h: nat, u: nat, cap: nat): nat
    requires h < cap && u < cap
  {
    if u >= h then u - h else u + cap - h
  }

  lemma {:induction false} NextIsFurther(h: nat, s: nat, cap: nat, exp: nat)
    requires cap == Pow2(exp) && h < cap && s < cap
    ensures Next(s, cap) < cap
    ensures Dist(h, s, cap) + 1 < cap ==> Dist(h, Next(s, cap), cap) == Dist(h, s, cap) + 1
  {
    MaskIsRemainder(s + 1, cap, exp);
    if s + 1 == cap {
      DivModIs(s + 1, cap, 1, 0);
    } else {
      DivModIs(s + 1, cap, 0, s + 1);
    }
  }

  // ----- the table -----

  /** Slot s is empty, or holds one plus the number of an inserted constant. */
  ghost predicate SlotOk(t: seq<nat>, added: seq<Option<Key>>, s: nat)
    requires s < |t|
  {
    t[s] > 0 ==> t[s] <= |added| && added[t[s] - 1].Some?
  }

  /** Every slot between the home of the constant in slot s and s itself is taken. */
  ghost predicate Reachable(t: seq<nat>, added: seq<Option<Key>>, s: nat)
    requires s < |t| && SlotOk(t, added, s)
  {
    t[s] > 0 ==>
      var h := Home(added[t[s] - 1].value, |t|);
      h < |t| && forall u: nat {:trigger t[u]} :: u < |t| && Dist(h, u, |t|) < Dist(h, s, |t|) ==> t[u] > 0
  }

  ghost predicate TableOk(t: seq<nat>, added: seq<Option<Key>>) {
    && (forall s: nat :: s < |t| ==> SlotOk(t, added, s) && Reachable(t, added, s))
    && (forall s: nat, u: nat {:trigger t[s], t[u]} :: s < u < |t| && t[s] > 0 ==> t[s] != t[u])
  }

  /** Some slot names an insert of this constant. */
  ghost predicate Registered(t: seq<nat>, added: seq<Option<Key>>, key: Key) {
    exists s: nat :: s < |t| && 0 < t[s] <= |added| && added[t[s] - 1] == Some(key)
  }

  /** A table without an empty slot has no more slots than there are inserts. */
  lemma {:induction false} FullIsSmall(t: seq<nat>, added: seq<Option<Key>>)
    requires TableOk(t, added) && forall s: nat :: s < |t| ==> t[s] > 0
    ensures |t| <= |added|
  {
    var names := seq<nat>(|t|, s requires 0 <= s < |t| => t[s] - 1);
    forall s: nat | s < |t|
      ensures names[s] == t[s] - 1 < |added|
    {
      assert SlotOk(t, added, s);
    }
    forall s: nat, u: nat | s < u < |t|
      ensures names[s] != names[u]
    {
      assert t[s] != t[u];
    }
    DistinctIsShort(names, |added|);
  }

  lemma {:induction false} EmptySlotExists(t: seq<nat>, added: seq<Option<Key>>) returns (z: nat)
    requires TableOk(t, added) && |added| < |t|
    ensures z < |t| && t[z] == 0
  {
    if forall s: nat :: s < |t| ==> t[s] > 0 {
      FullIsSmall(t, added);
    }
    z :| z < |t| && t[z] == 0;
  }

  /** What probing from the home slot has seen: taken slots only, none of them with the key. */
  ghost predicate Probed(t: seq<nat>, added: seq<Option<Key>>, key: Key, h: nat, s: nat)
    requires h < |t| && s < |t|
  {
    forall u: nat {:trigger t[u]} :: u < |t| && Dist(h, u, |t|) < Dist(h, s, |t|) ==>
      t[u] > 0 && (t[u] <= |added| ==> added[t[u] - 1] != Some(key))
  }

  ghost predicate Taken(t: seq<nat>, h: nat, s: nat)
    requires h < |t| && s < |t|
  {
    forall u: nat {:trigger t[u]} :: u < |t| && Dist(h, u, |t|) < Dist(h, s, |t|) ==> t[u] > 0
  }

  /** An empty slot ends the search: the key is nowhere in the table. */
  lemma {:induction false} EmptyEndsSearch(t: seq<nat>, added: seq<Option<Key>>, key: Key, s: nat)
    requires TableOk(t, added) && s < |t| && t[s] == 0 && Home(key, |t|) < |t|
    requires Probed(t, added, key, Home(key, |t|), s)
    ensures !Registered(t, added, key)
  {
    if Registered(t, added, key) {
      var u: nat :| u < |t| && 0 < t[u] <= |added| && added[t[u] - 1] == Some(key);
      assert SlotOk(t, added, u) && Reachable(t, added, u);
      DistIsInjective(Home(key, |t|), s, u, |t|);
    }
  }

  lemma {:induction false} DistIsInjective(h: nat, s: nat, u: nat, cap: nat)
    requires h < cap && s < cap && u < cap && Dist(h, s, cap) == Dist(h, u, cap)
    ensures s == u
  {
  }

  /** Filling the first empty slot behind a constant's home keeps the table sound. */
  lemma {:induction false} FillKeepsTable(t: seq<nat>, added: seq<Option<Key>>, s: nat, k: nat)
    requires TableOk(t, added) && s < |t| && t[s] == 0 && k < |added| && added[k].Some?
    requires Home(added[k].value, |t|) < |t| && Taken(t, Home(added[k].value, |t|), s)
    requires forall u: nat :: u < |t| ==> t[u] != k + 1
    ensures TableOk(t[s := k + 1], added)
    ensures forall key: Key :: Registered(t, added, key) ==> Registered(t[s := k + 1], added, key)
    ensures Registered(t[s := k + 1], added, added[k].value)
  {
    var t' := t[s := k + 1];
    forall u: nat | u < |t'|
      ensures SlotOk(t', added, u) && Reachable(t', added, u)
    {
      assert SlotOk(t, added, u) && Reachable(t, added, u);
    }
    forall key: Key | Registered(t, added, key)
      ensures Registered(t', added, key)
    {
      var u: nat :| u < |t| && 0 < t[u] <= |added| && added[t[u] - 1] == Some(key);
      assert t'[u] == t[u];
    }
    assert t'[s] == k + 1;
  }

  /** More inserts leave the table as sound as it was. */
  lemma {:induction false} MoreAdded(t: seq<nat>, added: seq<Option<Key>>, more: Option<Key>)
    requires TableOk(t, added)
    ensures TableOk(t, added + [more])
    ensures forall key: Key :: Registered(t, added, key) ==> Registered(t, added + [more], key)
    ensures forall u: nat :: u < |t| ==> t[u] != |added| + 1
  {
    forall u: nat | u < |t|
      ensures SlotOk(t, added + [more], u) && Reachable(t, added + [more], u) && t[u] != |added| + 1
    {
      assert SlotOk(t, added, u) && Reachable(t, added, u);
    }
    forall key: Key | Registered(t, added, key)
      ensures Registered(t, added + [more], key)
    {
      var u: nat :| u < |t| && 0 < t[u] <= |added| && added[t[u] - 1] == Some(key);
      assert (added + [more])[t[u] - 1] == added[t[u] - 1];
    }
  }

  /** The table names every constant among the first n inserts, and no other. */
  ghost predicate Names(t: seq<nat>, added: seq<Option<Key>>, n: nat)
    requires n <= |added|
  {
    && (forall k: nat :: k < n && added[k].Some? ==> Registered(t, added, added[k].value))
    && (forall u: nat {:trigger t[u]} :: u < |t| ==> t[u] <= n)
  }

  ghost predicate AllIn(t: seq<nat>, added: seq<Option<Key>>) {
    forall k: nat :: k < |added| && added[k].Some? ==> Registered(t, added, added[k].value)
  }

  ghost predicate Apart(added: seq<Option<Key>>) {
    forall j: nat, k: nat :: j < k < |added| && added[j].Some? ==> added[j] != added[k]
  }

  /** A constant that is not in a complete table is a new one. */
  lemma {:induction false} StillApart(t: seq<nat>, added: seq<Option<Key>>, key: Key)
    requires !Registered(t, added, key)
    ensures AllIn(t, added) && Apart(added) ==> Apart(added + [Some(key)])
  {
  }

  class Pool {
    var added: seq<Option<Key>>   // per insert: the constant it is, when it is one at the head
    var slot: array<nat>
    ghost var exp: nat

    ghost predicate Valid()
      reads this, slot
    {
      (slot.Length == 0 || slot.Length == Pow2(exp)) && TableOk(slot[..], added)
    }

    ghost predicate Has(key: Key)
      reads this, slot
    {
      Registered(slot[..], added, key)
    }

    /** Every constant of the edit is in the table, and no two inserts are the same constant. */
    ghost predicate Settled()
      reads this, slot
    {
      AllIn(slot[..], added) && Apart(added)
    }

    constructor ()
      ensures Valid() && Settled() && added == [] && fresh(slot)
    {
      added, slot, exp := [], new nat[0], 0;
    }

    /** Any other insert of the edit. */
    method AddOther(other: Option<Key>)
      requires Valid()
      modifies this`added
      ensures Valid() && added == old(added) + [other]
      ensures forall key: Key :: old(Has(key)) ==> Has(key)
      ensures old(Settled()) && other.None? ==> Settled()
    {
      MoreAdded(slot[..], added, other);
      added := added + [other];
    }

    /** The slot where a search for the key ends: at the constant itself, or at the empty slot where
        it belongs. */
    method Find(key: Key) returns (s: nat)
      requires Valid() && |added| < slot.Length
      ensures s < slot.Length && Home(key, slot.Length) < slot.Length
      ensures slot[s] > 0 ==> slot[s] <= |added| && added[slot[s] - 1] == Some(key)
      ensures slot[s] == 0 ==> !Has(key) && Taken(slot[..], Home(key, slot.Length), s)
    {
      ghost var t: seq<nat> := slot[..];
      var cap := slot.Length;
      MaskIsRemainder(Hash(key), cap, exp);
      ghost var z := EmptySlotExists(t, added);
      ghost var h: nat := Home(key, cap);
      s := Home(key, cap);
      while slot[s] > 0 && added[slot[s] - 1] != Some(key)
        invariant s < cap && SlotOk(t, added, s) && Probed(t, added, key, h, s)
        decreases cap - Dist(h, s, cap)
      {
        StepOn(t, added, key, h, s, z, exp);
        s := Next(s, cap);
      }
      if slot[s] == 0 {
        EmptyEndsSearch(t, added, key, s);
      }
    }

    /** The first empty slot at or behind a key's home. */
    method FirstFree(key: Key) returns (s: nat)
      requires Valid() && |added| < slot.Length
      ensures s < slot.Length && slot[s] == 0
      ensures Home(key, slot.Length) < slot.Length && Taken(slot[..], Home(key, slot.Length), s)
    {
      ghost var t: seq<nat> := slot[..];
      var cap := slot.Length;
      MaskIsRemainder(Hash(key), cap, exp);
      ghost var z := EmptySlotExists(t, added);
      ghost var h: nat := Home(key, cap);
      s := Home(key, cap);
      while slot[s] > 0
        invariant s < cap && Taken(t, h, s)
        decreases cap - Dist(h, s, cap)
      {
        StepPast(t, h, s, z, exp);
        s := Next(s, cap);
      }
    }

    /** Enters insert k, a constant, in the first empty slot. */
    method Enter(k: nat)
      requires Valid() && |added| < slot.Length && k < |added| && added[k].Some?
      requires forall u: nat :: u < slot.Length ==> slot[u] != k + 1
      modifies slot
      ensures Valid() && Has(added[k].value)
      ensures forall key: Key :: old(Has(key)) ==> Has(key)
      ensures forall u: nat {:trigger slot[u]} :: u < slot.Length ==> slot[u] == old(slot[u]) || slot[u] == k + 1
    {
      ghost var t: seq<nat> := slot[..];
      var s := FirstFree(added[k].value);
      FillKeepsTable(t, added, s, k);
      slot[s] := k + 1;
      assert slot[..] == t[s := k + 1];
    }

    /** A larger table over every constant inserted so far. */
    method Rebuild()
      requires Valid()
      modifies this`slot, this`exp
      ensures Valid() && fresh(slot) && |added| * 2 < slot.Length
      ensures forall key: Key :: old(Has(key)) ==> Has(key)
    {
      var cap, e := NewCapacity();
      ghost var before := slot[..];
      slot := new nat[cap](_ => 0);
      exp := e;
      for k := 0 to |added|
        invariant fresh(slot) && slot.Length == cap && exp == e && Valid() && Names(slot[..], added, k)
      {
        if added[k].Some? {
          assert forall u: nat :: u < cap ==> slot[..][u] == slot[u];
          ghost var t: seq<nat> := slot[..];
          assert forall key: Key :: Registered(t, added, key) ==> Has(key);
          Enter(k);
          assert forall key: Key :: Registered(t, added, key) ==> Has(key);
          EnteredNames(t, slot[..], added, k);
        }
      }
      AllNamed(before, slot[..], added);
    }

    method EnsureRoom()
      requires Valid()
      modifies this`slot, this`exp
      ensures Valid() && |added| < slot.Length && (slot == old(slot) || fresh(slot))
      ensures forall key: Key :: old(Has(key)) ==> Has(key)
      ensures old(Settled()) ==> Settled()
    {
      if slot.Length == 0 || |added| * 2 >= slot.Length {
        Rebuild();
        assert old(Settled()) ==> Settled() by {
          if old(Settled()) {
            forall k: nat | k < |added| && added[k].Some?
              ensures Has(added[k].value)
            {
              assert old(Has(added[k].value));
            }
          }
        }
      }
    }

    method NewCapacity() returns (cap: nat, ghost e: nat)
      requires slot.Length == 0 || slot.Length == Pow2(exp)
      ensures cap == Pow2(e) && cap > 0 && |added| * 2 < cap
    {
      cap, e := 64, 6;
      assert Pow2(6) == 64 by { assert Pow2(3) == 8; Pow2Sum(3, 3); }
      if slot.Length != 0 {
        cap, e := slot.Length * 2, exp + 1;
      }
      while cap < |added| * 4
        invariant cap == Pow2(e) && cap > 0
        decreases |added| * 4 - cap
      {
        cap, e := cap * 2, e + 1;
      }
    }

    /** The constant's insert: the one already there, or a new one. */
    method Intern(key: Key) returns (k: nat)
      requires Valid()
      modifies this, slot
      ensures Valid() && k < |added| && added[k] == Some(key)
      ensures added == old(added) || (k == |old(added)| && added == old(added) + [Some(key)])
      ensures old(Has(key)) ==> added == old(added)
      ensures Has(key) && forall other: Key :: old(Has(other)) ==> Has(other)
      ensures old(Settled()) ==> Settled()
    {
      EnsureRoom();
      var s := Find(key);
      if slot[s] > 0 {
        k := slot[s] - 1;
        assert slot[..][s] == slot[s];
        return;
      }
      k := |added|;
      InsertAt(key, s);
    }

    /** A new constant, in the slot where its search ended. */
    method InsertAt(key: Key, s: nat)
      requires Valid() && s < slot.Length && slot[s] == 0 && !Has(key)
      requires Home(key, slot.Length) < slot.Length && Taken(slot[..], Home(key, slot.Length), s)
      modifies this`added, slot
      ensures Valid() && added == old(added) + [Some(key)] && Has(key)
      ensures forall other: Key :: old(Has(other)) ==> Has(other)
      ensures old(Settled()) ==> Settled()
    {
      var k := |added|;
      ghost var t: seq<nat> := slot[..];
      MoreAdded(t, added, Some(key));
      StillApart(t, added, key);
      added := added + [Some(key)];
      FillKeepsTable(t, added, s, k);
      slot[s] := k + 1;
      assert slot[..] == t[s := k + 1];
    }
  }

  /** One step of a search, past a slot taken by something else. */
  lemma {:induction false} StepOn(t: seq<nat>, added: seq<Option<Key>>, key: Key, h: nat, s: nat, z: nat, exp: nat)
    requires |t| == Pow2(exp) && h < |t| && s < |t| && z < |t| && t[z] == 0 && TableOk(t, added)
    requires Probed(t, added, key, h, s) && 0 < t[s] <= |added| && added[t[s] - 1] != Some(key)
    ensures var n := Next(s, |t|);
            n < |t| && Dist(h, n, |t|) == Dist(h, s, |t|) + 1 && Probed(t, added, key, h, n) && SlotOk(t, added, n)
  {
    StepPast(t, h, s, z, exp);
    forall u: nat | u < |t| && Dist(h, u, |t|) < Dist(h, s, |t|) + 1
      ensures t[u] > 0 && (t[u] <= |added| ==> added[t[u] - 1] != Some(key))
    {
      if Dist(h, u, |t|) == Dist(h, s, |t|) {
        DistIsInjective(h, u, s, |t|);
      }
    }
  }

  lemma {:induction false} StepPast(t: seq<nat>, h: nat, s: nat, z: nat, exp: nat)
    requires |t| == Pow2(exp) && h < |t| && s < |t| && z < |t| && t[z] == 0
    requires Taken(t, h, s) && t[s] > 0
    ensures var n := Next(s, |t|); n < |t| && Dist(h, n, |t|) == Dist(h, s, |t|) + 1 && Taken(t, h, n)
  {
    if Dist(h, z, |t|) == Dist(h, s, |t|) {
      DistIsInjective(h, z, s, |t|);
    }
    NextIsFurther(h, s, |t|, exp);
    forall u: nat | u < |t| && Dist(h, u, |t|) < Dist(h, s, |t|) + 1
      ensures t[u] > 0
    {
      if Dist(h, u, |t|) == Dist(h, s, |t|) {
        DistIsInjective(h, u, s, |t|);
      }
    }
  }

  lemma {:induction false} EnteredNames(t: seq<nat>, t': seq<nat>, added: seq<Option<Key>>, k: nat)
    requires k < |added| && added[k].Some? && Names(t, added, k) && |t'| == |t|
    requires Registered(t', added, added[k].value)
    requires forall key: Key :: Registered(t, added, key) ==> Registered(t', added, key)
    requires forall u: nat {:trigger t'[u]} :: u < |t'| ==> t'[u] == t[u] || t'[u] == k + 1
    ensures Names(t', added, k + 1)
  {
  }

  lemma {:induction false} AllNamed(before: seq<nat>, t: seq<nat>, added: seq<Option<Key>>)
    requires Names(t, added, |added|)
    ensures forall key: Key :: Registered(before, added, key) ==> Registered(t, added, key)
  {
    forall key: Key | Registered(before, added, key)
      ensures Registered(t, added, key)
    {
      var s: nat :| s < |before| && 0 < before[s] <= |added| && added[before[s] - 1] == Some(key);
    }
  }
}
