/** The edit buffer: passes record replacements, kills and inserts, and one commit applies them. */
module EditBuffer {
  import opened Ir
  import opened EditModel
  import opened EditMeaning
  import opened EditInPlace
  import opened EditBuckets
  import opened EditPositions

  class EditBuffer {
    // the function being edited
    var insts: array<Inst>
    var count: nat
    var aux: seq<nat>
    // the recorded edits
    const base: nat
    const repl: array<nat>
    var lowest: nat          // lowest killed or replaced id (base = none)
    var dead: seq<nat>       // killed and replaced ids
    var added: seq<Inst>
    var anchor: seq<nat>
    var changed: bool
    var replaced: bool       // some value now resolves elsewhere
    var resolved: bool       // the pass resolved every operand as it walked

    ghost function Value(): Edits
      reads this, insts, repl
      requires count <= insts.Length
    {
      Edits(insts[..count], aux, repl[..], added, anchor)
    }

    ghost predicate Valid()
      reads this, insts, repl
    {
      && count == base == repl.Length && base <= insts.Length
      && Value().ChainsOk()
      && (forall i :: 0 <= i < base ==> (repl[i] != 0 <==> i in dead))
      && (forall d :: d in dead ==> d < base)
      && lowest <= base && (forall i :: 0 <= i < lowest ==> repl[i] == 0)
      && (!replaced ==> forall i :: 0 <= i < base ==> repl[i] == 0 || repl[i] == NONE)
      && (!changed ==> dead == [] && added == [])
    }

    constructor (fnInsts: array<Inst>, fnCount: nat, fnAux: seq<nat>)
      requires fnCount <= fnInsts.Length && fnCount < MAX_IDS
      ensures Valid() && fresh(repl) && insts == fnInsts && !changed && !resolved
      ensures Value() == Edits(fnInsts[..fnCount], fnAux, seq(fnCount, _ => 0), [], [])
    {
      insts, count, aux := fnInsts, fnCount, fnAux;
      base := fnCount;
      repl := new nat[fnCount](_ => 0);
      lowest, dead, added, anchor := fnCount, [], [], [];
      changed, replaced, resolved := false, false, false;
    }

    /** Follows replacements to the value that will survive. */
    method Resolve(id: nat, ghost e: Edits) returns (r: nat)
      requires e.ChainsOk() && e.repl == repl[..] && e.Base() == base
      ensures r == e.Resolve(id)
    {
      r := id;
      while r < base
        invariant e.Resolve(r) == e.Resolve(id)
        decreases if r < base then r + 1 else 0
      {
        var next := repl[r];
        if next == 0 {
          return;
        }
        if next == NONE {
          return NONE;
        }
        assert e.Replaces(r);
        r := next - 1;
      }
    }

    /** Redirects every use of `id` to `with`, which comes before it; `id` dies. */
    method Replace(id: nat, with: nat)
      requires Valid() && id < base && with < Value().Total() && Value().Before(with, id)
      modifies this`lowest, this`dead, this`changed, this`replaced, repl
      ensures Valid() && changed
      ensures Value() == old(Value()).(repl := old(Value()).repl[id := with + 1])
    {
      ghost var e := Value();
      if repl[id] == 0 {
        dead := dead + [id];
      }
      repl[id] := with + 1;
      changed := true;
      replaced := true;
      if id < lowest {
        lowest := id;
      }
      ReplChanged(e, id, with + 1);
    }

    method Kill(id: nat)
      requires Valid() && id < base
      modifies this`lowest, this`dead, this`changed, repl
      ensures Valid() && changed
      ensures Value() == old(Value()).(repl := old(Value()).repl[id := NONE])
    {
      ghost var e := Value();
      if repl[id] == 0 {
        dead := dead + [id];
      }
      repl[id] := NONE;
      changed := true;
      if id < lowest {
        lowest := id;
      }
      ReplChanged(e, id, NONE);
    }

    method Touch()
      requires Valid()
      modifies this`changed
      ensures Valid() && changed && Value() == old(Value())
    {
      changed := true;
    }

    /** Inserts `inst` before original instruction `before` (base: at the end), with a copy of the
        operand list `list`. Returns its provisional id. */
    method Insert(before: nat, inst: Inst, list: seq<nat>) returns (id: nat)
      requires Valid() && before <= base && Value().Total() + 1 < MAX_IDS
      modifies this`aux, this`added, this`anchor, this`changed
      ensures Valid() && changed && id == old(Value()).Total()
      ensures Value() == InsertInto(old(Value()), before, inst, list)
    {
      ghost var e := Value();
      var placed := inst.(aux := |aux|, auxCount := |list|);
      aux := aux + list;
      added := added + [placed];
      anchor := anchor + [before];
      changed := true;
      id := base + |added| - 1;
      InsertKeepsChains(e, before, inst, list);
    }

    // ----- committing in place -----

    method NopAt(i: nat)
      requires i < count <= insts.Length
      modifies insts
      ensures insts[..count] == old(insts[..count])[i := NopOf(old(insts[i]))]
    {
      insts[i] := insts[i].(op := Nop, typ := NONE, auxCount := 0);
    }

    method RedirectedArgs(inst: Inst, ghost e: Edits) returns (args: seq<nat>)
      requires e.ChainsOk() && e.repl == repl[..] && e.Base() == base
      ensures args == RedirectArgs(e, inst)
    {
      var mask := ValueArgMask(inst);
      args := inst.args;
      for a := 0 to 4
        invariant |args| == 4
        invariant forall b :: 0 <= b < 4 ==>
                    args[b] == if b < a && b in mask then RedirectId(e, inst.args[b]) else inst.args[b]
      {
        if a in mask && args[a] < base {
          var r := Resolve(args[a], e);
          args := args[a := r];
        }
      }
    }

    /** Redirects instruction i where it stands: dead ones become nops, a live one's args and its
        operand list in the shared pool are rewritten. */
    method RedirectAt(i: nat, ghost e: Edits)
      requires e.ChainsOk() && e.repl == repl[..] && e.Base() == base == count <= insts.Length
      requires i < base && insts[i] == e.insts[i] && (e.Live(i) ==> AuxInPool(e.Fn(), e.insts[i]))
      requires |aux| == |e.aux|
      modifies this`aux, insts
      ensures insts[..count] == old(insts[..count])[i := RedirectInst(e, i)]
      ensures |aux| == |e.aux|
      ensures forall s :: 0 <= s < |aux| ==>
                aux[s] == if HoldsOperand(e, i, s) then RedirectId(e, old(aux)[s]) else old(aux)[s]
    {
      if repl[i] != 0 {
        NopAt(i);
        return;
      }
      var inst := insts[i];
      if inst.op.Nop? {
        return;
      }
      var args := RedirectedArgs(inst, e);
      insts[i] := inst.(args := args);
      if AuxHoldsValues(inst.op) {
        RedirectList(inst.aux, inst.auxCount, e);
      }
    }

    method RedirectList(from: nat, n: nat, ghost e: Edits)
      requires e.ChainsOk() && e.repl == repl[..] && e.Base() == base
      requires n > 0 ==> from + n <= |aux|
      modifies this`aux
      ensures |aux| == |old(aux)|
      ensures forall s :: 0 <= s < |aux| ==>
                aux[s] == if from <= s < from + n then RedirectId(e, old(aux)[s]) else old(aux)[s]
    {
      for k := 0 to n
        invariant |aux| == |old(aux)|
        invariant forall s :: 0 <= s < |aux| ==>
                    aux[s] == if from <= s < from + k then RedirectId(e, old(aux)[s]) else old(aux)[s]
      {
        if aux[from + k] < base {
          var r := Resolve(aux[from + k], e);
          aux := aux[from + k := r];
        }
      }
    }

    method NopDead()
      requires Valid()
      modifies insts
      ensures forall i :: 0 <= i < base ==>
                insts[i] == if repl[i] != 0 then NopOf(old(insts[i])) else old(insts[i])
    {
      for k := 0 to |dead|
        invariant forall i :: 0 <= i < base ==>
                    insts[i] == if i in dead[..k] then NopOf(old(insts[i])) else old(insts[i])
      {
        assert dead[k] in dead;
        NopAt(dead[k]);
        assert dead[..k + 1] == dead[..k] + [dead[k]];
      }
      assert dead[..|dead|] == dead;
    }

    /** Positions don't change: killed and replaced instructions become nops, survivors' operands
        are redirected. Whatever part of the walk is skipped, the result is the whole one's. */
    method CommitInPlace()
      requires Valid() && added == [] && Value().Contract()
      requires resolved ==> AllResolved(Value())
      modifies this`aux, insts
      ensures Func(insts[..count], aux) == Redirected(old(Value()))
    {
      ghost var e := Value();
      if !replaced || resolved {
        if !resolved {
          KillsLeaveOperandsAlone(e);
        }
        ResolvedNeedsOnlyNops(e);
        NopDead();
        assert insts[..count] == Redirected(e).insts;
        return;
      }
      RedirectFrom(e);
    }

    method RedirectFrom(ghost e: Edits)
      requires Valid() && added == [] && e == Value() && e.Contract()
      modifies this`aux, insts
      ensures Func(insts[..count], aux) == Redirected(e)
    {
      for i := lowest to base
        invariant InstsAfter(e, lowest, i, insts[..count])
        invariant PoolAfter(e, lowest, i, aux)
      {
        ghost var pool := aux;
        LiveInPool(e, i);
        assert insts[i] == insts[..count][i];
        RedirectAt(i, e);
        PoolGrows(e, lowest, i, pool, aux);
      }
      WalkIsWhole(e, lowest, insts[..count], aux);
    }

    // ----- the compacting commit -----
    // (finished scratch arrays are read-only from here on, so they are passed by their contents)

    /** Final positions: inserts first, then the anchor itself if it survives. */
    method Positions(ghost e: Edits, start: seq<nat>, order: seq<nat>) returns (newpos: array<nat>, n: nat)
      requires count <= insts.Length && e == Value() && e.Base() == base == repl.Length == count
      requires Sorting(e, start, order)
      ensures fresh(newpos) && n == |Layout(e)| && Planned(e, newpos[..])
    {
      newpos := new nat[base + |added|];
      n := 0;
      for i := 0 to base
        invariant n == |LayoutTo(e, i)|
        invariant Positioned(e, LayoutTo(e, i), newpos[..])
        invariant forall j :: 0 <= j < i && !e.Live(j) ==> newpos[j] == NONE
      {
        n := PlaceInserts(e, i, start, order, newpos, n);
        SurvivorIsNew(e, i);
        ghost var before, s := newpos[..], LayoutTo(e, i) + InsertsAt(e, i);
        var live := repl[i] == 0 && insts[i].op != Nop;
        if live {
          PositionNext(e, s, i, newpos[..]);
          newpos[i] := n;
          assert newpos[..] == before[i := n];
          n := n + 1;
        } else {
          newpos[i] := NONE;
          assert newpos[..] == before[i := NONE];
          assert forall p :: 0 <= p < |s| ==> s[p] != i;
        }
      }
      n := PlaceInserts(e, base, start, order, newpos, n);
      assert InsertsAt(e, base)[..|InsertsAt(e, base)|] == InsertsAt(e, base);
    }

    method PlaceInserts(ghost e: Edits, i: nat, start: seq<nat>, order: seq<nat>, newpos: array<nat>, n: nat)
      returns (n': nat)
      requires Sorting(e, start, order) && i <= base == e.Base() && newpos != repl
      requires newpos.Length == e.Total() && n == |LayoutTo(e, i)| && Positioned(e, LayoutTo(e, i), newpos[..])
      modifies newpos
      ensures n' == |LayoutTo(e, i)| + |InsertsAt(e, i)|
      ensures Positioned(e, InsertsTo(e, i, |InsertsAt(e, i)|), newpos[..])
      ensures forall j :: 0 <= j < base ==> newpos[j] == old(newpos[j])
    {
      n' := n;
      BucketRun(e, start, order, i);
      assert InsertsTo(e, i, 0) == LayoutTo(e, i);
      for j := start[i] to start[i + 1]
        invariant n' == n + (j - start[i])
        invariant Positioned(e, InsertsTo(e, i, j - start[i]), newpos[..])
        invariant forall j :: 0 <= j < base ==> newpos[j] == old(newpos[j])
      {
        ghost var q, before := j - start[i], newpos[..];
        BucketEntry(e, start, order, i, q);
        InsertIsNew(e, i, q);
        PositionNext(e, InsertsTo(e, i, q), InsertsAt(e, i)[q], newpos[..]);
        newpos[base + order[j]] := n';
        assert newpos[..] == before[InsertsAt(e, i)[q] := n'];
        n' := n' + 1;
      }
    }

    /** Where every id ends up, through its replacements. */
    method FinalIds(ghost e: Edits, newpos: seq<nat>) returns (final: array<nat>)
      requires Valid() && e == Value() && Planned(e, newpos)
      ensures fresh(final) && Finals(e, final[..])
    {
      var total := base + |added|;
      final := new nat[total];
      for v := 0 to total
        invariant forall u :: 0 <= u < v ==> final[u] == FinalId(e, u)
      {
        var r := Resolve(v, e);
        FinalFromPosition(e, newpos, v);
        final[v] := if r == NONE then NONE else newpos[r];
      }
    }

    method PoolTotal(ghost e: Edits, newpos: seq<nat>) returns (total: nat)
      requires Valid() && e == Value() && e.Contract() && Planned(e, newpos)
      ensures total == |PackedAux(e, |Layout(e)|)|
    {
      total := 0;
      for k := 0 to |added|
        invariant total == AddedSlots(e, k)
      {
        total := total + added[k].auxCount;
      }
      for i := 0 to base
        invariant total == AddedSlots(e, |added|) + LiveSlots(e, i)
      {
        OriginalPosition(e, newpos, i);
        if newpos[i] != NONE {
          total := total + insts[i].auxCount;
        }
      }
      PoolSize(e);
    }

    method MovedArgs(ghost e: Edits, src: Inst, final: seq<nat>) returns (args: seq<nat>)
      requires e.ChainsOk() && Finals(e, final)
      ensures args == MoveArgs(e, src)
    {
      var mask := ValueArgMask(src);
      args := src.args;
      for a := 0 to 4
        invariant |args| == 4
        invariant forall b :: 0 <= b < 4 ==>
                    args[b] == if b < a && b in mask then FinalId(e, src.args[b]) else src.args[b]
      {
        if a in mask {
          args := args[a := if args[a] < |final| then final[args[a]] else args[a]];
        }
      }
    }

    method PackList(ghost e: Edits, src: Inst, final: seq<nat>, oldAux: seq<nat>, newAux: array<nat>, auxAt: nat)
      requires e.ChainsOk() && oldAux == e.aux && AuxInPool(e.Fn(), src) && Finals(e, final)
      requires auxAt + src.auxCount <= newAux.Length
      modifies newAux
      ensures newAux[..auxAt + src.auxCount] == old(newAux[..auxAt]) + MoveAux(e, src)
    {
      for k := 0 to src.auxCount
        invariant newAux[..auxAt] == old(newAux[..auxAt])
        invariant newAux[auxAt..auxAt + k] == MoveAux(e, src)[..k]
      {
        var v := oldAux[src.aux + k];
        if AuxHoldsValues(src.op) {
          v := if v < |final| then final[v] else v;
        }
        assert v == MoveAux(e, src)[k];
        newAux[auxAt + k] := v;
        assert newAux[auxAt..auxAt + k + 1] == newAux[auxAt..auxAt + k] + [v];
      }
      assert newAux[..auxAt + src.auxCount] == newAux[..auxAt] + newAux[auxAt..auxAt + src.auxCount];
    }

    /** Copies one instruction to its final slot: operands renumbered, its list packed at auxAt. */
    method Place(ghost e: Edits, src: Inst, at: nat, final: seq<nat>, oldAux: seq<nat>,
                 out: array<Inst>, newAux: array<nat>, auxAt: nat) returns (auxAt': nat)
      requires e.Contract() && oldAux == e.aux && Finals(e, final)
      requires at < |Layout(e)| <= out.Length && src == e.Get(PlacedAt(e, at))
      requires auxAt <= newAux.Length == |PackedAux(e, |Layout(e)|)|
      requires Built(e, at, out[..], newAux[..auxAt])
      modifies out, newAux
      ensures auxAt' <= newAux.Length && Built(e, at + 1, out[..], newAux[..auxAt'])
      ensures forall j :: 0 <= j < out.Length && j != at ==> out[j] == old(out[j])
    {
      BuiltNext(e, at, out[..], newAux[..auxAt], src);
      var args := MovedArgs(e, src, final);
      PackList(e, src, final, oldAux, newAux, auxAt);
      ghost var before := out[..];
      out[at] := src.(args := args, aux := auxAt);
      assert out[..] == before[at := MoveInst(e, src, auxAt)];
      auxAt' := auxAt + src.auxCount;
    }

    method PlaceOriginal(ghost e: Edits, i: nat, newpos: seq<nat>, final: seq<nat>,
                         out: array<Inst>, newAux: array<nat>, auxAt: nat) returns (auxAt': nat)
      requires e.Contract() && i < e.Base() == base <= insts.Length && aux == e.aux
      requires Unread(e, insts[..base], i) && Planned(e, newpos) && Finals(e, final)
      requires auxAt <= newAux.Length == |PackedAux(e, |Layout(e)|)|
      requires out.Length >= |Layout(e)| && (out == insts ==> e.added == [])
      requires Built(e, |LayoutTo(e, i)| + |InsertsAt(e, i)|, out[..], newAux[..auxAt])
      modifies out, newAux
      ensures auxAt' <= newAux.Length && Built(e, |LayoutTo(e, i + 1)|, out[..], newAux[..auxAt'])
      ensures Unread(e, insts[..base], i + 1)
    {
      auxAt' := auxAt;
      OriginalPosition(e, newpos, i);
      NoInsertsMoveDown(e, i);
      if newpos[i] != NONE {
        var src := insts[i];  // copied first: the slot may be its own target
        assert src == insts[..base][i];
        auxAt' := Place(e, src, newpos[i], final, aux, out, newAux, auxAt);
      }
    }

    method PlaceAdded(ghost e: Edits, i: nat, start: seq<nat>, order: seq<nat>, newpos: seq<nat>, final: seq<nat>,
                      out: array<Inst>, newAux: array<nat>, auxAt: nat) returns (auxAt': nat)
      requires e.Contract() && i <= e.Base() == base <= insts.Length && aux == e.aux && added == e.added
      requires Unread(e, insts[..base], i) && Sorting(e, start, order) && Planned(e, newpos) && Finals(e, final)
      requires auxAt <= newAux.Length == |PackedAux(e, |Layout(e)|)|
      requires out.Length >= |Layout(e)| && (out == insts ==> e.added == [])
      requires Built(e, |LayoutTo(e, i)|, out[..], newAux[..auxAt])
      modifies out, newAux
      ensures auxAt' <= newAux.Length
      ensures Built(e, |LayoutTo(e, i)| + |InsertsAt(e, i)|, out[..], newAux[..auxAt'])
      ensures Unread(e, insts[..base], i)
    {
      auxAt' := auxAt;
      BucketRun(e, start, order, i);
      for j := start[i] to start[i + 1]
        invariant auxAt' <= newAux.Length
        invariant Built(e, |LayoutTo(e, i)| + (j - start[i]), out[..], newAux[..auxAt'])
        invariant Unread(e, insts[..base], i)
      {
        auxAt' := PlaceOneAdded(e, i, j, start, order, newpos, final, out, newAux, auxAt');
      }
    }

    method PlaceOneAdded(ghost e: Edits, i: nat, j: nat, ghost start: seq<nat>, order: seq<nat>, newpos: seq<nat>,
                         final: seq<nat>, out: array<Inst>, newAux: array<nat>, auxAt: nat) returns (auxAt': nat)
      requires e.Contract() && i <= e.Base() == base <= insts.Length && aux == e.aux && added == e.added
      requires Unread(e, insts[..base], i) && Sorting(e, start, order) && Planned(e, newpos) && Finals(e, final)
      requires auxAt <= newAux.Length == |PackedAux(e, |Layout(e)|)|
      requires out.Length >= |Layout(e)| && (out == insts ==> e.added == [])
      requires |start| == base + 2 && start[i] <= j < start[i + 1]
      requires start[i + 1] - start[i] == |InsertsAt(e, i)|
      requires Built(e, |LayoutTo(e, i)| + (j - start[i]), out[..], newAux[..auxAt])
      modifies out, newAux
      ensures auxAt' <= newAux.Length
      ensures Built(e, |LayoutTo(e, i)| + (j + 1 - start[i]), out[..], newAux[..auxAt'])
      ensures Unread(e, insts[..base], i)
    {
      BucketEntry(e, start, order, i, j - start[i]);
      InsertPosition(e, newpos, i, j - start[i]);
      var k := order[j];
      auxAt' := Place(e, added[k], newpos[base + k], final, aux, out, newAux, auxAt);
    }

    /** The inserts anchored at i, then i itself if it survives. */
    method PlaceAnchored(ghost e: Edits, i: nat, start: seq<nat>, order: seq<nat>, newpos: seq<nat>, final: seq<nat>,
                         out: array<Inst>, newAux: array<nat>, auxAt: nat) returns (auxAt': nat)
      requires e.Contract() && i < e.Base() == base <= insts.Length && aux == e.aux && added == e.added
      requires Unread(e, insts[..base], i) && Sorting(e, start, order) && Planned(e, newpos) && Finals(e, final)
      requires auxAt <= newAux.Length == |PackedAux(e, |Layout(e)|)|
      requires out.Length >= |Layout(e)| && (out == insts ==> e.added == [])
      requires Built(e, |LayoutTo(e, i)|, out[..], newAux[..auxAt])
      modifies out, newAux
      ensures auxAt' <= newAux.Length && Built(e, |LayoutTo(e, i + 1)|, out[..], newAux[..auxAt'])
      ensures Unread(e, insts[..base], i + 1)
    {
      auxAt' := PlaceAdded(e, i, start, order, newpos, final, out, newAux, auxAt);
      auxAt' := PlaceOriginal(e, i, newpos, final, out, newAux, auxAt');
    }

    method PlaceAll(ghost e: Edits, start: seq<nat>, order: seq<nat>, newpos: seq<nat>, final: seq<nat>,
                    out: array<Inst>, newAux: array<nat>) returns (auxAt: nat)
      requires e.Contract() && e.Base() == base <= insts.Length && aux == e.aux && added == e.added
      requires Unread(e, insts[..base], 0) && Sorting(e, start, order) && Planned(e, newpos) && Finals(e, final)
      requires newAux.Length == |PackedAux(e, |Layout(e)|)|
      requires out.Length >= |Layout(e)| && (out == insts ==> e.added == [])
      modifies out, newAux
      ensures auxAt <= newAux.Length && Built(e, |LayoutTo(e, base)|, out[..], newAux[..auxAt])
      ensures Unread(e, insts[..base], base)
    {
      auxAt := 0;
      for i := 0 to base
        invariant auxAt <= newAux.Length
        invariant Built(e, |LayoutTo(e, i)|, out[..], newAux[..auxAt])
        invariant Unread(e, insts[..base], i)
      {
        auxAt := PlaceAnchored(e, i, start, order, newpos, final, out, newAux, auxAt);
      }
    }

    /** Builds the dense function in `out`, which is the function's own array when nothing was
        inserted: every slot moves down or stays, so no instruction is overwritten unread. */
    method Rebuild(ghost e: Edits, start: seq<nat>, order: seq<nat>, newpos: seq<nat>, final: seq<nat>,
                   out: array<Inst>, newAux: array<nat>)
      requires e.Contract() && e.Base() == base <= insts.Length && aux == e.aux && added == e.added
      requires Unread(e, insts[..base], 0) && Sorting(e, start, order) && Planned(e, newpos) && Finals(e, final)
      requires newAux.Length == |PackedAux(e, |Layout(e)|)|
      requires out.Length >= |Layout(e)| && (out == insts ==> e.added == [])
      modifies out, newAux
      ensures out[..|Layout(e)|] == Committed(e).insts && newAux[..] == Committed(e).aux
    {
      var auxAt := PlaceAll(e, start, order, newpos, final, out, newAux);
      auxAt := PlaceAdded(e, base, start, order, newpos, final, out, newAux, auxAt);
      assert newAux[..][..auxAt] == newAux[..auxAt];
      BuiltAll(e, out[..], newAux[..], auxAt);
    }

    /** Copies the first n items back, growing the function's storage only when it is too small. */
    method CopyBack(from: array<Inst>, n: nat)
      requires n <= from.Length && from != insts
      modifies this`insts, insts
      ensures insts == old(insts) || fresh(insts)
      ensures n <= insts.Length && insts[..n] == old(from[..n])
    {
      if insts.Length < n {
        insts := new Inst[n + n / 2 + 16];
      }
      for i := 0 to n
        invariant insts == old(insts) || fresh(insts)
        invariant insts != from && n <= insts.Length && from[..n] == old(from[..n])
        invariant insts[..i] == from[..i]
      {
        insts[i] := from[i];
        assert insts[..i + 1] == insts[..i] + [from[i]];
      }
    }

    /** The dense rebuild: inserts placed, the dead and the nops dropped, every operand renumbered,
        the operand pool repacked. */
    method Compact()
      requires Valid() && Value().Contract()
      modifies this`insts, this`count, this`aux, insts
      ensures insts == old(insts) || fresh(insts)
      ensures count <= insts.Length && Func(insts[..count], aux) == Committed(old(Value()))
    {
      ghost var e := Value();
      var start, order := SortByAnchor(anchor, base);
      var newpos, n := Positions(e, start[..], order[..]);
      var final := FinalIds(e, newpos[..]);
      var total := PoolTotal(e, newpos[..]);
      var newAux := new nat[total];
      CompactInto(e, n, start[..], order[..], newpos[..], final[..], newAux);
    }

    method CompactInto(ghost e: Edits, n: nat, start: seq<nat>, order: seq<nat>, newpos: seq<nat>, final: seq<nat>,
                       newAux: array<nat>)
      requires Valid() && e == Value() && e.Contract() && n == |Layout(e)|
      requires Sorting(e, start, order) && Planned(e, newpos) && Finals(e, final)
      requires newAux.Length == |PackedAux(e, n)| && newAux != repl
      modifies this`insts, this`count, this`aux, insts, newAux
      ensures insts == old(insts) || fresh(insts)
      ensures count <= insts.Length && Func(insts[..count], aux) == Committed(e)
    {
      if added != [] {
        var out := new Inst[n];
        Rebuild(e, start, order, newpos, final, out, newAux);
        CopyBack(out, n);
      } else {
        NoInsertsMoveDown(e, base);
        Rebuild(e, start, order, newpos, final, insts, newAux);
      }
      count := n;
      aux := newAux[..];
    }

    /** Applies everything; true when the function changed. `compact` forces the dense rebuild
        even without inserts. */
    method Commit(compact: bool) returns (didChange: bool)
      requires Valid() && Value().Contract()
      requires resolved ==> AllResolved(Value())
      modifies this`insts, this`count, this`aux, insts
      ensures didChange == changed
      ensures insts == old(insts) || fresh(insts)
      ensures count <= insts.Length
      ensures Func(insts[..count], aux) ==
              if added != [] || compact then Committed(old(Value()))
              else if changed then Redirected(old(Value())) else old(Value()).Fn()
    {
      if added == [] && !compact {
        if changed {
          CommitInPlace();
        }
        return changed;
      }
      Compact();
      return changed;
    }
  }

  /** Without inserts, an instruction's new slot is never above its old one. */
  lemma {:induction false} NoInsertsMoveDown(e: Edits, i: nat)
    requires e.Shaped() && i <= e.Base()
    ensures e.added == [] ==> |LayoutTo(e, i)| + |InsertsAt(e, i)| <= i
  {
    if e.added == [] {
      LayoutToFits(e, i);
      NoneStart(e.anchor, i);
    }
  }

  lemma {:induction false} LiveInPool(e: Edits, i: nat)
    requires e.Contract() && i < e.Base()
    ensures e.Live(i) ==> AuxInPool(e.Fn(), e.insts[i])
  {
    assert e.Get(i) == e.insts[i];
  }

  function InsertInto(e: Edits, before: nat, inst: Inst, list: seq<nat>): Edits {
    e.(aux := e.aux + list, added := e.added + [inst.(aux := |e.aux|, auxCount := |list|)],
       anchor := e.anchor + [before])
  }

  lemma {:induction false} ReplChanged(e: Edits, id: nat, r: nat)
    requires e.ChainsOk() && id < e.Base()
    requires r == NONE || (0 < r && r - 1 < e.Total() && e.Before(r - 1, id))
    ensures e.(repl := e.repl[id := r]).ChainsOk()
  {
    var f := e.(repl := e.repl[id := r]);
    forall i | 0 <= i < f.Base()
      ensures f.Replaces(i)
    {
      assert e.Replaces(i);
    }
  }

  lemma {:induction false} InsertKeepsChains(e: Edits, before: nat, inst: Inst, list: seq<nat>)
    requires e.ChainsOk() && before <= e.Base() && e.Total() + 1 < MAX_IDS
    ensures InsertInto(e, before, inst, list).ChainsOk()
  {
    var f := InsertInto(e, before, inst, list);
    forall i | 0 <= i < f.Base()
      ensures f.Replaces(i)
    {
      assert e.Replaces(i);
    }
  }
}
