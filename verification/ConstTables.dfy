/** Constant tables: a flat array of scalar leaves, the composite constant a back end builds from
    it, and reading an element out of it by an index path. */
module ConstTables {
  import opened Ir

  /** A type with a constant form, over scalars named by number, or one without. */
  datatype Type =
    | Scalar(s: nat)
    | Vector(s: nat, n: nat)
    | Matrix(s: nat, rows: nat, cols: nat)
    | Array(elem: Type, count: nat)
    | Other

  function LeafCount(t: Type): nat {
    match t
    case Scalar(_) => 1
    case Vector(_, n) => n
    case Matrix(_, rows, cols) => rows * cols
    case Array(elem, count) => count * LeafCount(elem)
    case Other => 0
  }

  predicate HasConstForm(t: Type) {
    match t
    case Array(elem, _) => HasConstForm(elem)
    case Other => false
    case _ => true
  }

  // ----- the composite -----

  datatype Const = Leaf(bits: nat) | Composite(parts: seq<Const>)

  /** A constant and where the cursor stands behind its leaves. */
  datatype Built = Built(c: Const, next: nat)
  datatype BuiltParts = BuiltParts(parts: seq<Const>, next: nat)

  /** The constant of type t from the leaves at the cursor on. */
  function Build(t: Type, leaves: seq<nat>, at: nat): (r: Built)
    requires HasConstForm(t) && at + LeafCount(t) <= |leaves|
    ensures r.next == at + LeafCount(t)
    decreases t, 1
  {
    match t
    case Scalar(_) => Built(Leaf(leaves[at]), at + 1)
    case Vector(_, n) => BuildVector(n, leaves, at)
    case Matrix(_, rows, cols) =>
      var r := BuildRows(rows, cols, leaves, at);
      Built(Composite(r.parts), r.next)
    case Array(elem, count) =>
      var r := BuildElements(elem, count, leaves, at);
      Built(Composite(r.parts), r.next)
  }

  function BuildVector(n: nat, leaves: seq<nat>, at: nat): (r: Built)
    requires at + n <= |leaves|
  {
    Built(Composite(seq(n, i requires 0 <= i < n => Leaf(leaves[at + i]))), at + n)
  }

  function BuildRows(rows: nat, cols: nat, leaves: seq<nat>, at: nat): (r: BuiltParts)
    requires at + rows * cols <= |leaves|
    ensures r.next == at + rows * cols && |r.parts| == rows
  {
    if rows == 0 then BuiltParts([], at)
    else
      OneMore(rows - 1, cols);
      var before := BuildRows(rows - 1, cols, leaves, at);
      var row := BuildVector(cols, leaves, before.next);
      BuiltParts(before.parts + [row.c], row.next)
  }

  function BuildElements(elem: Type, count: nat, leaves: seq<nat>, at: nat): (r: BuiltParts)
    requires HasConstForm(elem) && at + count * LeafCount(elem) <= |leaves|
    ensures r.next == at + count * LeafCount(elem) && |r.parts| == count
    decreases elem, 2, count
  {
    if count == 0 then BuiltParts([], at)
    else
      OneMore(count - 1, LeafCount(elem));
      var before := BuildElements(elem, count - 1, leaves, at);
      var item := Build(elem, leaves, before.next);
      BuiltParts(before.parts + [item.c], item.next)
  }

  lemma {:induction false} OneMore(n: nat, k: nat)
    ensures (n + 1) * k == n * k + k
  {
  }

  lemma {:induction false} Split(a: nat, b: nat, k: nat)
    ensures (a + b) * k == a * k + b * k && a * k >= 0
  {
  }

  lemma {:induction false} Within(i: nat, n: nat, k: nat)
    requires i < n
    ensures i * k + k <= n * k
  {
    OneMore(i, k);
    Split(n - (i + 1), i + 1, k);
  }

  // ----- indexing -----

  /** The type that a path of indexes leads to; none when an index is out of range. */
  function TypeAt(t: Type, path: seq<nat>): Option<Type>
    decreases |path|
  {
    if path == [] then Some(t)
    else match t
      case Array(elem, count) => if path[0] < count then TypeAt(elem, path[1..]) else None
      case Matrix(s, rows, cols) => if path[0] < rows then TypeAt(Vector(s, cols), path[1..]) else None
      case Vector(s, n) => if n > 1 && path[0] < n && |path| == 1 then Some(Scalar(s)) else None
      case _ => None
  }

  /** The part of a constant that a path leads to. */
  function PartAt(c: Const, path: seq<nat>): Option<Const> {
    if path == [] then Some(c)
    else if c.Composite? && path[0] < |c.parts| then PartAt(c.parts[path[0]], path[1..])
    else None
  }

  /** The leaves of a constant, in order. */
  function Leaves(c: Const): seq<nat>
    decreases c, 1
  {
    match c
    case Leaf(bits) => [bits]
    case Composite(parts) => LeavesOf(parts)
  }

  function LeavesOf(parts: seq<Const>): seq<nat>
    decreases parts, 1
  {
    if parts == [] then [] else LeavesOf(parts[..|parts| - 1]) + Leaves(parts[|parts| - 1])
  }

  // ----- the slice -----

  /** Where the leaves under a path start. */
  function OffsetAt(t: Type, path: seq<nat>): nat
    requires TypeAt(t, path).Some?
    decreases |path|
  {
    if path == [] then 0
    else match t
      case Array(elem, _) => path[0] * LeafCount(elem) + OffsetAt(elem, path[1..])
      case Matrix(s, _, cols) => path[0] * cols + OffsetAt(Vector(s, cols), path[1..])
      case Vector(_, _) => path[0]
  }

  /** Scalar and lane count of a type that constants fold at. */
  function LaneType(t: Type): Option<(nat, nat)> {
    match t
    case Scalar(s) => Some((s, 1))
    case Vector(s, n) => Some((s, n))
    case _ => None
  }

  /** What reading a table's element as `want` should yield: the leaves under the path in the
      composite, when the path is in range and leads to lanes of that type. */
  ghost function ElementLanes(t: Type, leaves: seq<nat>, path: seq<nat>, want: Type, foldable: nat -> bool): Option<seq<nat>>
    requires HasConstForm(t) && LeafCount(t) <= |leaves|
  {
    var sub, part := TypeAt(t, path), PartAt(Build(t, leaves, 0).c, path);
    if sub.Some? && part.Some? && LaneType(sub.value).Some? && foldable(LaneType(sub.value).value.0) &&
       LaneType(want) == LaneType(sub.value)
    then Some(Leaves(part.value))
    else None
  }

  // ----- the composite is the leaves, arranged -----

  lemma {:induction false} VectorLeaves(n: nat, leaves: seq<nat>, at: nat, k: nat)
    requires k <= n && at + n <= |leaves|
    ensures LeavesOf(BuildVector(n, leaves, at).c.parts[..k]) == leaves[at..at + k]
  {
    var parts := BuildVector(n, leaves, at).c.parts;
    if k > 0 {
      VectorLeaves(n, leaves, at, k - 1);
      assert parts[..k][..k - 1] == parts[..k - 1];
      assert leaves[at..at + k] == leaves[at..at + k - 1] + [leaves[at + k - 1]];
    }
  }

  lemma {:induction false} WholeVector(n: nat, leaves: seq<nat>, at: nat)
    requires at + n <= |leaves|
    ensures Leaves(BuildVector(n, leaves, at).c) == leaves[at..at + n]
  {
    VectorLeaves(n, leaves, at, n);
    var parts := BuildVector(n, leaves, at).c.parts;
    assert parts[..n] == parts;
  }

  lemma {:induction false} LeavesOfSnoc(parts: seq<Const>, c: Const)
    ensures LeavesOf(parts + [c]) == LeavesOf(parts) + Leaves(c)
  {
    assert (parts + [c])[..|parts|] == parts;
  }

  lemma {:induction false} BuiltFromLeaves(t: Type, leaves: seq<nat>, at: nat)
    requires HasConstForm(t) && at + LeafCount(t) <= |leaves|
    ensures Leaves(Build(t, leaves, at).c) == leaves[at..at + LeafCount(t)]
    decreases t, 0
  {
    match t
    case Scalar(_) =>
    case Vector(_, n) => WholeVector(n, leaves, at);
    case Matrix(_, rows, cols) => RowsFromLeaves(rows, cols, leaves, at);
    case Array(elem, count) => ElementsFromLeaves(elem, count, leaves, at);
  }

  lemma {:induction false} RowsFromLeaves(rows: nat, cols: nat, leaves: seq<nat>, at: nat)
    requires at + rows * cols <= |leaves|
    ensures LeavesAre(BuildRows(rows, cols, leaves, at), leaves, at)
  {
    if rows > 0 {
      OneMore(rows - 1, cols);
      RowsFromLeaves(rows - 1, cols, leaves, at);
      LastRow(cols, BuildRows(rows - 1, cols, leaves, at), leaves, at);
    } else {
      assert leaves[at..at] == [];
    }
  }

  lemma {:induction false} LastRow(cols: nat, before: BuiltParts, leaves: seq<nat>, at: nat)
    requires before.next + cols <= |leaves| && LeavesAre(before, leaves, at)
    ensures var row := BuildVector(cols, leaves, before.next);
            LeavesAre(BuiltParts(before.parts + [row.c], row.next), leaves, at)
  {
    WholeVector(cols, leaves, before.next);
    LeavesOfSnoc(before.parts, BuildVector(cols, leaves, before.next).c);
    JoinSlices(leaves, at, before.next, before.next + cols);
  }

  lemma {:induction false} JoinSlices(leaves: seq<nat>, a: nat, b: nat, c: nat)
    requires a <= b <= c <= |leaves|
    ensures leaves[a..b] + leaves[b..c] == leaves[a..c]
  {
  }

  lemma {:induction false} ElementsFromLeaves(elem: Type, count: nat, leaves: seq<nat>, at: nat)
    requires HasConstForm(elem) && at + count * LeafCount(elem) <= |leaves|
    ensures LeavesAre(BuildElements(elem, count, leaves, at), leaves, at)
    decreases elem, 2, count
  {
    if count > 0 {
      RoomForOne(elem, count, leaves, at);
      ElementsFromLeaves(elem, count - 1, leaves, at);
      LastElement(elem, BuildElements(elem, count - 1, leaves, at), leaves, at);
    } else {
      assert leaves[at..at] == [];
    }
  }

  ghost predicate LeavesAre(b: BuiltParts, leaves: seq<nat>, at: nat) {
    at <= b.next <= |leaves| && LeavesOf(b.parts) == leaves[at..b.next]
  }

  lemma {:induction false} RoomForOne(elem: Type, count: nat, leaves: seq<nat>, at: nat)
    requires HasConstForm(elem) && count > 0 && at + count * LeafCount(elem) <= |leaves|
    ensures at + (count - 1) * LeafCount(elem) + LeafCount(elem) == at + count * LeafCount(elem)
    ensures var before := BuildElements(elem, count - 1, leaves, at);
            var item := Build(elem, leaves, before.next);
            BuildElements(elem, count, leaves, at) == BuiltParts(before.parts + [item.c], item.next)
  {
    OneMore(count - 1, LeafCount(elem));
  }

  lemma {:induction false} LastElement(elem: Type, before: BuiltParts, leaves: seq<nat>, at: nat)
    requires HasConstForm(elem) && before.next + LeafCount(elem) <= |leaves| && LeavesAre(before, leaves, at)
    ensures var item := Build(elem, leaves, before.next);
            LeavesAre(BuiltParts(before.parts + [item.c], item.next), leaves, at)
    decreases elem, 1
  {
    BuiltFromLeaves(elem, leaves, before.next);
    LeavesOfSnoc(before.parts, Build(elem, leaves, before.next).c);
    JoinSlices(leaves, at, before.next, before.next + LeafCount(elem));
  }

  // ----- indexing the composite is indexing the table -----

  lemma {:induction false} RowAt(rows: nat, cols: nat, leaves: seq<nat>, at: nat, i: nat)
    requires at + rows * cols <= |leaves| && i < rows
    ensures at + i * cols + cols <= |leaves|
    ensures BuildRows(rows, cols, leaves, at).parts[i] == BuildVector(cols, leaves, at + i * cols).c
  {
    Within(i, rows, cols);
    OneMore(rows - 1, cols);
    if i < rows - 1 {
      RowAt(rows - 1, cols, leaves, at, i);
    }
  }

  lemma {:induction false} ElementAt(elem: Type, count: nat, leaves: seq<nat>, at: nat, i: nat)
    requires HasConstForm(elem) && at + count * LeafCount(elem) <= |leaves| && i < count
    ensures at + i * LeafCount(elem) + LeafCount(elem) <= |leaves|
    ensures BuildElements(elem, count, leaves, at).parts[i] == Build(elem, leaves, at + i * LeafCount(elem)).c
    decreases count
  {
    Within(i, count, LeafCount(elem));
    OneMore(count - 1, LeafCount(elem));
    if i < count - 1 {
      ElementAt(elem, count - 1, leaves, at, i);
    }
  }

  /** The part under a path is what is built at the path's offset, of the type at the path. */
  lemma {:induction false} PartIsBuilt(t: Type, leaves: seq<nat>, at: nat, path: seq<nat>)
    requires HasConstForm(t) && at + LeafCount(t) <= |leaves| && TypeAt(t, path).Some?
    ensures PartBuilt(t, leaves, at, path)
    decreases |path|, 1
  {
    if path != [] {
      match t
      case Array(_, _) => ArrayPart(t, leaves, at, path);
      case Matrix(_, _, _) => MatrixPart(t, leaves, at, path);
      case Vector(s, n) => VectorPart(s, n, leaves, at, path);
    }
  }

  ghost predicate PartBuilt(t: Type, leaves: seq<nat>, at: nat, path: seq<nat>)
    requires HasConstForm(t) && at + LeafCount(t) <= |leaves| && TypeAt(t, path).Some?
  {
    var sub, from := TypeAt(t, path).value, at + OffsetAt(t, path);
    && HasConstForm(sub) && from + LeafCount(sub) <= at + LeafCount(t)
    && PartAt(Build(t, leaves, at).c, path) == Some(Build(sub, leaves, from).c)
  }

  lemma {:induction false} MatrixPart(t: Type, leaves: seq<nat>, at: nat, path: seq<nat>)
    requires t.Matrix? && at + LeafCount(t) <= |leaves| && path != [] && TypeAt(t, path).Some?
    ensures PartBuilt(t, leaves, at, path)
  {
    RowAt(t.rows, t.cols, leaves, at, path[0]);
    Within(path[0], t.rows, t.cols);
    VectorPart(t.s, t.cols, leaves, at + path[0] * t.cols, path[1..]);
  }

  lemma {:induction false} ArrayPart(t: Type, leaves: seq<nat>, at: nat, path: seq<nat>)
    requires t.Array? && HasConstForm(t) && at + LeafCount(t) <= |leaves| && path != [] && TypeAt(t, path).Some?
    ensures PartBuilt(t, leaves, at, path)
    decreases |path|, 0
  {
    var k := path[0] * LeafCount(t.elem);
    ElementAt(t.elem, t.count, leaves, at, path[0]);
    Within(path[0], t.count, LeafCount(t.elem));
    PartIsBuilt(t.elem, leaves, at + k, path[1..]);
    assert PartAt(Build(t, leaves, at).c, path) == PartAt(Build(t.elem, leaves, at + k).c, path[1..]);
  }

  lemma {:induction false} VectorPart(s: nat, n: nat, leaves: seq<nat>, at: nat, path: seq<nat>)
    requires at + n <= |leaves| && TypeAt(Vector(s, n), path).Some?
    ensures PartBuilt(Vector(s, n), leaves, at, path)
  {
    if path != [] {
      assert path[1..] == [];
    }
  }

  /** So the lanes under a path are a slice of the table. */
  lemma {:induction false} SliceIsIndexing(t: Type, leaves: seq<nat>, path: seq<nat>)
    requires HasConstForm(t) && LeafCount(t) <= |leaves| && TypeAt(t, path).Some?
    ensures var sub, from := TypeAt(t, path).value, OffsetAt(t, path);
            && from + LeafCount(sub) <= |leaves| && PartAt(Build(t, leaves, 0).c, path).Some?
            && Leaves(PartAt(Build(t, leaves, 0).c, path).value) == leaves[from..from + LeafCount(sub)]
  {
    PartIsBuilt(t, leaves, 0, path);
    BuiltFromLeaves(TypeAt(t, path).value, leaves, OffsetAt(t, path));
  }

  // ----- the reader -----

  lemma {:induction false} LanesAreSlice(t: Type, leaves: seq<nat>, path: seq<nat>, want: Type, foldable: nat -> bool,
                                         s: nat, n: nat, from: nat)
    requires HasConstForm(t) && LeafCount(t) <= |leaves| && foldable(s) && LaneType(want) == Some((s, n))
    requires TypeAt(t, path).Some? && LaneType(TypeAt(t, path).value) == Some((s, n)) && OffsetAt(t, path) == from
    ensures from + n <= |leaves| && ElementLanes(t, leaves, path, want, foldable) == Some(leaves[from..from + n])
  {
    SliceIsIndexing(t, leaves, path);
  }

  /** The array part of a path: how far it goes, the type it leads to, and the offset. */
  method WalkArrays(t: Type, index: seq<nat>) returns (ok: bool, k: nat, sub: Type, offset: nat)
    ensures k <= |index|
    ensures ok ==> TypeAt(t, index) == TypeAt(sub, index[k..]) && (k < |index| ==> !sub.Array?)
    ensures ok && TypeAt(t, index).Some? ==> OffsetAt(t, index) == offset + OffsetAt(sub, index[k..])
    ensures !ok ==> TypeAt(t, index) == None
  {
    ok, k, sub, offset := true, 0, t, 0;
    assert index[0..] == index;
    while k < |index| && sub.Array?
      invariant k <= |index|
      invariant TypeAt(t, index) == TypeAt(sub, index[k..])
      invariant TypeAt(t, index).Some? ==> OffsetAt(t, index) == offset + OffsetAt(sub, index[k..])
      decreases |index| - k
    {
      assert index[k..][1..] == index[k + 1..];
      if index[k] >= sub.count {
        ok := false;
        return;
      }
      offset := offset + index[k] * LeafCount(sub.elem);
      sub := sub.elem;
      k := k + 1;
    }
  }

  /** The lanes of a table's element, when the index path leads to a scalar or vector of the wanted
      type; exactly the leaves under that path in the composite. */
  method GlobalLanes(t: Type, leaves: seq<nat>, index: seq<nat>, want: Type, foldable: nat -> bool)
    returns (lanes: Option<seq<nat>>)
    requires HasConstForm(t) && LeafCount(t) <= |leaves|
    ensures lanes == ElementLanes(t, leaves, index, want, foldable)
  {
    var ok, k, sub, offset := WalkArrays(t, index);
    if !ok || sub.Array? || sub.Other? {
      NoLanes(t, leaves, index, k, sub, ok);
      return None;
    }
    var rest := index[k..];
    ghost var outer := sub;
    ghost var start := offset;
    var s := sub.s;
    var n := if sub.Vector? then sub.n else if sub.Matrix? then sub.cols else 1;
    if sub.Matrix? {
      if k >= |index| || index[k] >= sub.rows {
        return None;
      }
      offset := offset + index[k] * sub.cols;
      k := k + 1;
    }
    if k < |index| {
      if n == 1 || index[k] >= n {
        return None;
      }
      offset := offset + index[k];
      n := 1;
      k := k + 1;
    }
    if k != |index| || !foldable(s) || LaneType(want) != Some((s, n)) {
      return None;
    }
    LanesAreSlice(t, leaves, index, want, foldable, s, n, offset);
    lanes := Some(leaves[offset..offset + n]);
  }

  lemma {:induction false} NoLanes(t: Type, leaves: seq<nat>, index: seq<nat>, k: nat, sub: Type, ok: bool)
    requires k <= |index| && (sub.Array? || sub.Other? || !ok)
    requires if ok then TypeAt(t, index) == TypeAt(sub, index[k..]) && (k < |index| ==> !sub.Array?) else TypeAt(t, index) == None
    ensures TypeAt(t, index).Some? ==> LaneType(TypeAt(t, index).value) == None
  {
  }
}
