/** Records of the container: numbers in little-endian bytes and zero-padded names, read back in the
    order they were written. */
module SksFields {
  import opened Ir

  type Byte = b: int | 0 <= b < 256
  type Bytes = seq<Byte>

  datatype Field = Num(size: nat) | Str(size: nat)
  datatype Value = N(n: nat) | S(s: Bytes)

  /** Something read, and the bytes after it. */
  datatype Got<T> = Got(value: T, rest: Bytes)

  // ----- numbers -----

  function Span(size: nat): (n: nat)
    ensures n > 0
  {
    if size == 0 then 1 else 256 * Span(size - 1)
  }

  function LeBytes(n: nat, size: nat): (b: Bytes)
    ensures |b| == size
  {
    if size == 0 then [] else [n % 256] + LeBytes(n / 256, size - 1)
  }

  function FromLe(b: Bytes): nat {
    if b == [] then 0 else b[0] + 256 * FromLe(b[1..])
  }

  lemma {:induction false} LeReads(n: nat, size: nat)
    requires n < Span(size)
    ensures FromLe(LeBytes(n, size)) == n
  {
    if size > 0 {
      LeReads(n / 256, size - 1);
    }
  }

  // ----- names -----

  function Padded(s: Bytes, size: nat): (b: Bytes)
    ensures |b| == size
  {
    seq(size, i requires 0 <= i < size => if i < |s| then s[i] else 0)
  }

  /** The bytes before the first zero. */
  function CString(b: Bytes): (s: Bytes)
    ensures |s| <= |b| && s == b[..|s|] && 0 !in s
    ensures |s| < |b| ==> b[|s|] == 0
  {
    if b == [] || b[0] == 0 then [] else [b[0]] + CString(b[1..])
  }

  /** What a field of that size keeps of a name. */
  function Kept(s: Bytes, size: nat): Bytes {
    CString(if |s| <= size then s else s[..size])
  }

  lemma {:induction false} PaddedReads(s: Bytes, size: nat)
    ensures CString(Padded(s, size)) == Kept(s, size)
  {
    var cut := if |s| <= size then s else s[..size];
    CStringIs(Padded(s, size), CString(cut));
  }

  lemma {:induction false} CStringIs(b: Bytes, s: Bytes)
    requires |s| <= |b| && s == b[..|s|] && 0 !in s && (|s| < |b| ==> b[|s|] == 0)
    ensures CString(b) == s
  {
    if s != [] {
      assert b[0] == s[0];
      CStringIs(b[1..], s[1..]);
    }
  }

  /** A name without zeros that fits is kept. */
  lemma {:induction false} NameIsKept(s: Bytes, size: nat)
    requires |s| <= size && 0 !in s
    ensures Kept(s, size) == s
  {
    CStringIs(s, s);
  }

  // ----- fields -----

  predicate Fits(v: Value, f: Field) {
    match f
    case Num(size) => v.N? && v.n < Span(size)
    case Str(_) => v.S?
  }

  /** What reading back a value gives. */
  function Survives(v: Value, f: Field): Value {
    if f.Str? && v.S? then S(Kept(v.s, f.size)) else v
  }

  function FieldBytes(v: Value, f: Field): (b: Bytes)
    ensures |b| == f.size
  {
    if v.N? then LeBytes(v.n, f.size) else Padded(v.s, f.size)
  }

  function ReadField(f: Field, b: Bytes): Option<Got<Value>> {
    if f.size > |b| then None
    else Some(Got(if f.Num? then N(FromLe(b[..f.size])) else S(CString(b[..f.size])), b[f.size..]))
  }

  lemma {:induction false} FieldReads(v: Value, f: Field, tail: Bytes)
    requires Fits(v, f)
    ensures ReadField(f, FieldBytes(v, f) + tail) == Some(Got(Survives(v, f), tail))
  {
    var b := FieldBytes(v, f);
    assert (b + tail)[..f.size] == b && (b + tail)[f.size..] == tail;
    if f.Num? {
      LeReads(v.n, f.size);
    } else {
      PaddedReads(v.s, f.size);
    }
  }

  // ----- records -----

  type Schema = seq<Field>
  type Record = seq<Value>

  predicate Shaped(r: Record, schema: Schema) {
    |r| == |schema| && forall i :: 0 <= i < |r| ==> Fits(r[i], schema[i])
  }

  function Size(schema: Schema): nat {
    if schema == [] then 0 else schema[0].size + Size(schema[1..])
  }

  function RecordBytes(r: Record, schema: Schema): (b: Bytes)
    ensures |r| == |schema| ==> |b| == Size(schema)
  {
    if r == [] || schema == [] then [] else FieldBytes(r[0], schema[0]) + RecordBytes(r[1..], schema[1..])
  }

  function RecordSurvives(r: Record, schema: Schema): (s: Record)
    requires |r| == |schema|
    ensures |s| == |r|
  {
    seq(|r|, i requires 0 <= i < |r| => Survives(r[i], schema[i]))
  }

  function ReadRecord(schema: Schema, b: Bytes): (got: Option<Got<Record>>)
    ensures got.Some? ==> |got.value.value| == |schema|
  {
    if schema == [] then Some(Got([], b))
    else
      var first := ReadField(schema[0], b);
      if first.None? then None
      else
        var others := ReadRecord(schema[1..], first.value.rest);
        if others.None? then None else Some(Got([first.value.value] + others.value.value, others.value.rest))
  }

  lemma {:induction false} Onto(a: Bytes, b: Bytes, tail: Bytes)
    ensures (a + b) + tail == a + (b + tail)
  {
  }

  lemma {:induction false} RecordReads(r: Record, schema: Schema, tail: Bytes)
    requires Shaped(r, schema)
    ensures ReadRecord(schema, RecordBytes(r, schema) + tail) == Some(Got(RecordSurvives(r, schema), tail))
    decreases |r|
  {
    if r == [] {
      assert [] + tail == tail;
    } else {
      var more := RecordBytes(r[1..], schema[1..]);
      Onto(FieldBytes(r[0], schema[0]), more, tail);
      FieldReads(r[0], schema[0], more + tail);
      RecordReads(r[1..], schema[1..], tail);
      assert RecordSurvives(r, schema) == [Survives(r[0], schema[0])] + RecordSurvives(r[1..], schema[1..]);
    }
  }

  /** Bytes that follow do not change what is read. */
  lemma {:induction false} RecordExtends(schema: Schema, b: Bytes, tail: Bytes)
    ensures var got := ReadRecord(schema, b);
            got.Some? ==> ReadRecord(schema, b + tail) == Some(Got(got.value.value, got.value.rest + tail))
    decreases |schema|
  {
    if schema != [] && schema[0].size <= |b| {
      var size := schema[0].size;
      assert (b + tail)[..size] == b[..size] && (b + tail)[size..] == b[size..] + tail;
      RecordExtends(schema[1..], b[size..], tail);
    }
  }

  // ----- lists -----

  /** One after the other. */
  function ManyBytes<A>(bytes: A -> Bytes, xs: seq<A>): Bytes {
    if xs == [] then [] else bytes(xs[0]) + ManyBytes(bytes, xs[1..])
  }

  function ReadMany<V>(one: Bytes -> Option<Got<V>>, n: nat, b: Bytes): (got: Option<Got<seq<V>>>)
    ensures got.Some? ==> |got.value.value| == n
  {
    if n == 0 then Some(Got([], b))
    else
      var first := one(b);
      if first.None? then None
      else
        var others := ReadMany(one, n - 1, first.value.rest);
        if others.None? then None else Some(Got([first.value.value] + others.value.value, others.value.rest))
  }

  function Each<A, V>(f: A -> V, xs: seq<A>): (ys: seq<V>)
    ensures |ys| == |xs| && forall i :: 0 <= i < |xs| ==> ys[i] == f(xs[i])
  {
    seq(|xs|, i requires 0 <= i < |xs| => f(xs[i]))
  }

  predicate All<A>(ok: A -> bool, xs: seq<A>) {
    forall i :: 0 <= i < |xs| ==> ok(xs[i])
  }

  /** Reading undoes writing, up to what is kept, whatever bytes follow. */
  ghost predicate Undoes<A(!new), V(!new)>(one: Bytes -> Option<Got<V>>, bytes: A -> Bytes, kept: A -> V, ok: A -> bool) {
    forall x: A, tail: Bytes :: ok(x) ==> one(bytes(x) + tail) == Some(Got(kept(x), tail)) && |bytes(x)| > 0
  }

  /** Bytes that follow do not change what is read. */
  ghost predicate Extends<V(!new)>(one: Bytes -> Option<Got<V>>) {
    forall b: Bytes, tail: Bytes :: one(b).Some? ==>
      one(b + tail) == Some(Got(one(b).value.value, one(b).value.rest + tail))
  }

  lemma {:induction false} ManyUndo<A(!new), V(!new)>(one: Bytes -> Option<Got<V>>, bytes: A -> Bytes, kept: A -> V, ok: A -> bool, xs: seq<A>, tail: Bytes)
    requires Undoes(one, bytes, kept, ok) && All(ok, xs)
    ensures ReadMany(one, |xs|, ManyBytes(bytes, xs) + tail) == Some(Got(Each(kept, xs), tail))
    ensures |xs| <= |ManyBytes(bytes, xs)|
    decreases |xs|
  {
    if xs == [] {
      assert [] + tail == tail;
    } else {
      var more := ManyBytes(bytes, xs[1..]);
      Onto(bytes(xs[0]), more, tail);
      assert ok(xs[0]);
      assert one(bytes(xs[0]) + (more + tail)) == Some(Got(kept(xs[0]), more + tail));
      ManyUndo(one, bytes, kept, ok, xs[1..], tail);
      assert Each(kept, xs) == [kept(xs[0])] + Each(kept, xs[1..]);
    }
  }

  lemma {:induction false} ManyExtend<V(!new)>(one: Bytes -> Option<Got<V>>, n: nat, b: Bytes, tail: Bytes)
    requires Extends(one)
    ensures var got := ReadMany(one, n, b);
            got.Some? ==> ReadMany(one, n, b + tail) == Some(Got(got.value.value, got.value.rest + tail))
    decreases n
  {
    if n > 0 && one(b).Some? {
      assert one(b + tail) == Some(Got(one(b).value.value, one(b).value.rest + tail));
      ManyExtend(one, n - 1, one(b).value.rest, tail);
    }
  }
}
