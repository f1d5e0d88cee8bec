/** The container's writer, a growing buffer, and its reader, a cursor with a flag that stays set once
    a read has run off the end. */
module SksIo {
  import opened Ir
  import opened SksFields
  import opened SksFile
  import opened SksContainer
  import opened SksParse

  class Writer {
    var out: Bytes

    constructor ()
      ensures out == []
    {
      out := [];
    }

    method Push(data: Bytes)
      modifies this
      ensures out == old(out) + data
    {
      for i := 0 to |data|
        invariant out == old(out) + data[..i]
      {
        assert data[..i + 1] == data[..i] + [data[i]];
        out := out + [data[i]];
      }
      assert data[..|data|] == data;
    }

    method PushNumber(n: nat, size: nat)
      modifies this
      ensures out == old(out) + LeBytes(n, size)
    {
      var left := n;
      for i := 0 to size
        invariant out + LeBytes(left, size - i) == old(out) + LeBytes(n, size)
      {
        Onto(out, [left % 256], LeBytes(left / 256, size - i - 1));
        out := out + [left % 256];
        left := left / 256;
      }
    }

    method PushName(s: Bytes, size: nat)
      modifies this
      ensures out == old(out) + Padded(s, size)
    {
      for i := 0 to size
        invariant out == old(out) + Padded(s, size)[..i]
      {
        assert Padded(s, size)[..i + 1] == Padded(s, size)[..i] + [Padded(s, size)[i]];
        out := out + [if i < |s| then s[i] else 0];
      }
      assert Padded(s, size)[..size] == Padded(s, size);
    }

    /** The fields of a record, in order. */
    method PushRecord(r: Record, schema: Schema)
      requires Shaped(r, schema)
      modifies this
      ensures out == old(out) + RecordBytes(r, schema)
    {
      assert r[0..] == r && schema[0..] == schema;
      for i := 0 to |r|
        invariant out + RecordBytes(r[i..], schema[i..]) == old(out) + RecordBytes(r, schema)
      {
        assert r[i..][1..] == r[i + 1..] && schema[i..][1..] == schema[i + 1..];
        Onto(out, FieldBytes(r[i], schema[i]), RecordBytes(r[i + 1..], schema[i + 1..]));
        match schema[i]
        case Num(size) => PushNumber(r[i].n, size);
        case Str(size) => PushName(r[i].s, size);
      }
    }

    /** A record for each of a list. */
    method PushEach<A(!new)>(xs: seq<A>, record: A -> Record, schema: Schema, ghost bytes: A -> Bytes)
      requires forall x: A :: bytes(x) == RecordBytes(record(x), schema)
      requires forall x :: x in xs ==> Shaped(record(x), schema)
      modifies this
      ensures out == old(out) + ManyBytes(bytes, xs)
    {
      assert xs[0..] == xs;
      for i := 0 to |xs|
        invariant out + ManyBytes(bytes, xs[i..]) == old(out) + ManyBytes(bytes, xs)
      {
        assert xs[i..][1..] == xs[i + 1..];
        Onto(out, bytes(xs[i]), ManyBytes(bytes, xs[i + 1..]));
        PushRecord(record(xs[i]), schema);
      }
    }

    method PushBuffers(xs: seq<Buffer>)
      requires All(BufferFits, xs)
      modifies this
      ensures out == old(out) + ManyBytes(BufferBytes, xs)
    {
      assert xs[0..] == xs;
      for i := 0 to |xs|
        invariant out + ManyBytes(BufferBytes, xs[i..]) == old(out) + ManyBytes(BufferBytes, xs)
      {
        assert xs[i..][1..] == xs[i + 1..];
        Onto(out, BufferBytes(xs[i]), ManyBytes(BufferBytes, xs[i + 1..]));
        PushBuffer(xs[i]);
      }
    }

    method PushBuffer(x: Buffer)
      requires BufferFits(x)
      modifies this
      ensures out == old(out) + BufferBytes(x)
    {
      ghost var head := RecordBytes(BufferRecord(x), BUFFER);
      ghost var vars := ManyBytes(VarBytes, x.vars);
      PushRecord(BufferRecord(x), BUFFER);
      Push(x.defaults);
      PushEach(x.vars, VarRecord, VAR, VarBytes);
      FourInARow(old(out), head, x.defaults, vars, []);
    }

    method PushStages(c: Codec, raw: bool, xs: seq<Source>)
      requires All(StageChecker(c, raw), xs)
      modifies this
      ensures out == old(out) + ManyBytes(StageWriter(c, raw), xs)
    {
      assert xs[0..] == xs;
      for i := 0 to |xs|
        invariant out + ManyBytes(StageWriter(c, raw), xs[i..]) == old(out) + ManyBytes(StageWriter(c, raw), xs)
      {
        assert xs[i..][1..] == xs[i + 1..];
        assert StageChecker(c, raw)(xs[i]);
        Onto(out, StageBytes(c, raw, xs[i]), ManyBytes(StageWriter(c, raw), xs[i + 1..]));
        PushStage(c, raw, xs[i]);
      }
    }

    method PushStage(c: Codec, raw: bool, s: Source)
      requires StageFits(c, raw, s)
      modifies this
      ensures out == old(out) + StageBytes(c, raw, s)
    {
      var code := Code(c, raw, s);
      PushRecord(StageRecord(c, raw, s), STAGE);
      Push(code);
      Onto(old(out), RecordBytes(StageRecord(c, raw, s), STAGE), code);
    }

    /** A whole container. */
    method WriteFile(c: Codec, raw: bool, x: Contents)
      requires FileFits(c, raw, x)
      modifies this
      ensures out == old(out) + FileBytes(c, raw, x)
    {
      Push(TAG);
      PushHeader(HeadRecord(x), HEAD, FlagsRecord(x), FLAGS);
      PushTables(c, raw, x.tables);
      FourInARow(old(out), TAG, RecordBytes(HeadRecord(x), HEAD), RecordBytes(FlagsRecord(x), FLAGS), TablesBytes(c, raw, x.tables));
    }

    method PushHeader(head: Record, hs: Schema, flags: Record, fs: Schema)
      requires Shaped(head, hs) && Shaped(flags, fs)
      modifies this
      ensures out == old(out) + RecordBytes(head, hs) + RecordBytes(flags, fs)
    {
      PushRecord(head, hs);
      PushRecord(flags, fs);
    }

    method PushTables(c: Codec, raw: bool, t: Tables<Source>)
      requires TablesFit(c, raw, t)
      modifies this
      ensures out == old(out) + TablesBytes(c, raw, t)
    {
      ghost var start := out;
      PushBuffers(t.buffers);
      PushEach(t.inputs, InputRecord, INPUT, InputBytes);
      PushEach(t.resources, ResourceRecord, RESOURCE, ResourceBytes);
      PushEach(t.specs, SpecRecord, SPEC, SpecBytes);
      PushEach(t.samplers, SamplerRecord, SAMPLER, SamplerBytes);
      PushStages(c, raw, t.stages);
      SixInARow(start, ManyBytes(BufferBytes, t.buffers), ManyBytes(InputBytes, t.inputs), ManyBytes(ResourceBytes, t.resources),
                ManyBytes(SpecBytes, t.specs), ManyBytes(SamplerBytes, t.samplers), StagesBytes(c, raw, t));
    }
  }

  class Reader {
    const data: Bytes
    var pos: nat
    var bad: bool

    constructor (data: Bytes)
      ensures this.data == data && pos == 0 && !bad && Valid()
    {
      this.data, pos, bad := data, 0, false;
    }

    ghost predicate Valid()
      reads this
    {
      pos <= |data|
    }

    ghost function Rest(): Bytes
      reads this
      requires Valid()
    {
      data[pos..]
    }

    /** The reader is where this reading ends, with its value; or it is bad, as the reading fails. */
    ghost predicate Follows<V>(got: Option<Got<V>>, v: V)
      reads this
    {
      Valid() && (if got.None? then bad else !bad && v == got.value.value && Rest() == got.value.rest)
    }

    /** The next n bytes, or none. */
    method Take(n: nat) returns (b: Bytes)
      requires Valid()
      modifies this`pos, this`bad
      ensures Valid() && (old(bad) ==> bad)
      ensures !old(bad) ==> (bad <==> n > |old(Rest())|)
      ensures !bad ==> b == old(Rest())[..n] && Rest() == old(Rest())[n..]
      ensures bad ==> b == []
    {
      if bad || n > |data| - pos {
        bad := true;
        return [];
      }
      b := data[pos..pos + n];
      assert b == data[pos..][..n] && data[pos + n..] == data[pos..][n..];
      pos := pos + n;
    }

    method ReadNumber(size: nat) returns (n: nat)
      requires Valid()
      modifies this`pos, this`bad
      ensures Valid() && (old(bad) ==> bad)
      ensures !old(bad) ==> Follows(ReadField(Num(size), old(Rest())), N(n))
    {
      var b := Take(size);
      n := FromLe(b);
    }

    method ReadName(size: nat) returns (s: Bytes)
      requires Valid()
      modifies this`pos, this`bad
      ensures Valid() && (old(bad) ==> bad)
      ensures !old(bad) ==> Follows(ReadField(Str(size), old(Rest())), S(s))
    {
      var b := Take(size);
      var n := 0;
      while n < |b| && b[n] != 0
        invariant n <= |b| && 0 !in b[..n]
      {
        n := n + 1;
      }
      s := b[..n];
      CStringIs(b, s);
    }

    /** The fields of a record, in order; once bad, the others read as nothing. */
    method ReadFields(schema: Schema) returns (r: Record)
      requires Valid()
      modifies this`pos, this`bad
      ensures Valid() && (old(bad) ==> bad) && |r| == |schema|
      ensures !old(bad) ==> Follows(ReadRecord(schema, old(Rest())), r)
    {
      r := [];
      ghost var goal := ReadRecord(schema, Rest());
      assert schema[0..] == schema;
      Ahead(r, ReadRecord(schema, Rest()));
      for i := 0 to |schema|
        invariant Valid() && (old(bad) ==> bad) && |r| == i
        invariant !old(bad) ==> if bad then goal.None? else goal == Before(r, ReadRecord(schema[i..], Rest()))
      {
        assert schema[i..][1..] == schema[i + 1..] && schema[i..][0] == schema[i];
        ghost var rest := if bad then [] else Rest();
        ghost var was := r;
        match schema[i] {
          case Num(size) => var n := ReadNumber(size); r := r + [N(n)];
          case Str(size) => var s := ReadName(size); r := r + [S(s)];
        }
        if !bad {
          OneMore(was, r[i], ReadRecord(schema[i + 1..], Rest()));
        }
      }
      if !bad {
        NoMore(r, Rest());
      }
    }

    /** One record for each of a list. */
    method ReadList<V(!new)>(schema: Schema, of: Record -> V, n: nat, ghost one: Bytes -> Option<Got<V>>) returns (xs: seq<V>)
      requires Valid()
      requires forall b: Bytes :: one(b) == ReadAs(schema, of, b)
      modifies this`pos, this`bad
      ensures Valid() && (old(bad) ==> bad)
      ensures !old(bad) ==> Follows(ReadMany(one, n, old(Rest())), xs)
    {
      xs := [];
      ghost var goal := ReadMany(one, n, Rest());
      Ahead(xs, goal);
      for i := 0 to n
        invariant Valid() && (old(bad) ==> bad) && |xs| == i
        invariant !old(bad) ==> if bad then goal.None? else goal == Before(xs, ReadMany(one, n - i, Rest()))
      {
        ghost var was := xs;
        ghost var start := Rest();
        assert one(start) == ReadAs(schema, of, start);
        var r := ReadFields(schema);
        xs := xs + [of(r)];
        if !bad {
          OneMore(was, of(r), ReadMany(one, n - i - 1, Rest()));
        }
      }
      if !bad {
        NoMore(xs, Rest());
      }
    }

    method ReadBuffers(n: nat, ghost one: Bytes -> Option<Got<Buffer>>) returns (xs: seq<Buffer>)
      requires Valid() && !bad
      requires forall b: Bytes {:trigger ReadBuffer(b)} :: one(b) == ReadBuffer(b)
      modifies this`pos, this`bad
      ensures Follows(ReadMany(one, n, old(Rest())), xs)
    {
      xs := [];
      ghost var goal := ReadMany(one, n, Rest());
      Ahead(xs, goal);
      for i := 0 to n
        invariant Valid() && !bad && |xs| == i
        invariant goal == Before(xs, ReadMany(one, n - i, Rest()))
      {
        ghost var was := xs;
        var x := ReadOneBuffer(one);
        if bad {
          return;
        }
        xs := xs + [x];
        OneMore(was, x, ReadMany(one, n - i - 1, Rest()));
      }
      NoMore(xs, Rest());
    }

    method ReadOneBuffer(ghost one: Bytes -> Option<Got<Buffer>>) returns (x: Buffer)
      requires Valid() && !bad
      requires forall b: Bytes {:trigger ReadBuffer(b)} :: one(b) == ReadBuffer(b)
      modifies this`pos, this`bad
      ensures Follows(one(old(Rest())), x)
    {
      ghost var goal := ReadBuffer(Rest());
      var r := ReadFields(BUFFER);
      var defaults := Take(Number(r, 7));
      x := Buffer(Name(r, 0), Number(r, 1), Number(r, 2), Number(r, 3), Number(r, 4), Number(r, 5), defaults, []);
      if bad || Number(r, 6) > |data| - pos {
        bad := true;
        return;
      }
      var vars := ReadList(VAR, VarOf, Number(r, 6), ReadVar);
      x := x.(vars := vars);
    }

    /** The stages; the code of one that is not a module is skipped. */
    method ReadStages(c: Codec, n: nat) returns (modules: seq<Stage>)
      requires Valid() && !bad
      modifies this`pos, this`bad
      ensures var got := ReadMany(StageReader(c), n, old(Rest()));
              Follows(if got.None? then None else Some(Got(Somes(got.value.value), got.value.rest)), modules)
    {
      modules := [];
      ghost var xs: seq<Option<Stage>> := [];
      ghost var goal := ReadMany(StageReader(c), n, Rest());
      Ahead(xs, goal);
      for i := 0 to n
        invariant Valid() && !bad && |xs| == i && modules == Somes(xs)
        invariant goal == Before(xs, ReadMany(StageReader(c), n - i, Rest()))
      {
        ghost var was := xs;
        ghost var start := Rest();
        assert StageReader(c)(start) == ReadStage(c, start);
        var x := ReadOneStage(c);
        if bad {
          return;
        }
        SomesOfMore(xs, x);
        xs := xs + [x];
        modules := modules + if x.Some? then [x.value] else [];
        OneMore(was, x, ReadMany(StageReader(c), n - i - 1, Rest()));
      }
      NoMore(xs, Rest());
    }

    method ReadOneStage(c: Codec) returns (x: Option<Stage>)
      requires Valid() && !bad
      modifies this`pos, this`bad
      ensures Follows(ReadStage(c, old(Rest())), x)
    {
      x := None;
      var r := ReadFields(STAGE);
      if bad {
        return;
      }
      var code := Take(Number(r, 3));
      if bad || Number(r, 0) != 1 {
        return;
      }
      var spirv := Loaded(c, code);
      if spirv.None? {
        bad := true;
        return;
      }
      x := Some(Stage(Number(r, 1), Number(r, 2), spirv.value));
    }

    /** The tables from the specialization constants on. */
    method ReadOtherTables(c: Codec, n: Counts) returns (t: Tables<Stage>)
      requires Valid() && !bad
      modifies this`pos, this`bad
      ensures Follows(Modules(ReadOthers(c, n, old(Rest()))), t)
    {
      var specs := ReadList(SPEC, SpecOf, n.specs, ReadSpec);
      var samplers := ReadList(SAMPLER, SamplerOf, n.samplers, ReadSampler);
      t := Tables([], [], [], specs, samplers, []);
      if bad {
        return;
      }
      var stages := ReadStages(c, n.stages);
      t := t.(stages := stages);
    }

    method ReadAllTables(c: Codec, n: Counts, ghost read: (Counts, Bytes) -> Option<Got<Tables<Option<Stage>>>>)
      returns (t: Tables<Stage>)
      requires Valid() && !bad
      requires forall n: Counts, b: Bytes {:trigger ReadTables(c, n, b)} :: read(n, b) == ReadTables(c, n, b)
      modifies this`pos, this`bad
      ensures Follows(Modules(read(n, old(Rest()))), t)
    {
      ghost var goal := ReadTables(c, n, Rest());
      t := Tables([], [], [], [], [], []);
      var buffers := ReadBuffers(n.buffers, ReadBuffer);
      if bad {
        return;
      }
      var inputs := ReadList(INPUT, InputOf, n.inputs, ReadInput);
      var resources := ReadList(RESOURCE, ResourceOf, n.resources, ReadResource);
      if bad {
        return;
      }
      var others := ReadOtherTables(c, n);
      t := others.(buffers := buffers, inputs := inputs, resources := resources);
    }

    /** The file, or none when it is malformed. */
    method ParseFile(c: Codec) returns (view: Option<View>)
      requires pos == 0 && !bad
      modifies this`pos, this`bad
      ensures view == Parse(c, data)
    {
      assert Rest() == data;
      var tag := Take(8);
      if bad || tag != TAG {
        return None;
      }
      assert Rest() == data[8..];
      view := ParseBody(c);
    }

    method ParseBody(c: Codec) returns (view: Option<View>)
      requires Valid() && !bad
      modifies this`pos, this`bad
      ensures var got := ReadBody(c, old(Rest()));
              view == if got.None? then None else Some(got.value.value)
    {
      var head, flags, t := ParseHeaded(HEAD, FLAGS, c, TablesReader(c));
      if bad {
        return None;
      }
      view := Some(View(Name(head, 2), Number(flags, 0), Number(flags, 8), Number(flags, 9), Number(flags, 10), t));
    }

    method ParseHeaded(hs: Schema, fs: Schema, c: Codec, ghost read: (Counts, Bytes) -> Option<Got<Tables<Option<Stage>>>>)
      returns (head: Record, flags: Record, t: Tables<Stage>)
      requires Valid() && !bad
      requires forall n: Counts, b: Bytes {:trigger ReadTables(c, n, b)} :: read(n, b) == ReadTables(c, n, b)
      modifies this`pos, this`bad
      ensures var got := ReadHeaded(hs, fs, read, old(Rest()));
              if got.None? then bad
              else !bad && head == got.value.value.0 && flags == got.value.value.1 && t == WithModules(got.value.value.2)
    {
      head := ReadFields(hs);
      flags := ReadFields(fs);
      t := Tables([], [], [], [], [], []);
      if bad || Number(head, 0) != VERSION {
        bad := true;
        return;
      }
      var n := HeadCounts(head);
      var left := |data| - pos;
      if n.buffers > left || n.resources > left || n.inputs > left || n.specs > left || n.samplers > left || n.stages > left {
        bad := true;
        return;
      }
      t := ReadAllTables(c, n, read);
    }
  }

  ghost function Modules(got: Option<Got<Tables<Option<Stage>>>>): Option<Got<Tables<Stage>>> {
    if got.None? then None else Some(Got(WithModules(got.value.value), got.value.rest))
  }

  /** Values read before others. */
  function Before<V>(first: seq<V>, got: Option<Got<seq<V>>>): Option<Got<seq<V>>> {
    if got.None? then None else Some(Got(first + got.value.value, got.value.rest))
  }

  lemma {:induction false} Ahead<V>(none: seq<V>, got: Option<Got<seq<V>>>)
    ensures none == [] ==> Before(none, got) == got
  {
    if none == [] && got.Some? {
      assert none + got.value.value == got.value.value;
    }
  }

  lemma {:induction false} NoMore<V>(first: seq<V>, rest: Bytes)
    ensures Before(first, Some(Got([], rest))) == Some(Got(first, rest))
  {
    assert first + [] == first;
  }

  lemma {:induction false} OneMore<V>(first: seq<V>, next: V, got: Option<Got<seq<V>>>)
    ensures Before(first, Before([next], got)) == Before(first + [next], got)
  {
    if got.Some? {
      assert first + ([next] + got.value.value) == first + [next] + got.value.value;
    }
  }

  lemma {:induction false} SomesOfMore<V>(xs: seq<Option<V>>, x: Option<V>)
    ensures Somes(xs + [x]) == Somes(xs) + if x.Some? then [x.value] else []
    decreases |xs|
  {
    if xs == [] {
      assert xs + [x] == [x];
    } else {
      assert (xs + [x])[1..] == xs[1..] + [x] && (xs + [x])[0] == xs[0];
      SomesOfMore(xs[1..], x);
    }
  }

  lemma {:induction false} FourInARow(s: Bytes, a: Bytes, b: Bytes, c: Bytes, d: Bytes)
    ensures s + a + b + c + d == s + (a + (b + (c + d)))
    ensures d == [] ==> s + a + b + c == s + (a + (b + c))
  {
    Onto(s + a + b, c, d);
    Onto(s + a, b, c + d);
    Onto(s, a, b + (c + d));
  }

  lemma {:induction false} SixInARow(s: Bytes, a: Bytes, b: Bytes, c: Bytes, d: Bytes, e: Bytes, f: Bytes)
    ensures s + a + b + c + d + e + f == s + (a + (b + (c + (d + (e + f)))))
  {
    Onto(s + a + b + c + d, e, f);
    Onto(s + a + b + c, d, e + f);
    Onto(s + a + b, c, d + (e + f));
    Onto(s + a, b, c + (d + (e + f)));
    Onto(s, a, b + (c + (d + (e + f))));
  }
}
