/** Container files: parsing undoes writing, ignores what follows, and refuses what is cut short. */
module SksParse {
  import opened Ir
  import opened SksFields
  import opened SksFile
  import opened SksContainer

  const TAG: Bytes := [0x53, 0x4B, 0x53, 0x48, 0x41, 0x44, 0x45, 0x52]
  const VERSION: nat := 13

  /** What a container holds besides its header; stages are S. */
  datatype Tables<S> = Tables(buffers: seq<Buffer>, inputs: seq<Input>, resources: seq<Resource>, specs: seq<Spec>,
                              samplers: seq<Sampler>, stages: seq<S>)

  datatype Contents = Contents(name: Bytes, features: nat, opCounts: seq<nat>, waveSize: nat, apronX: nat, apronY: nat,
                               tables: Tables<Source>)

  datatype View = View(name: Bytes, features: nat, waveSize: nat, apronX: nat, apronY: nat, tables: Tables<Stage>)

  // ----- the tables -----

  datatype Counts = Counts(buffers: nat, inputs: nat, resources: nat, specs: nat, samplers: nat, stages: nat)

  function CountsOf<S>(t: Tables<S>): Counts {
    Counts(|t.buffers|, |t.inputs|, |t.resources|, |t.specs|, |t.samplers|, |t.stages|)
  }

  function StagesBytes(c: Codec, raw: bool, t: Tables<Source>): Bytes {
    ManyBytes(StageWriter(c, raw), t.stages)
  }

  function SamplersOn(c: Codec, raw: bool, t: Tables<Source>): Bytes {
    ManyBytes(SamplerBytes, t.samplers) + StagesBytes(c, raw, t)
  }

  function SpecsOn(c: Codec, raw: bool, t: Tables<Source>): Bytes {
    ManyBytes(SpecBytes, t.specs) + SamplersOn(c, raw, t)
  }

  function ResourcesOn(c: Codec, raw: bool, t: Tables<Source>): Bytes {
    ManyBytes(ResourceBytes, t.resources) + SpecsOn(c, raw, t)
  }

  function InputsOn(c: Codec, raw: bool, t: Tables<Source>): Bytes {
    ManyBytes(InputBytes, t.inputs) + ResourcesOn(c, raw, t)
  }

  /** The tables in file order. */
  function TablesBytes(c: Codec, raw: bool, t: Tables<Source>): Bytes {
    ManyBytes(BufferBytes, t.buffers) + InputsOn(c, raw, t)
  }

  predicate TablesFit(c: Codec, raw: bool, t: Tables<Source>) {
    && All(BufferFits, t.buffers) && All(InputFits, t.inputs) && All(ResourceFits, t.resources)
    && All(SpecFits, t.specs) && All(SamplerFits, t.samplers) && All(StageChecker(c, raw), t.stages)
  }

  /** The tables as parsing shows them. */
  function TablesShown(c: Codec, t: Tables<Source>): Tables<Option<Stage>> {
    Tables(Each(BufferKept, t.buffers), Each(InputKept, t.inputs), Each(ResourceKept, t.resources), Each(SpecKept, t.specs),
           Each(SamplerKept, t.samplers), Each(StageShower(c), t.stages))
  }

  /** Reads one table after another; the first failure ends it. */
  function ReadTables(c: Codec, n: Counts, b: Bytes): Option<Got<Tables<Option<Stage>>>> {
    var buffers := ReadMany(ReadBuffer, n.buffers, b);
    if buffers.None? then None
    else
      var inputs := ReadMany(ReadInput, n.inputs, buffers.value.rest);
      if inputs.None? then None
      else
        var resources := ReadMany(ReadResource, n.resources, inputs.value.rest);
        if resources.None? then None
        else
          var others := ReadOthers(c, n, resources.value.rest);
          if others.None? then None
          else
            Some(Got(others.value.value.(buffers := buffers.value.value, inputs := inputs.value.value,
                                         resources := resources.value.value), others.value.rest))
  }

  /** From the specialization constants on. */
  function ReadOthers(c: Codec, n: Counts, b: Bytes): Option<Got<Tables<Option<Stage>>>> {
    var specs := ReadMany(ReadSpec, n.specs, b);
    if specs.None? then None
    else
      var samplers := ReadMany(ReadSampler, n.samplers, specs.value.rest);
      if samplers.None? then None
      else
        var stages := ReadMany(StageReader(c), n.stages, samplers.value.rest);
        if stages.None? then None
        else Some(Got(Tables([], [], [], specs.value.value, samplers.value.value, stages.value.value), stages.value.rest))
  }

  lemma {:induction false} OthersRead(c: Codec, raw: bool, t: Tables<Source>, tail: Bytes)
    requires Inverts(c) && TablesFit(c, raw, t)
    ensures var s := TablesShown(c, t);
            ReadOthers(c, CountsOf(t), SpecsOn(c, raw, t) + tail) == Some(Got(Tables([], [], [], s.specs, s.samplers, s.stages), tail))
  {
    Onto(ManyBytes(SpecBytes, t.specs), SamplersOn(c, raw, t), tail);
    Onto(ManyBytes(SamplerBytes, t.samplers), StagesBytes(c, raw, t), tail);
    SpecsUndo();
    ManyUndo(ReadSpec, SpecBytes, SpecKept, SpecFits, t.specs, SamplersOn(c, raw, t) + tail);
    SamplersUndo();
    ManyUndo(ReadSampler, SamplerBytes, SamplerKept, SamplerFits, t.samplers, StagesBytes(c, raw, t) + tail);
    StagesUndo(c, raw);
    ManyUndo(StageReader(c), StageWriter(c, raw), StageShower(c), StageChecker(c, raw), t.stages, tail);
  }

  lemma {:induction false} TablesRead(c: Codec, raw: bool, t: Tables<Source>, tail: Bytes)
    requires Inverts(c) && TablesFit(c, raw, t)
    ensures ReadTables(c, CountsOf(t), TablesBytes(c, raw, t) + tail) == Some(Got(TablesShown(c, t), tail))
  {
    Onto(ManyBytes(BufferBytes, t.buffers), InputsOn(c, raw, t), tail);
    Onto(ManyBytes(InputBytes, t.inputs), ResourcesOn(c, raw, t), tail);
    Onto(ManyBytes(ResourceBytes, t.resources), SpecsOn(c, raw, t), tail);
    BuffersUndo();
    ManyUndo(ReadBuffer, BufferBytes, BufferKept, BufferFits, t.buffers, InputsOn(c, raw, t) + tail);
    InputsUndo();
    ManyUndo(ReadInput, InputBytes, InputKept, InputFits, t.inputs, ResourcesOn(c, raw, t) + tail);
    ResourcesUndo();
    ManyUndo(ReadResource, ResourceBytes, ResourceKept, ResourceFits, t.resources, SpecsOn(c, raw, t) + tail);
    OthersRead(c, raw, t, tail);
  }

  lemma {:induction false} OthersExtend(c: Codec, n: Counts, b: Bytes, tail: Bytes)
    requires ReadOthers(c, n, b).Some?
    ensures ReadOthers(c, n, b + tail) == Some(Got(ReadOthers(c, n, b).value.value, ReadOthers(c, n, b).value.rest + tail))
  {
    SpecsUndo();
    SamplersUndo();
    StagesUndo(c, false);
    ManyExtend(ReadSpec, n.specs, b, tail);
    var b1 := ReadMany(ReadSpec, n.specs, b).value.rest;
    ManyExtend(ReadSampler, n.samplers, b1, tail);
    var b2 := ReadMany(ReadSampler, n.samplers, b1).value.rest;
    ManyExtend(StageReader(c), n.stages, b2, tail);
  }

  lemma {:induction false} TablesExtend(c: Codec, n: Counts, b: Bytes, tail: Bytes)
    requires ReadTables(c, n, b).Some?
    ensures ReadTables(c, n, b + tail) == Some(Got(ReadTables(c, n, b).value.value, ReadTables(c, n, b).value.rest + tail))
  {
    BuffersUndo();
    InputsUndo();
    ResourcesUndo();
    ManyExtend(ReadBuffer, n.buffers, b, tail);
    var b1 := ReadMany(ReadBuffer, n.buffers, b).value.rest;
    ManyExtend(ReadInput, n.inputs, b1, tail);
    var b2 := ReadMany(ReadInput, n.inputs, b1).value.rest;
    ManyExtend(ReadResource, n.resources, b2, tail);
    OthersExtend(c, n, ReadMany(ReadResource, n.resources, b2).value.rest, tail);
  }

  /** No table is longer than the bytes that hold it, so no written count is ever refused. */
  lemma {:induction false} CountsAreOk(c: Codec, raw: bool, t: Tables<Source>)
    requires Inverts(c) && TablesFit(c, raw, t)
    ensures CountsOk(CountsOf(t), TablesBytes(c, raw, t))
  {
    BuffersUndo();
    ManyUndo(ReadBuffer, BufferBytes, BufferKept, BufferFits, t.buffers, []);
    InputsUndo();
    ManyUndo(ReadInput, InputBytes, InputKept, InputFits, t.inputs, []);
    ResourcesUndo();
    ManyUndo(ReadResource, ResourceBytes, ResourceKept, ResourceFits, t.resources, []);
    SpecsUndo();
    ManyUndo(ReadSpec, SpecBytes, SpecKept, SpecFits, t.specs, []);
    SamplersUndo();
    ManyUndo(ReadSampler, SamplerBytes, SamplerKept, SamplerFits, t.samplers, []);
    StagesUndo(c, raw);
    ManyUndo(StageReader(c), StageWriter(c, raw), StageShower(c), StageChecker(c, raw), t.stages, []);
  }

  predicate CountsOk(n: Counts, b: Bytes) {
    && CountOk(n.buffers, b) && CountOk(n.resources, b) && CountOk(n.inputs, b) && CountOk(n.specs, b)
    && CountOk(n.samplers, b) && CountOk(n.stages, b)
  }

  // ----- the header -----

  const HEAD: Schema := [Num(2), Num(4), Str(256), Num(4), Num(4), Num(4), Num(4), Num(4)]
  const FLAGS: Schema := [Num(8), Num(8), Num(4), Num(4), Num(4), Num(4), Num(4), Num(4), Num(4), Num(4), Num(4)]

  function HeadRecord(x: Contents): Record {
    [N(VERSION), N(|x.tables.stages|), S(x.name), N(|x.tables.buffers|), N(|x.tables.resources|), N(|x.tables.inputs|),
     N(|x.tables.specs|), N(|x.tables.samplers|)]
  }

  /** The second number is reserved. */
  function FlagsRecord(x: Contents): Record {
    [N(x.features), N(0)] + Each((n: nat) => N(n), x.opCounts) + [N(x.waveSize), N(x.apronX), N(x.apronY)]
  }

  function FileBytes(c: Codec, raw: bool, x: Contents): Bytes {
    TAG + (RecordBytes(HeadRecord(x), HEAD) + (RecordBytes(FlagsRecord(x), FLAGS) + TablesBytes(c, raw, x.tables)))
  }

  predicate FileFits(c: Codec, raw: bool, x: Contents) {
    && |x.opCounts| == 6 && Shaped(HeadRecord(x), HEAD) && Shaped(FlagsRecord(x), FLAGS)
    && TablesFit(c, raw, x.tables)
  }

  /** With those stages that are modules. */
  function WithModules(t: Tables<Option<Stage>>): Tables<Stage> {
    Tables(t.buffers, t.inputs, t.resources, t.specs, t.samplers, Somes(t.stages))
  }

  /** What parsing shows of a container. */
  function Viewed(c: Codec, x: Contents): View {
    View(Kept(x.name, 256), x.features, x.waveSize, x.apronX, x.apronY, WithModules(TablesShown(c, x.tables)))
  }

  function HeadCounts(r: Record): Counts {
    Counts(Number(r, 3), Number(r, 5), Number(r, 4), Number(r, 6), Number(r, 7), Number(r, 1))
  }

  function ReadFile(c: Codec, data: Bytes): Option<Got<View>> {
    if |data| < 8 || data[..8] != TAG then None else ReadBody(c, data[8..])
  }

  /** What follows the tag. */
  function ReadBody(c: Codec, b: Bytes): Option<Got<View>> {
    var got := ReadHeaded(HEAD, FLAGS, TablesReader(c), b);
    if got.None? then None
    else
      var (head, flags, t) := got.value.value;
      Some(Got(ViewOf(head, flags, t), got.value.rest))
  }

  function TablesReader(c: Codec): (Counts, Bytes) -> Option<Got<Tables<Option<Stage>>>> {
    (n, b) => ReadTables(c, n, b)
  }

  /** A header in two parts, and what it counts. */
  function ReadHeaded<T>(hs: Schema, fs: Schema, read: (Counts, Bytes) -> Option<Got<T>>, b: Bytes): Option<Got<(Record, Record, T)>> {
    var head := ReadRecord(hs, b);
    if head.None? then None
    else
      var flags := ReadRecord(fs, head.value.rest);
      if flags.None? then None
      else
        var n := HeadCounts(head.value.value);
        if Number(head.value.value, 0) != VERSION || !CountsOk(n, flags.value.rest) then None
        else
          var t := read(n, flags.value.rest);
          if t.None? then None else Some(Got((head.value.value, flags.value.value, t.value.value), t.value.rest))
  }

  lemma {:induction false} HeadedReads<T>(hs: Schema, fs: Schema, read: (Counts, Bytes) -> Option<Got<T>>,
                                          head: Record, flags: Record, tables: Bytes, t: T, tail: Bytes)
    requires Shaped(head, hs) && Shaped(flags, fs) && Number(RecordSurvives(head, hs), 0) == VERSION
    requires var n := HeadCounts(RecordSurvives(head, hs));
             CountsOk(n, tables) && read(n, tables + tail) == Some(Got(t, tail))
    ensures ReadHeaded(hs, fs, read, RecordBytes(head, hs) + (RecordBytes(flags, fs) + (tables + tail)))
            == Some(Got((RecordSurvives(head, hs), RecordSurvives(flags, fs), t), tail))
  {
    RecordReads(head, hs, RecordBytes(flags, fs) + (tables + tail));
    RecordReads(flags, fs, tables + tail);
  }

  lemma {:induction false} HeadedExtends<T>(hs: Schema, fs: Schema, read: (Counts, Bytes) -> Option<Got<T>>, b: Bytes, tail: Bytes)
    requires ReadHeaded(hs, fs, read, b).Some?
    requires forall n: Counts, b: Bytes :: read(n, b).Some? ==>
               read(n, b + tail) == Some(Got(read(n, b).value.value, read(n, b).value.rest + tail))
    ensures var got := ReadHeaded(hs, fs, read, b).value;
            ReadHeaded(hs, fs, read, b + tail) == Some(Got(got.value, got.rest + tail))
  {
    RecordExtends(hs, b, tail);
    RecordExtends(fs, ReadRecord(hs, b).value.rest, tail);
  }

  function ViewOf(head: Record, flags: Record, t: Tables<Option<Stage>>): View {
    View(Name(head, 2), Number(flags, 0), Number(flags, 8), Number(flags, 9), Number(flags, 10), WithModules(t))
  }

  /** Parsing a file shows what is read from its start. */
  function Parse(c: Codec, data: Bytes): Option<View> {
    var got := ReadFile(c, data);
    if got.None? then None else Some(got.value.value)
  }

  lemma {:induction false} HeadSurvives(x: Contents)
    ensures var s := RecordSurvives(HeadRecord(x), HEAD);
            Number(s, 0) == VERSION && Name(s, 2) == Kept(x.name, 256) && HeadCounts(s) == CountsOf(x.tables)
    ensures |HeadRecord(x)| == |HEAD|
  {
  }

  lemma {:induction false} FlagsSurvive(x: Contents)
    requires |x.opCounts| == 6
    ensures |FlagsRecord(x)| == |FLAGS|
    ensures var s := RecordSurvives(FlagsRecord(x), FLAGS);
            Number(s, 0) == x.features && Number(s, 8) == x.waveSize && Number(s, 9) == x.apronX && Number(s, 10) == x.apronY
  {
  }

  lemma {:induction false} BodyReads(c: Codec, raw: bool, x: Contents, tail: Bytes)
    requires Inverts(c) && FileFits(c, raw, x)
    ensures ReadBody(c, RecordBytes(HeadRecord(x), HEAD) + (RecordBytes(FlagsRecord(x), FLAGS) + (TablesBytes(c, raw, x.tables) + tail)))
            == Some(Got(Viewed(c, x), tail))
  {
    HeadSurvives(x);
    FlagsSurvive(x);
    CountsAreOk(c, raw, x.tables);
    TablesRead(c, raw, x.tables, tail);
    HeadedReads(HEAD, FLAGS, TablesReader(c), HeadRecord(x), FlagsRecord(x), TablesBytes(c, raw, x.tables),
                TablesShown(c, x.tables), tail);
  }

  lemma {:induction false} TagReads(c: Codec, body: Bytes)
    ensures ReadFile(c, TAG + body) == ReadBody(c, body)
  {
    assert (TAG + body)[..8] == TAG && (TAG + body)[8..] == body;
  }

  /** Whatever follows it, a written file is read as its contents: every table, every number, every
      module, and every name as far as its field goes. */
  lemma {:induction false} FileReads(c: Codec, raw: bool, x: Contents, tail: Bytes)
    requires Inverts(c) && FileFits(c, raw, x)
    ensures ReadFile(c, FileBytes(c, raw, x) + tail) == Some(Got(Viewed(c, x), tail))
  {
    BodyReads(c, raw, x, tail);
    FileTail(RecordBytes(HeadRecord(x), HEAD), RecordBytes(FlagsRecord(x), FLAGS), TablesBytes(c, raw, x.tables), tail);
    TagReads(c, RecordBytes(HeadRecord(x), HEAD) + (RecordBytes(FlagsRecord(x), FLAGS) + (TablesBytes(c, raw, x.tables) + tail)));
  }

  lemma {:induction false} FileTail(head: Bytes, flags: Bytes, tables: Bytes, tail: Bytes)
    ensures TAG + (head + (flags + tables)) + tail == TAG + (head + (flags + (tables + tail)))
  {
    Onto(TAG, head + (flags + tables), tail);
    Onto(head, flags + tables, tail);
    Onto(flags, tables, tail);
  }

  lemma {:induction false} ParsingUndoesWriting(c: Codec, raw: bool, x: Contents)
    requires Inverts(c) && FileFits(c, raw, x)
    ensures Parse(c, FileBytes(c, raw, x)) == Some(Viewed(c, x))
  {
    FileReads(c, raw, x, []);
    assert FileBytes(c, raw, x) + [] == FileBytes(c, raw, x);
  }

  lemma {:induction false} FileExtends(c: Codec, data: Bytes, tail: Bytes)
    requires ReadFile(c, data).Some?
    ensures ReadFile(c, data + tail) == Some(Got(ReadFile(c, data).value.value, ReadFile(c, data).value.rest + tail))
  {
    assert (data + tail)[..8] == data[..8] && (data + tail)[8..] == data[8..] + tail;
    forall n: Counts, b: Bytes | ReadTables(c, n, b).Some?
      ensures ReadTables(c, n, b + tail) == Some(Got(ReadTables(c, n, b).value.value, ReadTables(c, n, b).value.rest + tail))
    {
      TablesExtend(c, n, b, tail);
    }
    HeadedExtends(HEAD, FLAGS, TablesReader(c), data[8..], tail);
  }

  lemma {:induction false} ExtendsOnce<V(!new)>(one: Bytes -> Option<Got<V>>, b: Bytes, tail: Bytes)
    requires Extends(one)
    ensures one(b).Some? ==> one(b + tail) == Some(Got(one(b).value.value, one(b).value.rest + tail))
  {
  }

  /** What is read to its end is not read when it is shorter. */
  lemma {:induction false} NothingShorter<V(!new)>(one: Bytes -> Option<Got<V>>, data: Bytes, k: nat)
    requires Extends(one) && one(data).Some? && one(data).value.rest == [] && k < |data|
    ensures one(data[..k]) == None
  {
    assert data[..k] + data[k..] == data;
    ExtendsOnce(one, data[..k], data[k..]);
  }

  function FileReader(c: Codec): Bytes -> Option<Got<View>> {
    data => ReadFile(c, data)
  }

  lemma {:induction false} FilesExtend(c: Codec)
    ensures Extends(FileReader(c))
  {
    forall data: Bytes, tail: Bytes | FileReader(c)(data).Some?
      ensures FileReader(c)(data + tail) == Some(Got(FileReader(c)(data).value.value, FileReader(c)(data).value.rest + tail))
    {
      FileExtends(c, data, tail);
    }
  }

  /** No proper prefix of a written file is a file. */
  lemma {:induction false} CutShortIsRefused(c: Codec, raw: bool, x: Contents, k: nat)
    requires Inverts(c) && FileFits(c, raw, x) && k < |FileBytes(c, raw, x)|
    ensures Parse(c, FileBytes(c, raw, x)[..k]) == None
  {
    FileReads(c, raw, x, []);
    assert FileBytes(c, raw, x) + [] == FileBytes(c, raw, x);
    FilesExtend(c);
    NothingShorter(FileReader(c), FileBytes(c, raw, x), k);
  }

  /** Storing stages plain or encoded parses the same. */
  lemma {:induction false} StorageFormIsUnobservable(c: Codec, x: Contents)
    requires Inverts(c) && FileFits(c, true, x) && FileFits(c, false, x)
    ensures Parse(c, FileBytes(c, true, x)) == Parse(c, FileBytes(c, false, x))
  {
    ParsingUndoesWriting(c, true, x);
    ParsingUndoesWriting(c, false, x);
  }

  // ----- names -----

  /** The name is shown as it is written. */
  predicate WholeName(s: Bytes, size: nat) {
    |s| <= size && 0 !in s
  }

  lemma {:induction false} KeptIfWhole(s: Bytes, size: nat)
    ensures Kept(s, size) == s <==> WholeName(s, size)
  {
    if WholeName(s, size) {
      NameIsKept(s, size);
    }
  }

  predicate NamesFit(x: Contents) {
    && WholeName(x.name, 256)
    && (forall b :: b in x.tables.buffers ==> WholeName(b.name, 32) && forall v :: v in b.vars ==> VarNamesFit(v))
    && (forall r :: r in x.tables.resources ==> ResourceNamesFit(r))
    && (forall s :: s in x.tables.specs ==> WholeName(s.name, 32))
    && (forall s :: s in x.tables.samplers ==> WholeName(s.name, 32))
  }

  predicate VarNamesFit(v: Variable) {
    WholeName(v.name, 32) && WholeName(v.extra, 64) && WholeName(v.typeName, 32)
  }

  predicate ResourceNamesFit(r: Resource) {
    WholeName(r.name, 32) && WholeName(r.value, 64) && WholeName(r.tags, 64)
  }

  lemma {:induction false} EachIsSame<A>(kept: A -> A, xs: seq<A>)
    ensures Each(kept, xs) == xs <==> forall x :: x in xs ==> kept(x) == x
  {
    if Each(kept, xs) == xs {
      forall x | x in xs
        ensures kept(x) == x
      {
        var i :| 0 <= i < |xs| && xs[i] == x;
        assert Each(kept, xs)[i] == kept(x);
      }
    }
  }

  lemma {:induction false} BufferIsKept(b: Buffer)
    ensures BufferKept(b) == b <==> WholeName(b.name, 32) && forall v :: v in b.vars ==> VarNamesFit(v)
  {
    KeptIfWhole(b.name, 32);
    EachIsSame(VarKept, b.vars);
    forall v | v in b.vars
      ensures VarKept(v) == v <==> VarNamesFit(v)
    {
      KeptIfWhole(v.name, 32);
      KeptIfWhole(v.extra, 64);
      KeptIfWhole(v.typeName, 32);
    }
  }

  lemma {:induction false} ResourceIsKept(r: Resource)
    ensures ResourceKept(r) == r <==> ResourceNamesFit(r)
  {
    KeptIfWhole(r.name, 32);
    KeptIfWhole(r.value, 64);
    KeptIfWhole(r.tags, 64);
  }

  /** Everything but the stages is shown as it was written exactly when every name fits its field. */
  lemma {:induction false} ShownWholeIffNamesFit(c: Codec, x: Contents)
    ensures var v := Viewed(c, x);
            NamesFit(x) <==>
              && v.name == x.name && v.tables.buffers == x.tables.buffers && v.tables.inputs == x.tables.inputs
              && v.tables.resources == x.tables.resources && v.tables.specs == x.tables.specs
              && v.tables.samplers == x.tables.samplers
  {
    KeptIfWhole(x.name, 256);
    forall b: Buffer ensures BufferKept(b) == b <==> WholeName(b.name, 32) && forall v :: v in b.vars ==> VarNamesFit(v) {
      BufferIsKept(b);
    }
    forall r: Resource ensures ResourceKept(r) == r <==> ResourceNamesFit(r) { ResourceIsKept(r); }
    forall s: Spec ensures SpecKept(s) == s <==> WholeName(s.name, 32) { KeptIfWhole(s.name, 32); }
    forall s: Sampler ensures SamplerKept(s) == s <==> WholeName(s.name, 32) { KeptIfWhole(s.name, 32); }
    EachIsSame(BufferKept, x.tables.buffers);
    EachIsSame(InputKept, x.tables.inputs);
    EachIsSame(ResourceKept, x.tables.resources);
    EachIsSame(SpecKept, x.tables.specs);
    EachIsSame(SamplerKept, x.tables.samplers);
  }
}
