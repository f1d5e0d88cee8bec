/** The whole container: written, parsed, cut short. */
module SksContainer {
  import opened Ir
  import opened SksFields
  import opened SksFile

  // ----- buffers -----

  datatype Buffer = Buffer(name: Bytes, space: nat, slot: nat, stageBits: nat, registerType: nat, size: nat,
                           defaults: Bytes, vars: seq<Variable>)

  const BUFFER: Schema := [Str(32), Num(1), Num(2), Num(1), Num(1), Num(4), Num(4), Num(4)]

  function BufferRecord(x: Buffer): Record {
    [S(x.name), N(x.space), N(x.slot), N(x.stageBits), N(x.registerType), N(x.size), N(|x.vars|), N(|x.defaults|)]
  }

  function BufferBytes(x: Buffer): Bytes {
    RecordBytes(BufferRecord(x), BUFFER) + (x.defaults + ManyBytes(VarBytes, x.vars))
  }

  predicate BufferFits(x: Buffer) {
    Shaped(BufferRecord(x), BUFFER) && All(VarFits, x.vars)
  }

  function BufferKept(x: Buffer): Buffer {
    x.(name := Kept(x.name, 32), vars := Each(VarKept, x.vars))
  }

  /** No more than there are bytes left to read it from. */
  predicate CountOk(count: nat, b: Bytes) {
    count <= |b|
  }

  function ReadBuffer(b: Bytes): Option<Got<Buffer>> {
    var head := ReadRecord(BUFFER, b);
    if head.None? then None
    else
      var r := head.value.value;
      var size := Number(r, 7);
      if size > |head.value.rest| then None
      else
        var vars := ReadVars(Number(r, 6), head.value.rest[size..]);
        if vars.None? then None
        else Some(Got(Buffer(Name(r, 0), Number(r, 1), Number(r, 2), Number(r, 3), Number(r, 4), Number(r, 5),
                             head.value.rest[..size], vars.value.value), vars.value.rest))
  }

  function ReadVars(count: nat, b: Bytes): Option<Got<seq<Variable>>> {
    if !CountOk(count, b) then None else ReadMany(ReadVar, count, b)
  }

  lemma {:induction false} BufferHeadSurvives(x: Buffer)
    ensures var s := RecordSurvives(BufferRecord(x), BUFFER);
            Name(s, 0) == Kept(x.name, 32) && Number(s, 1) == x.space && Number(s, 2) == x.slot && Number(s, 3) == x.stageBits
    ensures |BufferRecord(x)| == |BUFFER| && |BufferBytes(x)| > 0
  {
    assert Size(BUFFER) >= BUFFER[0].size;
  }

  lemma {:induction false} BufferSizesSurvive(x: Buffer)
    ensures var s := RecordSurvives(BufferRecord(x), BUFFER);
            Number(s, 4) == x.registerType && Number(s, 5) == x.size && Number(s, 6) == |x.vars| && Number(s, 7) == |x.defaults|
  {
  }

  lemma {:induction false} VarsRead(vars: seq<Variable>, tail: Bytes)
    requires All(VarFits, vars)
    ensures ReadVars(|vars|, ManyBytes(VarBytes, vars) + tail) == Some(Got(Each(VarKept, vars), tail))
  {
    VarsUndo();
    ManyUndo(ReadVar, VarBytes, VarKept, VarFits, vars, tail);
  }

  lemma {:induction false} BufferReads(x: Buffer, tail: Bytes)
    requires BufferFits(x)
    ensures ReadBuffer(BufferBytes(x) + tail) == Some(Got(BufferKept(x), tail)) && |BufferBytes(x)| > 0
  {
    BufferHeadSurvives(x);
    BufferSizesSurvive(x);
    var head := RecordBytes(BufferRecord(x), BUFFER);
    var vars := ManyBytes(VarBytes, x.vars);
    Onto(head, x.defaults + vars, tail);
    Onto(x.defaults, vars, tail);
    RecordReads(BufferRecord(x), BUFFER, x.defaults + (vars + tail));
    var size := |x.defaults|;
    assert (x.defaults + (vars + tail))[..size] == x.defaults && (x.defaults + (vars + tail))[size..] == vars + tail;
    VarsRead(x.vars, tail);
  }

  lemma {:induction false} BufferExtends(b: Bytes, tail: Bytes)
    requires ReadBuffer(b).Some?
    ensures ReadBuffer(b + tail) == Some(Got(ReadBuffer(b).value.value, ReadBuffer(b).value.rest + tail))
  {
    RecordExtends(BUFFER, b, tail);
    var head := ReadRecord(BUFFER, b).value;
    var size := Number(head.value, 7);
    assert (head.rest + tail)[..size] == head.rest[..size] && (head.rest + tail)[size..] == head.rest[size..] + tail;
    VarsUndo();
    ManyExtend(ReadVar, Number(head.value, 6), head.rest[size..], tail);
  }

  lemma {:induction false} BuffersUndo()
    ensures Undoes(ReadBuffer, BufferBytes, BufferKept, BufferFits) && Extends(ReadBuffer)
  {
    forall x: Buffer, tail: Bytes | BufferFits(x)
      ensures ReadBuffer(BufferBytes(x) + tail) == Some(Got(BufferKept(x), tail)) && |BufferBytes(x)| > 0
    {
      BufferReads(x, tail);
    }
    forall b: Bytes, tail: Bytes | ReadBuffer(b).Some?
      ensures ReadBuffer(b + tail) == Some(Got(ReadBuffer(b).value.value, ReadBuffer(b).value.rest + tail))
    {
      BufferExtends(b, tail);
    }
  }

  // ----- stages -----

  /** The stage codec: it may refuse a module, and drops what strip drops. */
  datatype Codec = Codec(encode: Bytes -> Option<Bytes>, decode: Bytes -> Option<Bytes>, isEncoded: Bytes -> bool,
                         strip: Bytes -> Bytes)

  /** A stage of the program: a SPIR-V module's words, or a WGSL text. */
  datatype Source = Spirv(stage: nat, waveSize: nat, words: Bytes) | Wgsl(stage: nat, text: Bytes)

  datatype Stage = Stage(stage: nat, waveSize: nat, spirv: Bytes)

  const STAGE: Schema := [Num(4), Num(4), Num(4), Num(4)]

  predicate IsModule(words: Bytes) {
    |words| > 0 && |words| % 4 == 0
  }

  /** Encoding a module is undone by decoding, and encoded modules can be told from others. */
  ghost predicate Inverts(c: Codec) {
    forall w: Bytes :: IsModule(w) && c.encode(w).Some? ==>
      && c.isEncoded(c.encode(w).value) && c.decode(c.encode(w).value) == Some(c.strip(w))
      && IsModule(c.strip(w)) && !c.isEncoded(c.strip(w))
  }

  /** The bytes a module is stored as: encoded, or plain when the encoder refuses it or raw is asked for. */
  function Stored(c: Codec, raw: bool, words: Bytes): Bytes {
    var e := c.encode(words);
    if e.None? then words
    else if !raw then e.value
    else
      var d := c.decode(e.value);
      if d.Some? && |d.value| > 0 then d.value else words
  }

  /** The module that a stage ships, in whatever form it is stored. */
  function Shipped(c: Codec, words: Bytes): Bytes {
    if c.encode(words).None? then words else c.strip(words)
  }

  function Code(c: Codec, raw: bool, s: Source): Bytes {
    if s.Spirv? then Stored(c, raw, s.words) else s.text + [0]
  }

  function StageRecord(c: Codec, raw: bool, s: Source): Record {
    if s.Spirv? then [N(1), N(s.stage), N(s.waveSize), N(|Code(c, raw, s)|)]
    else [N(5), N(s.stage), N(0), N(|Code(c, raw, s)|)]
  }

  function StageBytes(c: Codec, raw: bool, s: Source): Bytes {
    RecordBytes(StageRecord(c, raw, s), STAGE) + Code(c, raw, s)
  }

  predicate StageFits(c: Codec, raw: bool, s: Source) {
    Shaped(StageRecord(c, raw, s), STAGE)
    && (s.Spirv? ==> IsModule(s.words) && (c.encode(s.words).None? ==> !c.isEncoded(s.words)))
  }

  /** What parsing shows of a stage: nothing of a text. */
  function Shown(c: Codec, s: Source): Option<Stage> {
    if s.Spirv? then Some(Stage(s.stage, s.waveSize, Shipped(c, s.words))) else None
  }

  /** The module in a stage's code. */
  function Loaded(c: Codec, code: Bytes): Option<Bytes> {
    if c.isEncoded(code) then
      var d := c.decode(code);
      if d.Some? && IsModule(d.value) then d else None
    else if |code| % 4 == 0 then Some(code)
    else None
  }

  function ReadStage(c: Codec, b: Bytes): Option<Got<Option<Stage>>> {
    var head := ReadRecord(STAGE, b);
    if head.None? then None
    else
      var r := head.value.value;
      var rest := head.value.rest;
      var size := Number(r, 3);
      if size > |rest| then None
      else if Number(r, 0) != 1 then Some(Got(None, rest[size..]))
      else
        var spirv := Loaded(c, rest[..size]);
        if spirv.None? then None
        else Some(Got(Some(Stage(Number(r, 1), Number(r, 2), spirv.value)), rest[size..]))
  }

  lemma {:induction false} LoadsWhatIsStored(c: Codec, raw: bool, words: Bytes)
    requires Inverts(c) && IsModule(words) && (c.encode(words).None? ==> !c.isEncoded(words))
    ensures Loaded(c, Stored(c, raw, words)) == Some(Shipped(c, words))
  {
  }

  /** A module is stored encoded when it can be and raw storage is not asked for. */
  lemma {:induction false} StoredEncodedIff(c: Codec, raw: bool, words: Bytes)
    requires Inverts(c) && IsModule(words) && (c.encode(words).None? ==> !c.isEncoded(words))
    ensures c.isEncoded(Stored(c, raw, words)) <==> !raw && c.encode(words).Some?
  {
  }

  lemma {:induction false} StageReads(c: Codec, raw: bool, s: Source, tail: Bytes)
    requires Inverts(c) && StageFits(c, raw, s)
    ensures ReadStage(c, StageBytes(c, raw, s) + tail) == Some(Got(Shown(c, s), tail)) && |StageBytes(c, raw, s)| > 0
  {
    var code := Code(c, raw, s);
    var r := StageRecord(c, raw, s);
    assert |r| == |STAGE| && Size(STAGE) >= STAGE[0].size;
    Onto(RecordBytes(r, STAGE), code, tail);
    RecordReads(r, STAGE, code + tail);
    assert RecordSurvives(r, STAGE) == r;
    assert (code + tail)[..|code|] == code && (code + tail)[|code|..] == tail;
    if s.Spirv? {
      LoadsWhatIsStored(c, raw, s.words);
    }
  }

  lemma {:induction false} StageExtends(c: Codec, b: Bytes, tail: Bytes)
    requires ReadStage(c, b).Some?
    ensures ReadStage(c, b + tail) == Some(Got(ReadStage(c, b).value.value, ReadStage(c, b).value.rest + tail))
  {
    RecordExtends(STAGE, b, tail);
    var head := ReadRecord(STAGE, b).value;
    var size := Number(head.value, 3);
    assert (head.rest + tail)[..size] == head.rest[..size] && (head.rest + tail)[size..] == head.rest[size..] + tail;
  }

  function StageReader(c: Codec): Bytes -> Option<Got<Option<Stage>>> {
    b => ReadStage(c, b)
  }

  function StageWriter(c: Codec, raw: bool): Source -> Bytes {
    s => StageBytes(c, raw, s)
  }

  function StageShower(c: Codec): Source -> Option<Stage> {
    s => Shown(c, s)
  }

  function StageChecker(c: Codec, raw: bool): Source -> bool {
    s => StageFits(c, raw, s)
  }

  lemma {:induction false} StagesUndo(c: Codec, raw: bool)
    ensures Inverts(c) ==> Undoes(StageReader(c), StageWriter(c, raw), StageShower(c), StageChecker(c, raw))
    ensures Extends(StageReader(c))
  {
    if Inverts(c) {
      forall s: Source, tail: Bytes | StageChecker(c, raw)(s)
        ensures StageReader(c)(StageWriter(c, raw)(s) + tail) == Some(Got(StageShower(c)(s), tail))
        ensures |StageWriter(c, raw)(s)| > 0
      {
        StageReads(c, raw, s, tail);
      }
    }
    forall b: Bytes, tail: Bytes | StageReader(c)(b).Some?
      ensures StageReader(c)(b + tail) == Some(Got(StageReader(c)(b).value.value, StageReader(c)(b).value.rest + tail))
    {
      StageExtends(c, b, tail);
    }
  }

  function Somes<V>(xs: seq<Option<V>>): seq<V> {
    if xs == [] then [] else (if xs[0].Some? then [xs[0].value] else []) + Somes(xs[1..])
  }
}
