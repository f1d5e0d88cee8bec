/** The shader container: what is written for a program, and what parsing the bytes gives. */
module SksFile {
  import opened Ir
  import opened SksFields

  // ----- records of the container -----

  datatype Variable = Variable(name: Bytes, extra: Bytes, typeName: Bytes, offset: nat, size: nat, typ: nat, typeCount: nat)
  datatype Input = Input(format: int, count: nat, semantic: int, slot: nat, location: nat)
  datatype Resource = Resource(name: Bytes, value: Bytes, tags: Bytes, slot: nat, stageBits: nat, registerType: nat,
                               elementSize: nat, shape: nat, imageFormat: nat)
  datatype Spec = Spec(name: Bytes, id: nat, defaultBits: nat, typ: nat, stageBits: nat)
  datatype Sampler = Sampler(name: Bytes, slot: nat, stageBits: nat, pairedSlot: nat)

  const VAR: Schema := [Str(32), Str(64), Str(32), Num(4), Num(4), Num(2), Num(2)]
  const INPUT: Schema := [Num(4), Num(1), Num(4), Num(1), Num(1)]
  const RESOURCE: Schema :=
    [Str(32), Str(64), Str(64), Num(2), Num(1), Num(1), Num(4), Num(1), Num(1), Num(2)]
  const SPEC: Schema := [Str(32), Num(4), Num(4), Num(2), Num(1)]
  const SAMPLER: Schema := [Str(32), Num(2), Num(1), Num(2)]

  /** A signed 32-bit number as its bit pattern, and back. */
  function Pattern(i: int): nat {
    i % 0x1_0000_0000
  }

  function Signed(n: nat): int {
    if n < 0x8000_0000 then n else n - 0x1_0000_0000
  }

  predicate IsInt32(i: int) {
    -0x8000_0000 <= i < 0x8000_0000
  }

  lemma {:induction false} SignedPattern(i: int)
    requires IsInt32(i)
    ensures Pattern(i) < 0x1_0000_0000 && Signed(Pattern(i)) == i
  {
  }

  function Name(r: Record, i: nat): Bytes {
    if i < |r| && r[i].S? then r[i].s else []
  }

  function Number(r: Record, i: nat): nat {
    if i < |r| && r[i].N? then r[i].n else 0
  }

  function VarRecord(v: Variable): Record {
    [S(v.name), S(v.extra), S(v.typeName), N(v.offset), N(v.size), N(v.typ), N(v.typeCount)]
  }

  function VarOf(r: Record): Variable {
    Variable(Name(r, 0), Name(r, 1), Name(r, 2), Number(r, 3), Number(r, 4), Number(r, 5), Number(r, 6))
  }

  function InputRecord(x: Input): Record {
    [N(Pattern(x.format)), N(x.count), N(Pattern(x.semantic)), N(x.slot), N(x.location)]
  }

  function InputOf(r: Record): Input {
    Input(Signed(Number(r, 0)), Number(r, 1), Signed(Number(r, 2)), Number(r, 3), Number(r, 4))
  }

  /** The last number is reserved. */
  function ResourceRecord(x: Resource): Record {
    [S(x.name), S(x.value), S(x.tags), N(x.slot), N(x.stageBits), N(x.registerType), N(x.elementSize), N(x.shape),
     N(x.imageFormat), N(0)]
  }

  function ResourceOf(r: Record): Resource {
    Resource(Name(r, 0), Name(r, 1), Name(r, 2), Number(r, 3), Number(r, 4), Number(r, 5), Number(r, 6), Number(r, 7),
             Number(r, 8))
  }

  function SpecRecord(x: Spec): Record {
    [S(x.name), N(x.id), N(x.defaultBits), N(x.typ), N(x.stageBits)]
  }

  function SpecOf(r: Record): Spec {
    Spec(Name(r, 0), Number(r, 1), Number(r, 2), Number(r, 3), Number(r, 4))
  }

  function SamplerRecord(x: Sampler): Record {
    [S(x.name), N(x.slot), N(x.stageBits), N(x.pairedSlot)]
  }

  function SamplerOf(r: Record): Sampler {
    Sampler(Name(r, 0), Number(r, 1), Number(r, 2), Number(r, 3))
  }

  // ----- what the fixed-size name fields keep -----

  function VarKept(v: Variable): Variable {
    v.(name := Kept(v.name, 32), extra := Kept(v.extra, 64), typeName := Kept(v.typeName, 32))
  }

  function InputKept(x: Input): Input {
    x
  }

  function ResourceKept(x: Resource): Resource {
    x.(name := Kept(x.name, 32), value := Kept(x.value, 64), tags := Kept(x.tags, 64))
  }

  function SpecKept(x: Spec): Spec {
    x.(name := Kept(x.name, 32))
  }

  function SamplerKept(x: Sampler): Sampler {
    x.(name := Kept(x.name, 32))
  }

  // ----- one record written and read -----

  function ReadAs<V>(schema: Schema, of: Record -> V, b: Bytes): Option<Got<V>> {
    var got := ReadRecord(schema, b);
    if got.None? then None else Some(Got(of(got.value.value), got.value.rest))
  }

  function VarBytes(v: Variable): Bytes { RecordBytes(VarRecord(v), VAR) }
  function InputBytes(x: Input): Bytes { RecordBytes(InputRecord(x), INPUT) }
  function ResourceBytes(x: Resource): Bytes { RecordBytes(ResourceRecord(x), RESOURCE) }
  function SpecBytes(x: Spec): Bytes { RecordBytes(SpecRecord(x), SPEC) }
  function SamplerBytes(x: Sampler): Bytes { RecordBytes(SamplerRecord(x), SAMPLER) }

  function ReadVar(b: Bytes): Option<Got<Variable>> { ReadAs(VAR, VarOf, b) }
  function ReadInput(b: Bytes): Option<Got<Input>> { ReadAs(INPUT, InputOf, b) }
  function ReadResource(b: Bytes): Option<Got<Resource>> { ReadAs(RESOURCE, ResourceOf, b) }
  function ReadSpec(b: Bytes): Option<Got<Spec>> { ReadAs(SPEC, SpecOf, b) }
  function ReadSampler(b: Bytes): Option<Got<Sampler>> { ReadAs(SAMPLER, SamplerOf, b) }

  /** Every number is in its field's range. */
  predicate VarFits(v: Variable) { Shaped(VarRecord(v), VAR) }
  predicate InputFits(x: Input) { IsInt32(x.format) && IsInt32(x.semantic) && Shaped(InputRecord(x), INPUT) }
  predicate ResourceFits(x: Resource) { Shaped(ResourceRecord(x), RESOURCE) }
  predicate SpecFits(x: Spec) { Shaped(SpecRecord(x), SPEC) }
  predicate SamplerFits(x: Sampler) { Shaped(SamplerRecord(x), SAMPLER) }

  lemma {:induction false} VarSurvives(v: Variable)
    ensures VarOf(RecordSurvives(VarRecord(v), VAR)) == VarKept(v)
    ensures |VarBytes(v)| > 0
  {
    var r := VarRecord(v);
    assert |r| == |VAR|;
    assert Size(VAR) >= VAR[0].size;
  }

  lemma {:induction false} VarsUndo()
    ensures Undoes(ReadVar, VarBytes, VarKept, VarFits) && Extends(ReadVar)
  {
    forall v: Variable, tail: Bytes | VarFits(v)
      ensures ReadVar(VarBytes(v) + tail) == Some(Got(VarKept(v), tail)) && |VarBytes(v)| > 0
    {
      RecordReads(VarRecord(v), VAR, tail);
      VarSurvives(v);
    }
    forall b: Bytes, tail: Bytes | ReadVar(b).Some?
      ensures ReadVar(b + tail) == Some(Got(ReadVar(b).value.value, ReadVar(b).value.rest + tail))
    {
      RecordExtends(VAR, b, tail);
    }
  }

  lemma {:induction false} InputsUndo()
    ensures Undoes(ReadInput, InputBytes, InputKept, InputFits) && Extends(ReadInput)
  {
    forall x: Input, tail: Bytes | InputFits(x)
      ensures ReadInput(InputBytes(x) + tail) == Some(Got(InputKept(x), tail)) && |InputBytes(x)| > 0
    {
      RecordReads(InputRecord(x), INPUT, tail);
      SignedPattern(x.format);
      SignedPattern(x.semantic);
    }
    forall b: Bytes, tail: Bytes | ReadInput(b).Some?
      ensures ReadInput(b + tail) == Some(Got(ReadInput(b).value.value, ReadInput(b).value.rest + tail))
    {
      RecordExtends(INPUT, b, tail);
    }
  }

  lemma {:induction false} ResourceNamesSurvive(x: Resource)
    ensures var s := RecordSurvives(ResourceRecord(x), RESOURCE);
            Name(s, 0) == Kept(x.name, 32) && Name(s, 1) == Kept(x.value, 64) && Name(s, 2) == Kept(x.tags, 64)
    ensures |ResourceRecord(x)| == |RESOURCE| && |ResourceBytes(x)| > 0
  {
    assert Size(RESOURCE) >= RESOURCE[0].size;
  }

  lemma {:induction false} ResourceBindSurvives(x: Resource)
    ensures var s := RecordSurvives(ResourceRecord(x), RESOURCE);
            Number(s, 3) == x.slot && Number(s, 4) == x.stageBits && Number(s, 5) == x.registerType
  {
  }

  lemma {:induction false} ResourceFormSurvives(x: Resource)
    ensures var s := RecordSurvives(ResourceRecord(x), RESOURCE);
            Number(s, 6) == x.elementSize && Number(s, 7) == x.shape && Number(s, 8) == x.imageFormat
  {
  }

  lemma {:induction false} ResourceSurvives(x: Resource)
    ensures ResourceOf(RecordSurvives(ResourceRecord(x), RESOURCE)) == ResourceKept(x)
    ensures |ResourceBytes(x)| > 0
  {
    ResourceNamesSurvive(x);
    ResourceBindSurvives(x);
    ResourceFormSurvives(x);
  }

  lemma {:induction false} ResourcesUndo()
    ensures Undoes(ReadResource, ResourceBytes, ResourceKept, ResourceFits) && Extends(ReadResource)
  {
    forall x: Resource, tail: Bytes | ResourceFits(x)
      ensures ReadResource(ResourceBytes(x) + tail) == Some(Got(ResourceKept(x), tail)) && |ResourceBytes(x)| > 0
    {
      RecordReads(ResourceRecord(x), RESOURCE, tail);
      ResourceSurvives(x);
    }
    forall b: Bytes, tail: Bytes | ReadResource(b).Some?
      ensures ReadResource(b + tail) == Some(Got(ReadResource(b).value.value, ReadResource(b).value.rest + tail))
    {
      RecordExtends(RESOURCE, b, tail);
    }
  }

  lemma {:induction false} SpecsUndo()
    ensures Undoes(ReadSpec, SpecBytes, SpecKept, SpecFits) && Extends(ReadSpec)
  {
    forall x: Spec, tail: Bytes | SpecFits(x)
      ensures ReadSpec(SpecBytes(x) + tail) == Some(Got(SpecKept(x), tail)) && |SpecBytes(x)| > 0
    {
      RecordReads(SpecRecord(x), SPEC, tail);
    }
    forall b: Bytes, tail: Bytes | ReadSpec(b).Some?
      ensures ReadSpec(b + tail) == Some(Got(ReadSpec(b).value.value, ReadSpec(b).value.rest + tail))
    {
      RecordExtends(SPEC, b, tail);
    }
  }

  lemma {:induction false} SamplersUndo()
    ensures Undoes(ReadSampler, SamplerBytes, SamplerKept, SamplerFits) && Extends(ReadSampler)
  {
    forall x: Sampler, tail: Bytes | SamplerFits(x)
      ensures ReadSampler(SamplerBytes(x) + tail) == Some(Got(SamplerKept(x), tail)) && |SamplerBytes(x)| > 0
    {
      RecordReads(SamplerRecord(x), SAMPLER, tail);
    }
    forall b: Bytes, tail: Bytes | ReadSampler(b).Some?
      ensures ReadSampler(b + tail) == Some(Got(ReadSampler(b).value.value, ReadSampler(b).value.rest + tail))
    {
      RecordExtends(SAMPLER, b, tail);
    }
  }
}
