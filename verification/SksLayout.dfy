/** Where each field of a container stands, byte by byte. */
module SksLayout {
  import opened Ir
  import opened SksFields
  import opened SksFile
  import opened SksContainer
  import opened SksParse

  function Power(k: nat): (p: nat)
    ensures p > 0
  {
    if k == 0 then 1 else 256 * Power(k - 1)
  }

  /** The number stands at `at`, lowest byte first. */
  predicate HasNumber(b: Bytes, at: nat, size: nat, n: nat) {
    at + size <= |b| && forall k :: 0 <= k < size ==> b[at + k] == n / Power(k) % 256
  }

  /** The name stands at `at`, cut off or filled up with zeros. */
  predicate HasName(b: Bytes, at: nat, size: nat, s: Bytes) {
    at + size <= |b| && forall k :: 0 <= k < size ==> b[at + k] == if k < |s| then s[k] else 0
  }

  lemma {:induction false} LeByte(n: nat, size: nat, k: nat)
    requires k < size
    ensures LeBytes(n, size)[k] == n / Power(k) % 256
  {
    if k > 0 {
      LeByte(n / 256, size - 1, k - 1);
      DivTwice(n, Power(k - 1));
    }
  }

  lemma {:induction false} DivTwice(n: nat, p: nat)
    requires p > 0
    ensures n / 256 / p == n / (256 * p)
  {
    var q, r := n / 256 / p, n / 256 % p;
    assert n / 256 == q * p + r;
    assert n == (q * p + r) * 256 + n % 256;
    Regroup(q, p, r, n % 256);
    QuotientIs(n, 256 * p, q, r * 256 + n % 256);
  }

  lemma {:induction false} Regroup(q: nat, p: nat, r: nat, low: nat)
    ensures (q * p + r) * 256 + low == q * (256 * p) + (r * 256 + low)
  {
  }

  lemma {:induction false} QuotientIs(n: nat, m: nat, q: nat, r: nat)
    requires m > 0 && n == q * m + r && r < m
    ensures n / m == q
  {
    var k := n / m - q;
    assert n == n / m * m + n % m;
    assert k * m == r - n % m;
  }

  // ----- fields of a record -----

  function Offset(schema: Schema, i: nat): nat
    requires i <= |schema|
  {
    if i == 0 then 0 else Offset(schema, i - 1) + schema[i - 1].size
  }

  lemma {:induction false} OffsetBehindFirst(schema: Schema, i: nat)
    requires 0 < i <= |schema|
    ensures Offset(schema, i) == schema[0].size + Offset(schema[1..], i - 1)
  {
    if i > 1 {
      OffsetBehindFirst(schema, i - 1);
    }
  }

  /** The bytes of b from `at` on are those of part. */
  predicate PartAt(b: Bytes, at: nat, part: Bytes) {
    at + |part| <= |b| && b[at..at + |part|] == part
  }

  lemma {:induction false} FieldStands(r: Record, schema: Schema, i: nat)
    requires |r| == |schema| && i < |r|
    ensures PartAt(RecordBytes(r, schema), Offset(schema, i), FieldBytes(r[i], schema[i]))
    decreases i
  {
    var first, rest := FieldBytes(r[0], schema[0]), RecordBytes(r[1..], schema[1..]);
    assert RecordBytes(r, schema) == first + rest;
    if i == 0 {
      InFront(first, rest);
    } else {
      FieldStands(r[1..], schema[1..], i - 1);
      OffsetBehindFirst(schema, i);
      PartBehind(first, rest, Offset(schema[1..], i - 1), FieldBytes(r[i], schema[i]));
    }
  }

  lemma {:induction false} PartBehind(a: Bytes, b: Bytes, at: nat, part: Bytes)
    requires PartAt(b, at, part)
    ensures PartAt(a + b, |a| + at, part)
  {
    Behind(a, b, at, |part|);
  }

  lemma {:induction false} InFront(a: Bytes, b: Bytes)
    ensures PartAt(a + b, 0, a)
  {
  }

  lemma {:induction false} Behind(a: Bytes, b: Bytes, at: nat, size: nat)
    requires at + size <= |b|
    ensures (a + b)[|a| + at..|a| + at + size] == b[at..at + size]
  {
  }

  lemma {:induction false} NumberStands(r: Record, schema: Schema, i: nat, at: nat, size: nat, n: nat)
    requires |r| == |schema| && i < |r| && schema[i] == Num(size) && r[i] == N(n) && at == Offset(schema, i)
    ensures HasNumber(RecordBytes(r, schema), at, size, n)
  {
    FieldStands(r, schema, i);
    NumberIn(RecordBytes(r, schema), at, size, n);
  }

  lemma {:induction false} NumberIn(b: Bytes, at: nat, size: nat, n: nat)
    requires at + size <= |b| && b[at..at + size] == LeBytes(n, size)
    ensures HasNumber(b, at, size, n)
  {
    forall k | 0 <= k < size
      ensures b[at + k] == n / Power(k) % 256
    {
      LeByte(n, size, k);
      assert b[at..at + size][k] == b[at + k];
    }
  }

  lemma {:induction false} NameStands(r: Record, schema: Schema, i: nat, at: nat, size: nat, s: Bytes)
    requires |r| == |schema| && i < |r| && schema[i] == Str(size) && r[i] == S(s) && at == Offset(schema, i)
    ensures HasName(RecordBytes(r, schema), at, size, s)
  {
    FieldStands(r, schema, i);
    var b := RecordBytes(r, schema);
    forall k | 0 <= k < size
      ensures b[at + k] == if k < |s| then s[k] else 0
    {
      assert b[at..at + size][k] == b[at + k];
    }
  }

  lemma {:induction false} SizeIsOffset(schema: Schema)
    ensures Size(schema) == Offset(schema, |schema|)
    decreases |schema|
  {
    if schema != [] {
      SizeIsOffset(schema[1..]);
      OffsetBehindFirst(schema, |schema|);
    }
  }

  // ----- the records -----

  lemma {:induction false} VAROffsets()
    ensures |VAR| == 7 && Offset(VAR, 0) == 0
    ensures Offset(VAR, 1) == 32
    ensures Offset(VAR, 2) == 96
    ensures Offset(VAR, 3) == 128
    ensures Offset(VAR, 4) == 132
    ensures Offset(VAR, 5) == 136
    ensures Offset(VAR, 6) == 138
    ensures Offset(VAR, 7) == 140
  {
    assert Offset(VAR, 1) == 32;
    assert Offset(VAR, 2) == 96;
    assert Offset(VAR, 3) == 128;
    assert Offset(VAR, 4) == 132;
    assert Offset(VAR, 5) == 136;
    assert Offset(VAR, 6) == 138;
    assert Offset(VAR, 7) == 140;
  }

  /** A variable: 140 bytes. */
  lemma {:induction false} VariableLayout(v: Variable)
    ensures var b := VarBytes(v);
            && |b| == 140
            && HasName(b, 0, 32, v.name)
            && HasName(b, 32, 64, v.extra)
            && HasName(b, 96, 32, v.typeName)
            && HasNumber(b, 128, 4, v.offset)
            && HasNumber(b, 132, 4, v.size)
            && HasNumber(b, 136, 2, v.typ)
            && HasNumber(b, 138, 2, v.typeCount)
  {
    var r := VarRecord(v);
    VAROffsets();
    SizeIsOffset(VAR);
    NameStands(r, VAR, 0, 0, 32, v.name);
    NameStands(r, VAR, 1, 32, 64, v.extra);
    NameStands(r, VAR, 2, 96, 32, v.typeName);
    NumberStands(r, VAR, 3, 128, 4, v.offset);
    NumberStands(r, VAR, 4, 132, 4, v.size);
    NumberStands(r, VAR, 5, 136, 2, v.typ);
    NumberStands(r, VAR, 6, 138, 2, v.typeCount);
  }

  lemma {:induction false} INPUTOffsets()
    ensures |INPUT| == 5 && Offset(INPUT, 0) == 0
    ensures Offset(INPUT, 1) == 4
    ensures Offset(INPUT, 2) == 5
    ensures Offset(INPUT, 3) == 9
    ensures Offset(INPUT, 4) == 10
    ensures Offset(INPUT, 5) == 11
  {
    assert Offset(INPUT, 1) == 4;
    assert Offset(INPUT, 2) == 5;
    assert Offset(INPUT, 3) == 9;
    assert Offset(INPUT, 4) == 10;
    assert Offset(INPUT, 5) == 11;
  }

  /** A vertex input: 11 bytes. */
  lemma {:induction false} InputLayout(x: Input)
    ensures var b := InputBytes(x);
            && |b| == 11
            && HasNumber(b, 0, 4, x.format % 0x1_0000_0000)
            && HasNumber(b, 4, 1, x.count)
            && HasNumber(b, 5, 4, x.semantic % 0x1_0000_0000)
            && HasNumber(b, 9, 1, x.slot)
            && HasNumber(b, 10, 1, x.location)
  {
    var r := InputRecord(x);
    INPUTOffsets();
    SizeIsOffset(INPUT);
    NumberStands(r, INPUT, 0, 0, 4, x.format % 0x1_0000_0000);
    NumberStands(r, INPUT, 1, 4, 1, x.count);
    NumberStands(r, INPUT, 2, 5, 4, x.semantic % 0x1_0000_0000);
    NumberStands(r, INPUT, 3, 9, 1, x.slot);
    NumberStands(r, INPUT, 4, 10, 1, x.location);
  }

  lemma {:induction false} RESOURCEOffsets()
    ensures |RESOURCE| == 10 && Offset(RESOURCE, 0) == 0
    ensures Offset(RESOURCE, 1) == 32
    ensures Offset(RESOURCE, 2) == 96
    ensures Offset(RESOURCE, 3) == 160
    ensures Offset(RESOURCE, 4) == 162
    ensures Offset(RESOURCE, 5) == 163
    ensures Offset(RESOURCE, 6) == 164
    ensures Offset(RESOURCE, 7) == 168
    ensures Offset(RESOURCE, 8) == 169
    ensures Offset(RESOURCE, 9) == 170
    ensures Offset(RESOURCE, 10) == 172
  {
    assert Offset(RESOURCE, 1) == 32;
    assert Offset(RESOURCE, 2) == 96;
    assert Offset(RESOURCE, 3) == 160;
    assert Offset(RESOURCE, 4) == 162;
    assert Offset(RESOURCE, 5) == 163;
    assert Offset(RESOURCE, 6) == 164;
    assert Offset(RESOURCE, 7) == 168;
    assert Offset(RESOURCE, 8) == 169;
    assert Offset(RESOURCE, 9) == 170;
    assert Offset(RESOURCE, 10) == 172;
  }

  /** A resource: 172 bytes, the last two reserved. */
  lemma {:induction false} ResourceLayout(x: Resource)
    ensures var b := ResourceBytes(x);
            && |b| == 172
            && HasName(b, 0, 32, x.name)
            && HasName(b, 32, 64, x.value)
            && HasName(b, 96, 64, x.tags)
            && HasNumber(b, 160, 2, x.slot)
            && HasNumber(b, 162, 1, x.stageBits)
            && HasNumber(b, 163, 1, x.registerType)
            && HasNumber(b, 164, 4, x.elementSize)
            && HasNumber(b, 168, 1, x.shape)
            && HasNumber(b, 169, 1, x.imageFormat)
            && HasNumber(b, 170, 2, 0)
  {
    var r := ResourceRecord(x);
    RESOURCEOffsets();
    SizeIsOffset(RESOURCE);
    NameStands(r, RESOURCE, 0, 0, 32, x.name);
    NameStands(r, RESOURCE, 1, 32, 64, x.value);
    NameStands(r, RESOURCE, 2, 96, 64, x.tags);
    NumberStands(r, RESOURCE, 3, 160, 2, x.slot);
    NumberStands(r, RESOURCE, 4, 162, 1, x.stageBits);
    NumberStands(r, RESOURCE, 5, 163, 1, x.registerType);
    NumberStands(r, RESOURCE, 6, 164, 4, x.elementSize);
    NumberStands(r, RESOURCE, 7, 168, 1, x.shape);
    NumberStands(r, RESOURCE, 8, 169, 1, x.imageFormat);
    NumberStands(r, RESOURCE, 9, 170, 2, 0);
  }

  lemma {:induction false} SPECOffsets()
    ensures |SPEC| == 5 && Offset(SPEC, 0) == 0
    ensures Offset(SPEC, 1) == 32
    ensures Offset(SPEC, 2) == 36
    ensures Offset(SPEC, 3) == 40
    ensures Offset(SPEC, 4) == 42
    ensures Offset(SPEC, 5) == 43
  {
    assert Offset(SPEC, 1) == 32;
    assert Offset(SPEC, 2) == 36;
    assert Offset(SPEC, 3) == 40;
    assert Offset(SPEC, 4) == 42;
    assert Offset(SPEC, 5) == 43;
  }

  /** A specialisation constant: 43 bytes. */
  lemma {:induction false} SpecLayout(x: Spec)
    ensures var b := SpecBytes(x);
            && |b| == 43
            && HasName(b, 0, 32, x.name)
            && HasNumber(b, 32, 4, x.id)
            && HasNumber(b, 36, 4, x.defaultBits)
            && HasNumber(b, 40, 2, x.typ)
            && HasNumber(b, 42, 1, x.stageBits)
  {
    var r := SpecRecord(x);
    SPECOffsets();
    SizeIsOffset(SPEC);
    NameStands(r, SPEC, 0, 0, 32, x.name);
    NumberStands(r, SPEC, 1, 32, 4, x.id);
    NumberStands(r, SPEC, 2, 36, 4, x.defaultBits);
    NumberStands(r, SPEC, 3, 40, 2, x.typ);
    NumberStands(r, SPEC, 4, 42, 1, x.stageBits);
  }

  lemma {:induction false} SAMPLEROffsets()
    ensures |SAMPLER| == 4 && Offset(SAMPLER, 0) == 0
    ensures Offset(SAMPLER, 1) == 32
    ensures Offset(SAMPLER, 2) == 34
    ensures Offset(SAMPLER, 3) == 35
    ensures Offset(SAMPLER, 4) == 37
  {
    assert Offset(SAMPLER, 1) == 32;
    assert Offset(SAMPLER, 2) == 34;
    assert Offset(SAMPLER, 3) == 35;
    assert Offset(SAMPLER, 4) == 37;
  }

  /** A sampler: 37 bytes. */
  lemma {:induction false} SamplerLayout(x: Sampler)
    ensures var b := SamplerBytes(x);
            && |b| == 37
            && HasName(b, 0, 32, x.name)
            && HasNumber(b, 32, 2, x.slot)
            && HasNumber(b, 34, 1, x.stageBits)
            && HasNumber(b, 35, 2, x.pairedSlot)
  {
    var r := SamplerRecord(x);
    SAMPLEROffsets();
    SizeIsOffset(SAMPLER);
    NameStands(r, SAMPLER, 0, 0, 32, x.name);
    NumberStands(r, SAMPLER, 1, 32, 2, x.slot);
    NumberStands(r, SAMPLER, 2, 34, 1, x.stageBits);
    NumberStands(r, SAMPLER, 3, 35, 2, x.pairedSlot);
  }

  lemma {:induction false} BUFFEROffsets()
    ensures |BUFFER| == 8 && Offset(BUFFER, 0) == 0
    ensures Offset(BUFFER, 1) == 32
    ensures Offset(BUFFER, 2) == 33
    ensures Offset(BUFFER, 3) == 35
    ensures Offset(BUFFER, 4) == 36
    ensures Offset(BUFFER, 5) == 37
    ensures Offset(BUFFER, 6) == 41
    ensures Offset(BUFFER, 7) == 45
    ensures Offset(BUFFER, 8) == 49
  {
    assert Offset(BUFFER, 1) == 32;
    assert Offset(BUFFER, 2) == 33;
    assert Offset(BUFFER, 3) == 35;
    assert Offset(BUFFER, 4) == 36;
    assert Offset(BUFFER, 5) == 37;
    assert Offset(BUFFER, 6) == 41;
    assert Offset(BUFFER, 7) == 45;
    assert Offset(BUFFER, 8) == 49;
  }

  /** A buffer's header: 49 bytes. */
  lemma {:induction false} BufferHeadLayout(x: Buffer)
    ensures var b := RecordBytes(BufferRecord(x), BUFFER);
            && |b| == 49
            && HasName(b, 0, 32, x.name)
            && HasNumber(b, 32, 1, x.space)
            && HasNumber(b, 33, 2, x.slot)
            && HasNumber(b, 35, 1, x.stageBits)
            && HasNumber(b, 36, 1, x.registerType)
            && HasNumber(b, 37, 4, x.size)
            && HasNumber(b, 41, 4, |x.vars|)
            && HasNumber(b, 45, 4, |x.defaults|)
  {
    var r := BufferRecord(x);
    BUFFEROffsets();
    SizeIsOffset(BUFFER);
    NameStands(r, BUFFER, 0, 0, 32, x.name);
    NumberStands(r, BUFFER, 1, 32, 1, x.space);
    NumberStands(r, BUFFER, 2, 33, 2, x.slot);
    NumberStands(r, BUFFER, 3, 35, 1, x.stageBits);
    NumberStands(r, BUFFER, 4, 36, 1, x.registerType);
    NumberStands(r, BUFFER, 5, 37, 4, x.size);
    NumberStands(r, BUFFER, 6, 41, 4, |x.vars|);
    NumberStands(r, BUFFER, 7, 45, 4, |x.defaults|);
  }

  // ----- what follows the headers -----

  lemma {:induction false} RecordOfTable<A>(bytes: A -> Bytes, xs: seq<A>, size: nat, k: nat)
    requires k < |xs| && forall x: A :: |bytes(x)| == size
    ensures |ManyBytes(bytes, xs)| == size * |xs| && size * k + size <= size * |xs|
    ensures ManyBytes(bytes, xs)[size * k..size * k + size] == bytes(xs[k])
    decreases |xs|
  {
    TableSize(bytes, xs, size);
    Within(size, k, |xs|);
    if k > 0 {
      RecordOfTable(bytes, xs[1..], size, k - 1);
      Behind(bytes(xs[0]), ManyBytes(bytes, xs[1..]), size * (k - 1), size);
      OneBefore(size, k);
    }
  }

  lemma {:induction false} OneBefore(size: nat, k: nat)
    requires k > 0
    ensures size * k == size + size * (k - 1)
  {
  }

  lemma {:induction false} Within(size: nat, k: nat, n: nat)
    requires k < n
    ensures size * k + size <= size * n
    decreases n - k
  {
    OneBefore(size, k + 1);
    if k + 1 < n {
      Within(size, k + 1, n);
    }
  }

  lemma {:induction false} TableSize<A>(bytes: A -> Bytes, xs: seq<A>, size: nat)
    requires forall x: A :: |bytes(x)| == size
    ensures |ManyBytes(bytes, xs)| == size * |xs|
    decreases |xs|
  {
    if xs != [] {
      TableSize(bytes, xs[1..], size);
      OneBefore(size, |xs|);
    }
  }

  /** A buffer: its header, its default contents, and its variables in 140 bytes each. */
  lemma {:induction false} BufferLayout(x: Buffer, k: nat)
    requires k < |x.vars|
    ensures var b, at := BufferBytes(x), 49 + |x.defaults|;
            && |b| == at + 140 * |x.vars| && 140 * k + 140 <= 140 * |x.vars|
            && b[..49] == RecordBytes(BufferRecord(x), BUFFER) && b[49..at] == x.defaults
            && b[at + 140 * k..at + 140 * k + 140] == VarBytes(x.vars[k])
  {
    var head, vars := RecordBytes(BufferRecord(x), BUFFER), ManyBytes(VarBytes, x.vars);
    BufferHeadLayout(x);
    forall v: Variable
      ensures |VarBytes(v)| == 140
    {
      VariableLayout(v);
    }
    RecordOfTable(VarBytes, x.vars, 140, k);
    ThreeParts(head, x.defaults, vars, 140 * k, 140);
  }

  lemma {:induction false} ThreeParts(a: Bytes, b: Bytes, c: Bytes, at: nat, size: nat)
    requires at + size <= |c|
    ensures var all := a + (b + c); var n := |a| + |b|;
            |all| == n + |c| && all[..|a|] == a && all[|a|..n] == b && all[n + at..n + at + size] == c[at..at + size]
  {
    var all := a + (b + c);
    assert all == (a + b) + c;
    Behind(a + b, c, at, size);
    Behind(a, b + c, 0, |b|);
  }

  /** A stage: its language, which stage, its wave size, the length of its code, and the code. */
  lemma {:induction false} StageLayout(c: Codec, raw: bool, s: Source)
    ensures var b, code := StageBytes(c, raw, s), Code(c, raw, s);
            && |b| == 16 + |code| && HasNumber(b, 0, 4, if s.Spirv? then 1 else 5) && HasNumber(b, 4, 4, s.stage)
            && HasNumber(b, 8, 4, if s.Spirv? then s.waveSize else 0) && HasNumber(b, 12, 4, |code|) && b[16..] == code
  {
    var r, code := StageRecord(c, raw, s), Code(c, raw, s);
    STAGEOffsets();
    SizeIsOffset(STAGE);
    NumberStands(r, STAGE, 0, 0, 4, if s.Spirv? then 1 else 5);
    NumberStands(r, STAGE, 1, 4, 4, s.stage);
    NumberStands(r, STAGE, 2, 8, 4, if s.Spirv? then s.waveSize else 0);
    NumberStands(r, STAGE, 3, 12, 4, |code|);
    var head := RecordBytes(r, STAGE);
    NumberInFront(head, code, 0, 4, if s.Spirv? then 1 else 5);
    NumberInFront(head, code, 4, 4, s.stage);
    NumberInFront(head, code, 8, 4, if s.Spirv? then s.waveSize else 0);
    NumberInFront(head, code, 12, 4, |code|);
  }

  lemma {:induction false} STAGEOffsets()
    ensures |STAGE| == 4 && Offset(STAGE, 0) == 0 && Offset(STAGE, 1) == 4 && Offset(STAGE, 2) == 8
    ensures Offset(STAGE, 3) == 12 && Offset(STAGE, 4) == 16
  {
    assert Offset(STAGE, 1) == 4;
    assert Offset(STAGE, 2) == 8;
    assert Offset(STAGE, 3) == 12;
  }

  lemma {:induction false} NumberInFront(a: Bytes, b: Bytes, at: nat, size: nat, n: nat)
    requires HasNumber(a, at, size, n)
    ensures HasNumber(a + b, at, size, n)
  {
  }

  lemma {:induction false} HEADOffsets()
    ensures |HEAD| == 8 && Offset(HEAD, 0) == 0
    ensures Offset(HEAD, 1) == 2
    ensures Offset(HEAD, 2) == 6
    ensures Offset(HEAD, 3) == 262
    ensures Offset(HEAD, 4) == 266
    ensures Offset(HEAD, 5) == 270
    ensures Offset(HEAD, 6) == 274
    ensures Offset(HEAD, 7) == 278
    ensures Offset(HEAD, 8) == 282
  {
    assert Offset(HEAD, 1) == 2;
    assert Offset(HEAD, 2) == 6;
    assert Offset(HEAD, 3) == 262;
    assert Offset(HEAD, 4) == 266;
    assert Offset(HEAD, 5) == 270;
    assert Offset(HEAD, 6) == 274;
    assert Offset(HEAD, 7) == 278;
    assert Offset(HEAD, 8) == 282;
  }

  lemma {:induction false} FLAGSOffsets()
    ensures |FLAGS| == 11 && Offset(FLAGS, 0) == 0
    ensures Offset(FLAGS, 1) == 8
    ensures Offset(FLAGS, 2) == 16
    ensures Offset(FLAGS, 3) == 20
    ensures Offset(FLAGS, 4) == 24
    ensures Offset(FLAGS, 5) == 28
    ensures Offset(FLAGS, 6) == 32
    ensures Offset(FLAGS, 7) == 36
    ensures Offset(FLAGS, 8) == 40
    ensures Offset(FLAGS, 9) == 44
    ensures Offset(FLAGS, 10) == 48
    ensures Offset(FLAGS, 11) == 52
  {
    assert Offset(FLAGS, 1) == 8;
    assert Offset(FLAGS, 2) == 16;
    assert Offset(FLAGS, 3) == 20;
    assert Offset(FLAGS, 4) == 24;
    assert Offset(FLAGS, 5) == 28;
    assert Offset(FLAGS, 6) == 32;
    assert Offset(FLAGS, 7) == 36;
    assert Offset(FLAGS, 8) == 40;
    assert Offset(FLAGS, 9) == 44;
    assert Offset(FLAGS, 10) == 48;
    assert Offset(FLAGS, 11) == 52;
  }

  // ----- the whole file -----

  lemma {:induction false} HeadLayout(x: Contents)
    ensures var b := RecordBytes(HeadRecord(x), HEAD);
            && |b| == 282 && HasNumber(b, 0, 2, 13) && HasNumber(b, 2, 4, |x.tables.stages|) && HasName(b, 6, 256, x.name)
            && HasNumber(b, 262, 4, |x.tables.buffers|) && HasNumber(b, 266, 4, |x.tables.resources|)
            && HasNumber(b, 270, 4, |x.tables.inputs|) && HasNumber(b, 274, 4, |x.tables.specs|)
            && HasNumber(b, 278, 4, |x.tables.samplers|)
  {
    var r := HeadRecord(x);
    HEADOffsets();
    SizeIsOffset(HEAD);
    NumberStands(r, HEAD, 0, 0, 2, 13);
    NumberStands(r, HEAD, 1, 2, 4, |x.tables.stages|);
    NameStands(r, HEAD, 2, 6, 256, x.name);
    NumberStands(r, HEAD, 3, 262, 4, |x.tables.buffers|);
    NumberStands(r, HEAD, 4, 266, 4, |x.tables.resources|);
    NumberStands(r, HEAD, 5, 270, 4, |x.tables.inputs|);
    NumberStands(r, HEAD, 6, 274, 4, |x.tables.specs|);
    NumberStands(r, HEAD, 7, 278, 4, |x.tables.samplers|);
  }

  lemma {:induction false} FlagsLayout(x: Contents)
    requires |x.opCounts| == 6
    ensures var b := RecordBytes(FlagsRecord(x), FLAGS);
            && |b| == 52 && HasNumber(b, 0, 8, x.features) && HasNumber(b, 8, 8, 0)
            && (forall k :: 0 <= k < 6 ==> HasNumber(b, 16 + 4 * k, 4, x.opCounts[k]))
            && HasNumber(b, 40, 4, x.waveSize) && HasNumber(b, 44, 4, x.apronX) && HasNumber(b, 48, 4, x.apronY)
  {
    var r := FlagsRecord(x);
    FLAGSOffsets();
    SizeIsOffset(FLAGS);
    NumberStands(r, FLAGS, 0, 0, 8, x.features);
    NumberStands(r, FLAGS, 1, 8, 8, 0);
    forall k | 0 <= k < 6
      ensures HasNumber(RecordBytes(r, FLAGS), 16 + 4 * k, 4, x.opCounts[k])
    {
      NumberStands(r, FLAGS, 2 + k, 16 + 4 * k, 4, x.opCounts[k]);
    }
    NumberStands(r, FLAGS, 8, 40, 4, x.waveSize);
    NumberStands(r, FLAGS, 9, 44, 4, x.apronX);
    NumberStands(r, FLAGS, 10, 48, 4, x.apronY);
  }

  /** The tables stand one behind the other. */
  ghost predicate TablesStand(c: Codec, raw: bool, t: Tables<Source>, b: Bytes) {
    b == ManyBytes(BufferBytes, t.buffers) + (ManyBytes(InputBytes, t.inputs) + (ManyBytes(ResourceBytes, t.resources) +
         (ManyBytes(SpecBytes, t.specs) + (ManyBytes(SamplerBytes, t.samplers) + ManyBytes(StageWriter(c, raw), t.stages)))))
  }

  /** A container: the tag, 334 bytes of header, and the tables. */
  lemma {:induction false} FileLayout(c: Codec, raw: bool, x: Contents)
    requires |x.opCounts| == 6
    ensures var b := FileBytes(c, raw, x);
            && |b| >= 342 && b[..8] == [0x53, 0x4B, 0x53, 0x48, 0x41, 0x44, 0x45, 0x52]   // SKSHADER
            && b[8..290] == RecordBytes(HeadRecord(x), HEAD) && b[290..342] == RecordBytes(FlagsRecord(x), FLAGS)
            && TablesStand(c, raw, x.tables, b[342..])
  {
    var head, flags, tables := RecordBytes(HeadRecord(x), HEAD), RecordBytes(FlagsRecord(x), FLAGS), TablesBytes(c, raw, x.tables);
    HeadLayout(x);
    FlagsLayout(x);
    FourParts(TAG, head, flags, tables);
  }

  lemma {:induction false} FourParts(a: Bytes, b: Bytes, c: Bytes, d: Bytes)
    ensures var all := a + (b + (c + d));
            var i, j, k := |a|, |a| + |b|, |a| + |b| + |c|;
            |all| == k + |d| && all[..i] == a && all[i..j] == b && all[j..k] == c && all[k..] == d
  {
    Behind(a, b + (c + d), 0, |b|);
    assert a + (b + (c + d)) == (a + b) + (c + d);
    Behind(a + b, c + d, 0, |c|);
  }
}
