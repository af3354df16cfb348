/** The interpreter over field descriptors that reads, writes and digests every fixed-size ceremony account. */
module SchemaCodec {
  import opened ByteStrings
  import opened ByteReader
  import opened MerkleTree

  datatype Kind = Raw(length: nat) | Key | OptionalKey | Boolean | U8 | U16 | U32 | U64 | HashArray(count: nat)

  /** The dynamically typed values a record holds; every value of another shape behaves like `Undefined`. */
  datatype Value =
    | Octets(bytes: Bytes) | PublicKey(key: Digest) | Optional(present: bool, key: Digest) | Flag(flag: bool)
    | Number(number: int) | BigInt(bigint: int) | List(hashes: seq<Bytes>) | Null | Undefined

  datatype Field<+Name> = Field(name: Name, kind: Kind)

  type Record<Name> = map<Name, Value>

  // ---------- one field ----------

  function Width(kind: Kind): nat {
    match kind
    case Raw(length) => length
    case Key => 32
    case OptionalKey => 33
    case Boolean => 1
    case U8 => 1
    case U16 => 2
    case U32 => 4
    case U64 => 8
    case HashArray(count) => 32 * count
  }

  function EncodeInteger(n: int, w: nat): Option<Bytes> {
    if 0 <= n < Pow256(w) then Some(LE(n, w)) else None
  }

  function EncodeField(kind: Kind, value: Value): Option<Bytes> {
    match (kind, value)
    case (Raw(length), Octets(bytes)) => if |bytes| == length then Some(bytes) else None
    case (Key, PublicKey(key)) => Some(key)
    case (OptionalKey, Optional(present, key)) =>
      if present == (key == Zeros(32)) then None else Some([if present then 1 else 0] + key)
    case (Boolean, Flag(flag)) => Some([if flag then 1 else 0])
    case (U8, Number(n)) => EncodeInteger(n, 1)
    case (U16, Number(n)) => EncodeInteger(n, 2)
    case (U32, Number(n)) => EncodeInteger(n, 4)
    case (U64, BigInt(n)) => EncodeInteger(n, 8)
    case (HashArray(count), List(hashes)) =>
      if |hashes| == count && (forall i :: 0 <= i < |hashes| ==> |hashes[i]| == 32) then Some(Join(hashes)) else None
    case _ => None
  }

  function Split32(bytes: Bytes, count: nat): (hashes: seq<Bytes>)
    requires |bytes| == 32 * count
    ensures |hashes| == count && forall i :: 0 <= i < count ==> |hashes[i]| == 32
  {
    if count == 0 then [] else [bytes[..32]] + Split32(bytes[32..], count - 1)
  }

  function DecodeField(kind: Kind, bytes: Bytes): Option<Value>
    requires |bytes| == Width(kind)
  {
    match kind
    case Raw(_) => Some(Octets(bytes))
    case Key => Some(PublicKey(bytes))
    case OptionalKey =>
      var key: Digest := bytes[1..];
      if bytes[0] > 1 || (bytes[0] == 1) == (key == Zeros(32)) then None else Some(Optional(bytes[0] == 1, key))
    case Boolean => if bytes[0] > 1 then None else Some(Flag(bytes[0] == 1))
    case U64 => Some(BigInt(FromLE(bytes)))
    case HashArray(count) => Some(List(Split32(bytes, count)))
    case _ => Some(Number(FromLE(bytes)))
  }

  lemma {:induction false} SplitOfJoin(hashes: seq<Bytes>)
    requires forall i :: 0 <= i < |hashes| ==> |hashes[i]| == 32
    ensures |Join(hashes)| == 32 * |hashes| && Split32(Join(hashes), |hashes|) == hashes
  {
    if hashes != [] {
      SplitOfJoin(hashes[1..]);
      assert Join(hashes)[..32] == hashes[0] && Join(hashes)[32..] == Join(hashes[1..]);
    }
  }

  lemma {:induction false} JoinOfSplit(bytes: Bytes, count: nat)
    requires |bytes| == 32 * count
    ensures Join(Split32(bytes, count)) == bytes
  {
    if count > 0 {
      JoinOfSplit(bytes[32..], count - 1);
      assert Split32(bytes, count)[1..] == Split32(bytes[32..], count - 1);
      assert bytes == bytes[..32] + bytes[32..];
    }
  }

  lemma IntegerIff(n: int, w: nat, bytes: Bytes)
    ensures EncodeInteger(n, w) == Some(bytes) <==> |bytes| == w && FromLE(bytes) == n
  {
    if 0 <= n < Pow256(w) {
      FromLEOfLE(n, w);
    }
    LEOfFromLE(bytes);
  }

  /** Writing a field and reading it back are inverse, with one encoding for each value. */
  lemma FieldIff(kind: Kind, value: Value, bytes: Bytes)
    ensures EncodeField(kind, value) == Some(bytes)
      <==> |bytes| == Width(kind) && DecodeField(kind, bytes) == Some(value)
  {
    hide EncodeInteger, FromLE, LE, Join, Split32, Zeros;
    match kind
    case U8 => if value.Number? { IntegerIff(value.number, 1, bytes); }
    case U16 => if value.Number? { IntegerIff(value.number, 2, bytes); }
    case U32 => if value.Number? { IntegerIff(value.number, 4, bytes); }
    case U64 => if value.BigInt? { IntegerIff(value.bigint, 8, bytes); }
    case HashArray(count) =>
      if |bytes| == 32 * count { JoinOfSplit(bytes, count); }
      if value.List? && forall i :: 0 <= i < |value.hashes| ==> |value.hashes[i]| == 32 { SplitOfJoin(value.hashes); }
    case OptionalKey =>
      if |bytes| == 33 { assert bytes == [bytes[0]] + bytes[1..]; }
      if value.Optional? { assert ([if value.present then 1 else 0] + value.key)[1..] == value.key; }
    case Boolean => if |bytes| == 1 { assert bytes == [bytes[0]]; }
    case _ =>
  }

  // ---------- a whole schema ----------

  function Get<Name(==)>(record: Record<Name>, name: Name): Value {
    if name in record then record[name] else Undefined
  }

  function EncodeFields<Name(==)>(record: Record<Name>, schema: seq<Field<Name>>): Option<Bytes> {
    if schema == [] then Some([])
    else match (EncodeField(schema[0].kind, Get(record, schema[0].name)), EncodeFields(record, schema[1..]))
      case (Some(first), Some(rest)) => Some(first + rest)
      case _ => None
  }

  function EncodeSchema<Name(==)>(record: Record<Name>, schema: seq<Field<Name>>, expectedLength: nat): Option<Bytes> {
    var output := EncodeFields(record, schema);
    if output.Some? && |output.value| == expectedLength then output else None
  }

  /** Reads the fields in order into `record`, and takes every byte. */
  function DecodeFields<Name(==)>(bytes: Bytes, schema: seq<Field<Name>>, record: Record<Name>): Option<Record<Name>>
    decreases |schema|
  {
    if schema == [] then
      if bytes == [] then Some(record) else None
    else
      var w := Width(schema[0].kind);
      if |bytes| < w then None
      else match DecodeField(schema[0].kind, bytes[..w])
        case Some(value) => DecodeFields(bytes[w..], schema[1..], record[schema[0].name := value])
        case None => None
  }

  function DecodeSchema<Name(==)>(bytes: Bytes, schema: seq<Field<Name>>, expectedLength: nat): Option<Record<Name>> {
    if |bytes| == expectedLength then DecodeFields(bytes, schema, map[]) else None
  }

  ghost predicate InSchema<Name(!new)>(schema: seq<Field<Name>>, name: Name) {
    exists i :: 0 <= i < |schema| && schema[i].name == name
  }

  ghost predicate DistinctNames<Name>(schema: seq<Field<Name>>) {
    forall i, j :: 0 <= i < j < |schema| ==> schema[i].name != schema[j].name
  }

  /** The record holds the named fields of `schema` as in `source`, and everything else as in `base`. */
  ghost predicate Overlays<Name(!new)>(
      record: Record<Name>, base: Record<Name>, source: Record<Name>, schema: seq<Field<Name>>)
  {
    && (forall i :: 0 <= i < |schema| ==>
      schema[i].name in record && record[schema[i].name] == Get(source, schema[i].name))
    && forall n :: !InSchema(schema, n) ==> Get(record, n) == Get(base, n) && (n in record <==> n in base)
  }

  lemma {:induction false} DecodeOfEncode<Name(!new)>(
      source: Record<Name>, schema: seq<Field<Name>>, bytes: Bytes, base: Record<Name>)
    requires EncodeFields(source, schema) == Some(bytes)
    ensures DecodeFields(bytes, schema, base).Some?
      && Overlays(DecodeFields(bytes, schema, base).value, base, source, schema)
    decreases |schema|
  {
    if schema != [] {
      hide EncodeField, DecodeField, Width;
      var name, kind, w := schema[0].name, schema[0].kind, Width(schema[0].kind);
      var first, rest := EncodeField(kind, Get(source, name)).value, EncodeFields(source, schema[1..]).value;
      FieldIff(kind, Get(source, name), first);
      assert bytes[..w] == first && bytes[w..] == rest;
      var next := base[name := Get(source, name)];
      DecodeOfEncode(source, schema[1..], rest, next);
      var record := DecodeFields(rest, schema[1..], next).value;
      OverlaysStep(record, base, source, schema);
    }
  }

  lemma InSchemaStep<Name(!new)>(schema: seq<Field<Name>>)
    requires schema != []
    ensures forall n :: InSchema(schema, n) <==> n == schema[0].name || InSchema(schema[1..], n)
  {
    var tail := schema[1..];
    forall n ensures InSchema(schema, n) <==> n == schema[0].name || InSchema(tail, n) {
      if InSchema(schema, n) && n != schema[0].name {
        var i :| 0 <= i < |schema| && schema[i].name == n;
        assert tail[i - 1].name == n;
      }
      if InSchema(tail, n) {
        var i :| 0 <= i < |tail| && tail[i].name == n;
        assert schema[i + 1].name == n;
      }
    }
  }

  lemma FirstIsNew<Name(!new)>(schema: seq<Field<Name>>)
    requires schema != [] && DistinctNames(schema)
    ensures !InSchema(schema[1..], schema[0].name) && DistinctNames(schema[1..])
  {
    var tail := schema[1..];
    assert forall i :: 0 <= i < |tail| ==> tail[i] == schema[i + 1];
  }

  lemma OverlaysStep<Name(!new)>(
      record: Record<Name>, base: Record<Name>, source: Record<Name>, schema: seq<Field<Name>>)
    requires schema != []
    requires Overlays(record, base[schema[0].name := Get(source, schema[0].name)], source, schema[1..])
    ensures Overlays(record, base, source, schema)
  {
    var name, tail := schema[0].name, schema[1..];
    InSchemaStep(schema);
    forall i | 0 <= i < |schema|
      ensures schema[i].name in record && record[schema[i].name] == Get(source, schema[i].name)
    {
      if i > 0 {
        assert tail[i - 1] == schema[i];
      } else if InSchema(tail, name) {
        var j :| 0 <= j < |tail| && tail[j].name == name;
      }
    }
  }

  /** What is read re-encodes to the bytes it was read from, whatever else the record holds. */
  lemma {:induction false} EncodeOfDecode<Name(!new)>(bytes: Bytes, schema: seq<Field<Name>>, base: Record<Name>)
    requires DistinctNames(schema) && DecodeFields(bytes, schema, base).Some?
    ensures var record := DecodeFields(bytes, schema, base).value;
      EncodeFields(record, schema) == Some(bytes) && forall n :: !InSchema(schema, n) ==> Get(record, n) == Get(base, n)
    decreases |schema|
  {
    if schema != [] {
      hide EncodeField, DecodeField, Width;
      var name, kind, tail, w := schema[0].name, schema[0].kind, schema[1..], Width(schema[0].kind);
      var value := DecodeField(kind, bytes[..w]).value;
      FirstIsNew(schema);
      EncodeOfDecode(bytes[w..], tail, base[name := value]);
      FieldIff(kind, value, bytes[..w]);
      InSchemaStep(schema);
      assert bytes == bytes[..w] + bytes[w..];
    }
  }

  /** The record has exactly the schema's fields. */
  ghost predicate HasShape<Name(!new)>(record: Record<Name>, schema: seq<Field<Name>>) {
    forall n :: n in record <==> InSchema(schema, n)
  }

  lemma {:induction false} EncodeWidth<Name>(source: Record<Name>, schema: seq<Field<Name>>)
    ensures EncodeFields(source, schema).Some? ==> |EncodeFields(source, schema).value| == TotalWidth(schema)
  {
    if schema != [] {
      hide EncodeField, Width;
      EncodeWidth(source, schema[1..]);
      var encoded := EncodeField(schema[0].kind, Get(source, schema[0].name));
      if encoded.Some? {
        FieldIff(schema[0].kind, Get(source, schema[0].name), encoded.value);
      }
    }
  }

  function TotalWidth<Name>(schema: seq<Field<Name>>): nat {
    if schema == [] then 0 else Width(schema[0].kind) + TotalWidth(schema[1..])
  }

  /** On records of the schema's shape, a byte string is the encoding exactly when it decodes to the record:
      nothing is lost, and no record has a second accepted encoding. */
  lemma SchemaRoundTrip<Name(!new)>(record: Record<Name>, schema: seq<Field<Name>>, expectedLength: nat, bytes: Bytes)
    requires DistinctNames(schema) && HasShape(record, schema)
    ensures EncodeSchema(record, schema, expectedLength) == Some(bytes)
      <==> DecodeSchema(bytes, schema, expectedLength) == Some(record)
  {
    hide EncodeFields, DecodeFields;
    if EncodeSchema(record, schema, expectedLength) == Some(bytes) {
      DecodeOfEncode(record, schema, bytes, map[]);
      var decoded := DecodeFields(bytes, schema, map[]).value;
      forall n ensures n in decoded <==> n in record {
        if InSchema(schema, n) {
          var i :| 0 <= i < |schema| && schema[i].name == n;
        }
      }
      forall n | n in record ensures decoded[n] == record[n] {
        var i :| 0 <= i < |schema| && schema[i].name == n;
      }
      assert decoded == record;
    }
    if DecodeSchema(bytes, schema, expectedLength) == Some(record) {
      EncodeOfDecode(bytes, schema, map[]);
    }
  }

  /** Whatever `DecodeSchema` accepts has the schema's shape, so it re-encodes to the accepted bytes. */
  lemma AcceptedReencodes<Name(!new)>(schema: seq<Field<Name>>, expectedLength: nat, bytes: Bytes)
    requires DistinctNames(schema) && DecodeSchema(bytes, schema, expectedLength).Some?
    ensures var record := DecodeSchema(bytes, schema, expectedLength).value;
      HasShape(record, schema) && EncodeSchema(record, schema, expectedLength) == Some(bytes)
  {
    hide EncodeFields, DecodeFields;
    EncodeOfDecode(bytes, schema, map[]);
    var record := DecodeFields(bytes, schema, map[]).value;
    DecodeOfEncode(record, schema, bytes, map[]);
    assert Overlays(record, map[], record, schema);
    forall n ensures n in record <==> InSchema(schema, n) {
      if InSchema(schema, n) {
        var i :| 0 <= i < |schema| && schema[i].name == n;
      }
    }
  }

  // ---------- an account codec: a schema, a length and a validator ----------

  function Serialize<Name(==)>(
    record: Record<Name>, schema: seq<Field<Name>>, length: nat, validate: Record<Name> -> bool): Option<Bytes>
  {
    if validate(record) then EncodeSchema(record, schema, length) else None
  }

  function Deserialize<Name(==)>(
    bytes: Bytes, schema: seq<Field<Name>>, length: nat, validate: Record<Name> -> bool): Option<Record<Name>>
  {
    match DecodeSchema(bytes, schema, length)
    case Some(record) => if validate(record) then Some(record) else None
    case None => None
  }

  /** An account serializes to exactly the bytes that deserialize to it, and to no others. */
  lemma CodecRoundTrip<Name(!new)>(
    record: Record<Name>, schema: seq<Field<Name>>, length: nat, validate: Record<Name> -> bool, bytes: Bytes)
    requires DistinctNames(schema)
    ensures Serialize(record, schema, length, validate) == Some(bytes) && HasShape(record, schema)
      <==> Deserialize(bytes, schema, length, validate) == Some(record)
  {
    hide EncodeSchema, DecodeSchema, HasShape;
    if Deserialize(bytes, schema, length, validate) == Some(record) {
      AcceptedReencodes(schema, length, bytes);
    } else if HasShape(record, schema) {
      SchemaRoundTrip(record, schema, length, bytes);
    }
  }

  // ---------- reading fields ----------

  method TakeOptionalKey(reader: Reader) returns (value: Option<Value>)
    requires reader.Valid()
    modifies reader
    ensures reader.Valid()
    ensures value == if |old(reader.Rest())| < 33 then None else DecodeField(OptionalKey, old(reader.Rest())[..33])
    ensures value.Some? ==> reader.Rest() == old(reader.Rest())[33..]
  {
    ghost var start := reader.Rest();
    var present := reader.Take(1);
    if present.None? {
      return None;
    }
    assert |start| >= 33 ==> start[..33][0] == present.value[0];
    if present.value[0] > 1 {
      return None;
    }
    var key := reader.Take(32);
    if key.None? {
      return None;
    }
    assert start[..33][1..] == key.value;
    value := if (present.value[0] == 1) == (key.value == Zeros(32)) then None
      else Some(Optional(present.value[0] == 1, key.value));
  }

  method TakeHashes(reader: Reader, count: nat) returns (value: Option<Value>)
    requires reader.Valid()
    modifies reader
    ensures reader.Valid()
    ensures value == if |old(reader.Rest())| < 32 * count then None
      else Some(List(Split32(old(reader.Rest())[..32 * count], count)))
    ensures value.Some? ==> reader.Rest() == old(reader.Rest())[32 * count..]
  {
    hide Split32;
    var hashes: seq<Bytes> := [];
    ghost var start := reader.Rest();
    SplitNone();
    assert start[..0] == [];
    while |hashes| < count
      invariant reader.Valid() && |hashes| <= count && 32 * |hashes| <= |start|
      invariant reader.Rest() == start[32 * |hashes|..]
      invariant hashes == Split32(start[..32 * |hashes|], |hashes|)
    {
      var hash := reader.Take(32);
      if hash.None? {
        return None;
      }
      SplitNext(start[..32 * |hashes|], hash.value, |hashes|);
      assert start[..32 * (|hashes| + 1)] == start[..32 * |hashes|] + hash.value;
      hashes := hashes + [hash.value];
    }
    value := Some(List(hashes));
  }

  /** One field is the decoding of its width of bytes. */
  method ReadField(reader: Reader, kind: Kind) returns (value: Option<Value>)
    requires reader.Valid()
    modifies reader
    ensures reader.Valid()
    ensures value == if |old(reader.Rest())| < Width(kind) then None
      else DecodeField(kind, old(reader.Rest())[..Width(kind)])
    ensures value.Some? ==> reader.Rest() == old(reader.Rest())[Width(kind)..]
  {
    match kind
    case OptionalKey =>
      value := TakeOptionalKey(reader);
    case HashArray(count) =>
      value := TakeHashes(reader, count);
    case _ =>
      var taken := reader.Take(Width(kind));
      value := if taken.None? then None else DecodeField(kind, taken.value);
  }

  lemma SplitNone()
    ensures Split32([], 0) == []
  {
  }

  lemma {:induction false} SplitNext(bytes: Bytes, hash: Bytes, count: nat)
    requires |bytes| == 32 * count && |hash| == 32
    ensures Split32(bytes + hash, count + 1) == Split32(bytes, count) + [hash]
  {
    if count == 0 {
      assert (bytes + hash)[..32] == hash;
    } else {
      SplitNext(bytes[32..], hash, count - 1);
      assert (bytes + hash)[..32] == bytes[..32] && (bytes + hash)[32..] == bytes[32..] + hash;
    }
  }

  method ReadSchema<Name(==)>(
      bytes: Bytes, schema: seq<Field<Name>>, expectedLength: nat) returns (decoded: Option<Record<Name>>)
    ensures decoded == DecodeSchema(bytes, schema, expectedLength)
  {
    hide Width, DecodeField;
    if |bytes| != expectedLength {
      return None;
    }
    var reader := new Reader(bytes);
    var record: Record<Name> := map[];
    var i := 0;
    assert schema[0..] == schema;
    while i < |schema|
      invariant 0 <= i <= |schema| && reader.Valid() && fresh(reader)
      invariant DecodeSchema(bytes, schema, expectedLength) == DecodeFields(reader.Rest(), schema[i..], record)
    {
      assert schema[i..][1..] == schema[i + 1..] && schema[i..][0] == schema[i];
      var value := ReadField(reader, schema[i].kind);
      if value.None? {
        return None;
      }
      record := record[schema[i].name := value.value];
      i := i + 1;
    }
    if reader.offset != |reader.bytes| {
      return None;
    }
    decoded := Some(record);
  }

  // ---------- fixed-image digests ----------

  function ZeroValue(kind: Kind): Value {
    match kind
    case Raw(length) => Octets(Zeros(length))
    case Key => PublicKey(Zeros(32))
    case OptionalKey => Null
    case Boolean => Flag(false)
    case U64 => BigInt(0)
    case HashArray(count) => List(seq(count, _ => Zeros(32)))
    case _ => Number(0)
  }

  /** The record with each excluded field of the schema zeroed. */
  function Cleared<Name(==)>(record: Record<Name>, schema: seq<Field<Name>>, excluded: set<Name>): Record<Name> {
    if schema == [] then record
    else
      var last := schema[|schema| - 1];
      var earlier := Cleared(record, schema[..|schema| - 1], excluded);
      if last.name in excluded then earlier[last.name := ZeroValue(last.kind)] else earlier
  }

  function DigestInput<Name(==)>(
      domain: Bytes, record: Record<Name>, schema: seq<Field<Name>>, excluded: set<Name>): Option<Bytes>
  {
    match EncodeFields(Cleared(record, schema, excluded), schema)
    case Some(image) => Some(domain + image)
    case None => None
  }

  function FixedImageDigest<Name(==)>(
      h: HashFn, domain: Bytes, record: Record<Name>, schema: seq<Field<Name>>, excluded: set<Name>): Option<Digest>
  {
    match DigestInput(domain, record, schema, excluded)
    case Some(input) => Some(h(input))
    case None => None
  }

  lemma {:induction false} ClearedKeeps<Name>(
      record: Record<Name>, schema: seq<Field<Name>>, excluded: set<Name>, n: Name)
    requires n !in excluded
    ensures Get(Cleared(record, schema, excluded), n) == Get(record, n)
  {
    if schema != [] {
      ClearedKeeps(record, schema[..|schema| - 1], excluded, n);
    }
  }

  /** The zero put in an excluded field is the zero of a field of that name. */
  lemma {:induction false} ClearedZero<Name(!new)>(
      record: Record<Name>, schema: seq<Field<Name>>, excluded: set<Name>, i: nat)
    requires i < |schema| && schema[i].name in excluded && DistinctNames(schema)
    ensures Get(Cleared(record, schema, excluded), schema[i].name) == ZeroValue(schema[i].kind)
  {
    hide ZeroValue;
    if i < |schema| - 1 {
      ClearedZero(record, schema[..|schema| - 1], excluded, i);
    }
  }

  lemma {:induction false} EncodeReadsOnly<Name(!new)>(a: Record<Name>, b: Record<Name>, schema: seq<Field<Name>>)
    requires forall i :: 0 <= i < |schema| ==> Get(a, schema[i].name) == Get(b, schema[i].name)
    ensures EncodeFields(a, schema) == EncodeFields(b, schema)
  {
    if schema != [] {
      hide EncodeField;
      var tail := schema[1..];
      assert forall i :: 0 <= i < |tail| ==> tail[i] == schema[i + 1];
      EncodeReadsOnly(a, b, tail);
    }
  }

  lemma {:induction false} EncodeDefined<Name>(record: Record<Name>, schema: seq<Field<Name>>)
    ensures EncodeFields(record, schema).Some?
      <==> forall i :: 0 <= i < |schema| ==> EncodeField(schema[i].kind, Get(record, schema[i].name)).Some?
  {
    if schema != [] {
      hide EncodeField;
      var tail := schema[1..];
      assert forall i :: 0 <= i < |tail| ==> tail[i] == schema[i + 1];
      EncodeDefined(record, tail);
    }
  }

  lemma ZeroEncodes(kind: Kind)
    ensures EncodeField(kind, ZeroValue(kind)).Some? <==> !kind.OptionalKey?
  {
    Limits();
  }

  /** The records agree on every schema field outside the excluded ones. */
  ghost predicate SameOutside<Name>(a: Record<Name>, b: Record<Name>, schema: seq<Field<Name>>, excluded: set<Name>) {
    forall i :: 0 <= i < |schema| && schema[i].name !in excluded ==> Get(a, schema[i].name) == Get(b, schema[i].name)
  }

  /** An edit confined to excluded fields leaves the digest, and whether there is one, alone. */
  lemma DigestIgnoresExcluded<Name(!new)>(
    h: HashFn, domain: Bytes, a: Record<Name>, b: Record<Name>, schema: seq<Field<Name>>, excluded: set<Name>)
    requires DistinctNames(schema) && SameOutside(a, b, schema, excluded)
    ensures FixedImageDigest(h, domain, a, schema, excluded) == FixedImageDigest(h, domain, b, schema, excluded)
  {
    hide Cleared, ZeroValue, EncodeFields;
    var x, y := Cleared(a, schema, excluded), Cleared(b, schema, excluded);
    forall i | 0 <= i < |schema| ensures Get(x, schema[i].name) == Get(y, schema[i].name) {
      if schema[i].name in excluded {
        ClearedZero(a, schema, excluded, i);
        ClearedZero(b, schema, excluded, i);
      } else {
        ClearedKeeps(a, schema, excluded, schema[i].name);
        ClearedKeeps(b, schema, excluded, schema[i].name);
      }
    }
    EncodeReadsOnly(x, y, schema);
  }

  /** Equal digests under one domain fix every field that is not excluded. */
  lemma DigestBindsTheRest<Name(!new)>(
    h: HashFn, domain: Bytes, a: Record<Name>, b: Record<Name>, schema: seq<Field<Name>>, excluded: set<Name>)
    requires var x, y := DigestInput(domain, a, schema, excluded), DigestInput(domain, b, schema, excluded);
      x.Some? && y.Some? && h(x.value) == h(y.value) && CollisionFree(h, {x.value, y.value})
    ensures SameOutside(a, b, schema, excluded)
  {
    hide Cleared, EncodeFields, DecodeFields;
    var x, y := Cleared(a, schema, excluded), Cleared(b, schema, excluded);
    var image := EncodeFields(x, schema).value;
    SplitAt(domain, image, domain, EncodeFields(y, schema).value) by {
      EncodeWidth(x, schema);
      EncodeWidth(y, schema);
    }
    DecodeOfEncode(x, schema, image, map[]);
    DecodeOfEncode(y, schema, image, map[]);
    forall i | 0 <= i < |schema| && schema[i].name !in excluded
      ensures Get(a, schema[i].name) == Get(b, schema[i].name)
    {
      ClearedKeeps(a, schema, excluded, schema[i].name);
      ClearedKeeps(b, schema, excluded, schema[i].name);
    }
  }

  /** A record has a digest exactly when its kept fields encode and no excluded field is an optional key:
      the zero of an optional key is rejected by the encoder, so excluding one leaves no record digestible. */
  lemma DigestDefinedIff<Name(!new)>(
      h: HashFn, domain: Bytes, record: Record<Name>, schema: seq<Field<Name>>, excluded: set<Name>)
    requires DistinctNames(schema)
    ensures FixedImageDigest(h, domain, record, schema, excluded).Some?
      <==> forall i :: 0 <= i < |schema| ==>
             if schema[i].name in excluded then !schema[i].kind.OptionalKey?
             else EncodeField(schema[i].kind, Get(record, schema[i].name)).Some?
  {
    hide Cleared, ZeroValue, EncodeFields, EncodeField;
    var cleared := Cleared(record, schema, excluded);
    EncodeDefined(cleared, schema);
    forall i | 0 <= i < |schema|
      ensures EncodeField(schema[i].kind, Get(cleared, schema[i].name)).Some?
        <==> if schema[i].name in excluded then !schema[i].kind.OptionalKey?
             else EncodeField(schema[i].kind, Get(record, schema[i].name)).Some?
    {
      if schema[i].name in excluded {
        ClearedZero(record, schema, excluded, i);
        ZeroEncodes(schema[i].kind);
      } else {
        ClearedKeeps(record, schema, excluded, schema[i].name);
      }
    }
  }

  /** The loop over the schema that clears the excluded fields before hashing. */
  method DigestFields<Name(==)>(
      h: HashFn, domain: Bytes, record: Record<Name>, schema: seq<Field<Name>>, excluded: set<Name>)
    returns (digest: Option<Digest>)
    ensures digest == FixedImageDigest(h, domain, record, schema, excluded)
  {
    hide EncodeFields, ZeroValue;
    var canonical := record;
    for i := 0 to |schema|
      invariant canonical == Cleared(record, schema[..i], excluded)
    {
      assert schema[..i + 1][..i] == schema[..i];
      if schema[i].name in excluded {
        canonical := canonical[schema[i].name := ZeroValue(schema[i].kind)];
      }
    }
    assert schema[..|schema|] == schema;
    var image := EncodeFields(canonical, schema);
    digest := if image.Some? then Some(h(domain + image.value)) else None;
  }

  // ---------- the bytes of a field and of a record ----------

  /** The bytes each kind of field is written as. */
  lemma FieldBytes(kind: Kind, value: Value, bytes: Bytes)
    requires EncodeField(kind, value) == Some(bytes)
    ensures match kind
      case Raw(length) => value == Octets(bytes) && |bytes| == length
      case Key => value == PublicKey(bytes)
      case OptionalKey => |bytes| == 33 && value == Optional(bytes[0] == 1, bytes[1..]) && bytes[0] <= 1
      case Boolean => value == Flag(bytes == [1]) && (bytes == [0] || bytes == [1])
      case U8 => value.Number? && 0 <= value.number < 256 && bytes == [value.number]
      case U16 => value.Number? && 0 <= value.number < 0x1_0000 && bytes == LE(value.number, 2)
      case U32 => value.Number? && 0 <= value.number < 0x1_0000_0000 && bytes == LE(value.number, 4)
      case U64 => value.BigInt? && 0 <= value.bigint < 0x1_0000_0000_0000_0000 && bytes == LE(value.bigint, 8)
      case HashArray(count) =>
        && value.List? && |value.hashes| == count && |bytes| == 32 * count
        && forall i :: 0 <= i < count ==> bytes[32 * i..32 * (i + 1)] == value.hashes[i]
  {
    hide LE;
    Limits();
    match kind
    case U8 => OneByteLE(value.number);
    case OptionalKey => assert bytes[1..] == value.key;
    case HashArray(count) => HashAt(value.hashes);
    case _ =>
  }

  lemma OneByteLE(n: nat)
    requires n < 256
    ensures LE(n, 1) == [n]
  {
    assert LE(n / 256, 0) == [];
  }

  lemma {:induction false} HashAt(hashes: seq<Bytes>)
    requires forall i :: 0 <= i < |hashes| ==> |hashes[i]| == 32
    ensures |Join(hashes)| == 32 * |hashes|
    ensures forall i :: 0 <= i < |hashes| ==> Join(hashes)[32 * i..32 * (i + 1)] == hashes[i]
  {
    if hashes != [] {
      HashAt(hashes[1..]);
      var rest, all := Join(hashes[1..]), Join(hashes);
      forall i | 0 <= i < |hashes| ensures all[32 * i..32 * (i + 1)] == hashes[i] {
        if i > 0 {
          assert rest[32 * (i - 1)..32 * i] == hashes[1..][i - 1];
          assert all[32 * i..32 * (i + 1)] == rest[32 * (i - 1)..32 * i];
        }
      }
    }
  }

  /** Where field i of a schema begins. */
  function Offset<Name>(schema: seq<Field<Name>>, i: nat): nat
    requires i <= |schema|
  {
    if i == 0 then 0 else Offset(schema, i - 1) + Width(schema[i - 1].kind)
  }

  lemma {:induction false} OffsetStep<Name>(schema: seq<Field<Name>>, i: nat)
    requires 0 < i <= |schema|
    ensures Offset(schema, i) == Width(schema[0].kind) + Offset(schema[1..], i - 1)
  {
    if i > 1 { OffsetStep(schema, i - 1); }
  }

  /** Field i of an encoding stands at its offset, and nowhere else. */
  lemma {:induction false} FieldAt<Name>(record: Record<Name>, schema: seq<Field<Name>>, i: nat)
    requires EncodeFields(record, schema).Some? && i < |schema|
    ensures Offset(schema, i + 1) <= |EncodeFields(record, schema).value|
    ensures EncodeField(schema[i].kind, Get(record, schema[i].name))
         == Some(EncodeFields(record, schema).value[Offset(schema, i)..Offset(schema, i + 1)])
  {
    hide EncodeField, Width;
    var image, tail := EncodeFields(record, schema).value, schema[1..];
    var first, rest := EncodeField(schema[0].kind, Get(record, schema[0].name)).value, EncodeFields(record, tail).value;
    FieldIff(schema[0].kind, Get(record, schema[0].name), first);
    var w := Width(schema[0].kind);
    assert image == first + rest && |first| == w;
    if i == 0 {
      assert Offset(schema, 1) == w && image[0..w] == first;
    } else {
      FieldAt(record, tail, i - 1);
      OffsetStep(schema, i);
      OffsetStep(schema, i + 1);
      assert image[w..] == rest;
      assert tail[i - 1] == schema[i];
      Shifted(image, w, Offset(tail, i - 1), Offset(tail, i));
    }
  }

  lemma Shifted(image: Bytes, w: nat, lo: nat, hi: nat)
    requires lo <= hi && w + hi <= |image|
    ensures image[w..][lo..hi] == image[w + lo..w + hi]
  {
  }

  lemma ZeroLE(w: nat)
    ensures LE(0, w) == Zeros(w) && 0 < Pow256(w)
  {
    if w > 0 {
      ZeroLE(w - 1);
      assert LE(0, w) == [0] + LE(0, w - 1);
    }
  }

  lemma {:induction false} ZeroHashes(count: nat)
    ensures Join(seq(count, _ => Zeros(32))) == Zeros(32 * count)
  {
    var hashes := seq(count, _ => Zeros(32));
    if count > 0 {
      ZeroHashes(count - 1);
      assert hashes[1..] == seq(count - 1, _ => Zeros(32));
    }
  }

  /** The zero of a kind is written as zero bytes. */
  lemma ZeroBytes(kind: Kind)
    requires !kind.OptionalKey?
    ensures EncodeField(kind, ZeroValue(kind)) == Some(Zeros(Width(kind)))
  {
    hide LE, Zeros, Join, Pow256;
    ZeroLE(1);
    ZeroLE(2);
    ZeroLE(4);
    ZeroLE(8);
    if kind.HashArray? { ZeroHashes(kind.count); }
    OneZero();
  }

  lemma OneZero()
    ensures Zeros(1) == [0]
  {
  }

  /** What is hashed: the domain, then the image of the record with zero bytes in place of each excluded
      field and every other field as it is. */
  lemma DigestImage<Name(!new)>(
      domain: Bytes, record: Record<Name>, schema: seq<Field<Name>>, excluded: set<Name>, x: Bytes, i: nat)
    requires DistinctNames(schema) && DigestInput(domain, record, schema, excluded) == Some(x) && i < |schema|
    ensures x[..|domain|] == domain && Offset(schema, i) <= Offset(schema, i + 1) <= |x| - |domain|
    ensures var bytes := x[|domain| + Offset(schema, i)..|domain| + Offset(schema, i + 1)];
      if schema[i].name in excluded then bytes == Zeros(Width(schema[i].kind))
      else EncodeField(schema[i].kind, Get(record, schema[i].name)) == Some(bytes)
  {
    hide EncodeField, Width, Cleared, EncodeFields, ZeroValue, Zeros;
    var cleared := Cleared(record, schema, excluded);
    var image := EncodeFields(cleared, schema).value;
    FieldAt(cleared, schema, i);
    assert x == domain + image && x[|domain|..] == image;
    Shifted(x, |domain|, Offset(schema, i), Offset(schema, i + 1));
    if schema[i].name in excluded {
      ClearedZero(record, schema, excluded, i);
      ZeroEncodes(schema[i].kind);
      ZeroBytes(schema[i].kind);
    } else {
      ClearedKeeps(record, schema, excluded, schema[i].name);
    }
  }
}
