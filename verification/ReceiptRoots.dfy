/** Ordered roots over canonical JSON records: one leaf hash per indexed record, then one hash over
    the count and the leaf hashes. */
module ReceiptRoots {
  import opened ByteStrings
  import opened JsonText
  import opened CanonicalJson
  import opened JsonReader

  // ---------- ordered leaf roots ----------

  function Concat(leaves: seq<Digest>): Bytes {
    if leaves == [] then [] else leaves[0] + Concat(leaves[1..])
  }

  function RootInput(domain: Bytes, leaves: seq<Digest>): Bytes {
    domain + (LE(|leaves|, 4) + Concat(leaves))
  }

  function OrderedLeafRoot(h: HashFn, domain: Bytes, leaves: seq<Digest>): Option<Digest> {
    if |leaves| < U32_LIMIT then Some(h(RootInput(domain, leaves))) else None
  }

  /** Feeds the domain, the little-endian count and the leaves in order to one hash. */
  method OrderedLeafRootV3(h: HashFn, domain: Bytes, leaves: seq<Digest>) returns (r: Option<Digest>)
    ensures r == OrderedLeafRoot(h, domain, leaves)
  {
    if |leaves| >= U32_LIMIT { return None; }
    var message := domain + LE(|leaves|, 4);
    for i := 0 to |leaves|
      invariant message + Concat(leaves[i..]) == RootInput(domain, leaves)
    {
      assert leaves[i..][1..] == leaves[i + 1..];
      message := message + leaves[i];
    }
    assert leaves[|leaves|..] == [];
    assert message + [] == message;
    r := Some(h(message));
  }

  lemma {:induction false} ConcatUnique(a: seq<Digest>, b: seq<Digest>)
    requires |a| == |b| && Concat(a) == Concat(b)
    ensures a == b
  {
    if a != [] {
      SplitAt(a[0], Concat(a[1..]), b[0], Concat(b[1..]));
      ConcatUnique(a[1..], b[1..]);
      assert a == [a[0]] + a[1..] && b == [b[0]] + b[1..];
    }
  }

  lemma RootInputUnique(domain: Bytes, a: seq<Digest>, b: seq<Digest>)
    requires |a| < U32_LIMIT && |b| < U32_LIMIT && RootInput(domain, a) == RootInput(domain, b)
    ensures a == b
  {
    SplitAt(domain, LE(|a|, 4) + Concat(a), domain, LE(|b|, 4) + Concat(b));
    SplitAt(LE(|a|, 4), Concat(a), LE(|b|, 4), Concat(b));
    Limits();
    LEInjective(|a|, |b|, 4);
    ConcatUnique(a, b);
  }

  // ---------- roots over indexed records ----------

  /** A record as its leaf hashes it: with its position under the key `index`. */
  function Indexed(i: nat, record: seq<Field>): Json {
    JObject([Field(Str("index"), JNumber(i))] + record)
  }

  function RecordInput(le: Comparator, domain: Bytes, i: nat, record: seq<Field>): Bytes {
    domain + Utf8(Print(le, Indexed(i, record)))
  }

  function RecordLeaves(h: HashFn, le: Comparator, domain: Bytes, records: seq<seq<Field>>): (leaves: seq<Digest>)
    ensures |leaves| == |records|
  {
    seq<Digest>(|records|, i requires 0 <= i < |records| => h(RecordInput(le, domain, i, records[i])))
  }

  predicate RecordsAccepted(records: seq<seq<Field>>) {
    forall i :: 0 <= i < |records| ==> Accepted(Indexed(i, records[i]))
  }

  /** Keys are distinct, and none of them is `index`. */
  predicate RecordsDistinct(records: seq<seq<Field>>) {
    forall i :: 0 <= i < |records| ==> DistinctKeys(Indexed(i, records[i]))
  }

  /** The root, or nothing where the printer or the counter throws. */
  function RecordRoot(
      h: HashFn, le: Comparator, leafDomain: Bytes, rootDomain: Bytes, records: seq<seq<Field>>): Option<Digest>
  {
    if RecordsAccepted(records) then OrderedLeafRoot(h, rootDomain, RecordLeaves(h, le, leafDomain, records)) else None
  }

  ghost function RecordInputs(
      h: HashFn, le: Comparator, leafDomain: Bytes, rootDomain: Bytes, records: seq<seq<Field>>): set<Bytes>
  {
    {RootInput(rootDomain, RecordLeaves(h, le, leafDomain, records))}
    + (set i | 0 <= i < |records| :: RecordInput(le, leafDomain, i, records[i]))
  }

  lemma RecordUnique(le: Comparator, domain: Bytes, i: nat, a: seq<Field>, b: seq<Field>)
    requires Accepted(Indexed(i, a)) && Accepted(Indexed(i, b)) && DistinctKeys(Indexed(i, a))
      && DistinctKeys(Indexed(i, b))
    requires RecordInput(le, domain, i, a) == RecordInput(le, domain, i, b)
    ensures FieldMap(a) == FieldMap(b)
  {
    var v, w := Indexed(i, a), Indexed(i, b);
    SplitAt(domain, Utf8(Print(le, v)), domain, Utf8(Print(le, w)));
    PrintWellFormed(le, v);
    PrintWellFormed(le, w);
    hide Print, Utf8;
    Utf8Unique(Print(le, v), Print(le, w));
    TextDeterminesMeaning(le, v, w);
    WithoutIndex(i, a);
    WithoutIndex(i, b);
  }

  lemma WithoutIndex(i: nat, record: seq<Field>)
    requires DistinctKeys(Indexed(i, record))
    ensures MeaningOf(Indexed(i, record)).MObject?
    ensures FieldMap(record) == MeaningOf(Indexed(i, record)).fields - {Str("index")}
  {
    var fields := [Field(Str("index"), JNumber(i))] + record;
    assert fields[1..] == record && Distinct(fields);
    hide MeaningOf, Str;
    ObjectMeaningOf(fields);
    if Str("index") in FieldMap(record) {
      var j := FieldMapKey(record, Str("index"));
    }
  }

  /** A record root binds the whole ordered list: equal roots mean equally many records, each equal up
      to key order. */
  lemma RecordRootBinds(
      h: HashFn, le: Comparator, leafDomain: Bytes, rootDomain: Bytes, a: seq<seq<Field>>, b: seq<seq<Field>>)
    requires RecordsDistinct(a) && RecordsDistinct(b)
    requires RecordRoot(h, le, leafDomain, rootDomain, a).Some?
    requires RecordRoot(h, le, leafDomain, rootDomain, a) == RecordRoot(h, le, leafDomain, rootDomain, b)
    requires CollisionFree(h, RecordInputs(h, le, leafDomain, rootDomain, a)
      + RecordInputs(h, le, leafDomain, rootDomain, b))
    ensures |a| == |b| && forall i :: 0 <= i < |a| ==> FieldMap(a[i]) == FieldMap(b[i])
  {
    var x, y := RecordLeaves(h, le, leafDomain, a), RecordLeaves(h, le, leafDomain, b);
    var seen := RecordInputs(h, le, leafDomain, rootDomain, a) + RecordInputs(h, le, leafDomain, rootDomain, b);
    hide RecordInput, RootInput, FieldMap, Indexed, Accepted, DistinctKeys;
    assert RootInput(rootDomain, x) in seen && RootInput(rootDomain, y) in seen;
    RootInputUnique(rootDomain, x, y);
    forall i | 0 <= i < |a| ensures FieldMap(a[i]) == FieldMap(b[i]) {
      assert RecordInput(le, leafDomain, i, a[i]) in seen && RecordInput(le, leafDomain, i, b[i]) in seen;
      assert x[i] == y[i];
      RecordUnique(le, leafDomain, i, a[i], b[i]);
    }
  }

  // ---------- what a record root hashes ----------

  lemma {:induction false} ConcatAt(leaves: seq<Digest>, i: nat)
    requires i < |leaves|
    ensures |Concat(leaves)| == 32 * |leaves| && Concat(leaves)[32 * i..32 * (i + 1)] == leaves[i]
  {
    ConcatSize(leaves);
    if i > 0 {
      ConcatAt(leaves[1..], i - 1);
      var all, rest := Concat(leaves), Concat(leaves[1..]);
      assert all[32..] == rest;
      assert all[32..][32 * (i - 1)..32 * i] == all[32 * i..32 * (i + 1)];
    }
  }

  lemma {:induction false} ConcatSize(leaves: seq<Digest>)
    ensures |Concat(leaves)| == 32 * |leaves|
  {
    if leaves != [] { ConcatSize(leaves[1..]); }
  }

  /** The leaf hashes the domain and a UTF-8 JSON text that reads as an object of this meaning. */
  ghost predicate Holds(h: HashFn, domain: Bytes, leaf: Digest, text: Bytes, fields: map<Text, Meaning>) {
    && leaf == h(domain + text) && DecodeUtf8(text).Some? && Parse(DecodeUtf8(text).value).Some?
    && MeaningOf(Parse(DecodeUtf8(text).value).value) == MObject(fields)
  }

  lemma IndexedMeaning(i: nat, record: seq<Field>)
    ensures MeaningOf(Indexed(i, record)) == MObject(FieldMap(record)[Str("index") := MNumber(i)])
  {
    hide Str;
    var fields := [Field(Str("index"), JNumber(i))] + record;
    assert fields[1..] == record;
    ObjectMeaningOf(fields);
  }

  lemma RecordHolds(h: HashFn, le: Comparator, domain: Bytes, i: nat, record: seq<Field>)
    requires Accepted(Indexed(i, record)) && DistinctKeys(Indexed(i, record))
    ensures Holds(h, domain, h(RecordInput(le, domain, i, record)), Utf8(Print(le, Indexed(i, record))),
                  FieldMap(record)[Str("index") := MNumber(i)])
  {
    hide Print, Utf8, DecodeUtf8, Parse, MeaningOf, FieldMap, Indexed, Arranged, Str;
    CanonicalBytesRead(le, Indexed(i, record));
    IndexedMeaning(i, record);
  }

  /** A record root, read from outside: the hash of the root domain, the 32-bit count and the leaves; leaf i
      the hash of the leaf domain and a text that reads as record i with its position under `index`. */
  lemma RecordRootInBytes(
      h: HashFn, le: Comparator, leafDomain: Bytes, rootDomain: Bytes, records: seq<seq<Field>>)
      returns (leaves: seq<Digest>, texts: seq<Bytes>)
    requires RecordsDistinct(records) && RecordRoot(h, le, leafDomain, rootDomain, records).Some?
    ensures |leaves| == |texts| == |records| < 0x1_0000_0000
    ensures RecordRoot(h, le, leafDomain, rootDomain, records)
         == Some(h(rootDomain + (LE(|records|, 4) + Concat(leaves))))
    ensures forall i :: 0 <= i < |records| ==>
      Holds(h, leafDomain, leaves[i], texts[i], FieldMap(records[i])[Str("index") := MNumber(i)])
  {
    hide Holds, Indexed, Accepted, DistinctKeys, FieldMap, Print, Utf8, LE, Concat, Str;
    leaves := RecordLeaves(h, le, leafDomain, records);
    texts := seq(|records|, i requires 0 <= i < |records| => Utf8(Print(le, Indexed(i, records[i]))));
    forall i | 0 <= i < |records|
      ensures Holds(h, leafDomain, leaves[i], texts[i], FieldMap(records[i])[Str("index") := MNumber(i)])
    {
      RecordHolds(h, le, leafDomain, i, records[i]);
    }
  }

  // ---------- the frozen-history inventory ----------

  function HistoryRecords(transactions: seq<Json>): (records: seq<seq<Field>>)
    ensures |records| == |transactions|
  {
    seq(|transactions|, i requires 0 <= i < |transactions| => [Field(Str("transaction"), transactions[i])])
  }

  function HistoryInventoryRoot(h: HashFn, le: Comparator, transactions: seq<Json>): Option<Digest> {
    RecordRoot(h, le, Ascii("AMOEBA_FROZEN_HISTORY_TRANSACTION_V3"), Ascii("AMOEBA_FROZEN_HISTORY_INVENTORY_V3"),
      HistoryRecords(transactions))
  }

  ghost function HistoryInputs(h: HashFn, le: Comparator, transactions: seq<Json>): set<Bytes> {
    RecordInputs(h, le, Ascii("AMOEBA_FROZEN_HISTORY_TRANSACTION_V3"), Ascii("AMOEBA_FROZEN_HISTORY_INVENTORY_V3"),
      HistoryRecords(transactions))
  }

  /** The history inventory root binds the whole ordered transaction list. */
  lemma HistoryInventoryBinds(h: HashFn, le: Comparator, a: seq<Json>, b: seq<Json>)
    requires (forall i :: 0 <= i < |a| ==> DistinctKeys(a[i])) && (forall i :: 0 <= i < |b| ==> DistinctKeys(b[i]))
    requires HistoryInventoryRoot(h, le, a).Some? && HistoryInventoryRoot(h, le, a) == HistoryInventoryRoot(h, le, b)
    requires CollisionFree(h, HistoryInputs(h, le, a) + HistoryInputs(h, le, b))
    ensures |a| == |b| && forall i :: 0 <= i < |a| ==> MeaningOf(a[i]) == MeaningOf(b[i])
  {
    var leaf, root := Ascii("AMOEBA_FROZEN_HISTORY_TRANSACTION_V3"), Ascii("AMOEBA_FROZEN_HISTORY_INVENTORY_V3");
    hide Ascii, RecordRoot, RecordInputs, FieldMap, MeaningOf;
    HistoryDistinct(a);
    HistoryDistinct(b);
    RecordRootBinds(h, le, leaf, root, HistoryRecords(a), HistoryRecords(b));
    forall i | 0 <= i < |a| ensures MeaningOf(a[i]) == MeaningOf(b[i]) {
      OneField(Str("transaction"), a[i]);
      OneField(Str("transaction"), b[i]);
      assert FieldMap(HistoryRecords(a)[i]) == FieldMap(HistoryRecords(b)[i]);
    }
  }

  lemma OneField(k: Text, v: Json)
    ensures FieldMap([Field(k, v)]) == map[k := MeaningOf(v)]
    ensures FieldMap([Field(k, v)])[k] == MeaningOf(v)
  {
    hide MeaningOf;
    assert [Field(k, v)][1..] == [];
  }

  lemma HistoryDistinct(transactions: seq<Json>)
    requires forall i :: 0 <= i < |transactions| ==> DistinctKeys(transactions[i])
    ensures RecordsDistinct(HistoryRecords(transactions))
  {
    assert |Str("index")| == 5 && |Str("transaction")| == 11;
    hide Str;
    var records := HistoryRecords(transactions);
    forall i | 0 <= i < |records| ensures DistinctKeys(Indexed(i, records[i])) {
      var fields := [Field(Str("index"), JNumber(i)), Field(Str("transaction"), transactions[i])];
      assert Indexed(i, records[i]) == JObject(fields);
      assert Distinct(fields);
    }
  }

  /** The history inventory root, read from outside. */
  lemma HistoryRootInBytes(h: HashFn, le: Comparator, transactions: seq<Json>)
    returns (leaves: seq<Digest>, texts: seq<Bytes>)
    requires (forall i :: 0 <= i < |transactions| ==> DistinctKeys(transactions[i]))
    requires HistoryInventoryRoot(h, le, transactions).Some?
    ensures |leaves| == |texts| == |transactions| < 0x1_0000_0000
    ensures HistoryInventoryRoot(h, le, transactions)
         == Some(h(Ascii("AMOEBA_FROZEN_HISTORY_INVENTORY_V3") + (LE(|transactions|, 4) + Concat(leaves))))
    ensures forall i :: 0 <= i < |transactions| ==>
      Holds(h, Ascii("AMOEBA_FROZEN_HISTORY_TRANSACTION_V3"), leaves[i], texts[i],
            map[Str("transaction") := MeaningOf(transactions[i])][Str("index") := MNumber(i)])
  {
    hide Ascii, RecordRoot, FieldMap, MeaningOf, Holds, Str, LE, Concat;
    HistoryDistinct(transactions);
    var leaf, root := Ascii("AMOEBA_FROZEN_HISTORY_TRANSACTION_V3"), Ascii("AMOEBA_FROZEN_HISTORY_INVENTORY_V3");
    var records := HistoryRecords(transactions);
    leaves, texts := RecordRootInBytes(h, le, leaf, root, records);
    forall i | 0 <= i < |transactions|
      ensures Holds(h, leaf, leaves[i], texts[i],
        map[Str("transaction") := MeaningOf(transactions[i])][Str("index") := MNumber(i)])
    {
      OneField(Str("transaction"), transactions[i]);
      assert Holds(h, leaf, leaves[i], texts[i], FieldMap(records[i])[Str("index") := MNumber(i)]);
    }
  }
}
