/** Canonical JSON: objects print with their keys sorted by a comparator, `localeCompare`.  The
    comparator is any total preorder: canonically equivalent but different strings compare equal. */
module CanonicalJson {
  import opened ByteStrings
  import opened JsonText

  /** Something under a key: a member of an object, or its text. */
  datatype Keyed<+T> = Field(key: Text, value: T)

  type Field = Keyed<Json>
  type Entry = Keyed<Text>

  /** The values a receipt can hold.  `JOther` is anything that is not JSON: undefined, a function, a
      bigint, a number that is not an integer. */
  datatype Json = JNull | JBool(b: bool) | JString(s: Text) | JNumber(n: int) | JArray(items: seq<Json>)
                | JObject(fields: seq<Field>) | JOther

  type Comparator = (Text, Text) -> bool

  ghost predicate TotalPreorder(le: Comparator) {
    && (forall a, b :: le(a, b) || le(b, a))
    && (forall a, b, c :: le(a, b) && le(b, c) ==> le(a, c))
  }

  const MAX_SAFE: int := 9_007_199_254_740_991

  /** The values `canonicalJson` does not throw on. */
  predicate Accepted(v: Json) {
    match v
    case JNumber(n) => -MAX_SAFE <= n <= MAX_SAFE
    case JArray(items) => forall i :: 0 <= i < |items| ==> Accepted(items[i])
    case JObject(fields) => forall i :: 0 <= i < |fields| ==> Accepted(fields[i].value)
    case JOther => false
    case _ => true
  }

  /** The accepted integers are those strictly between -2^53 and 2^53. */
  lemma SafeIntegers(n: int)
    ensures Accepted(JNumber(n)) <==> -0x20_0000_0000_0000 < n < 0x20_0000_0000_0000
  {
  }

  /** The keys of every object are distinct, as in any JavaScript object. */
  predicate DistinctKeys(v: Json) {
    match v
    case JArray(items) => forall i :: 0 <= i < |items| ==> DistinctKeys(items[i])
    case JObject(fields) => Distinct(fields) && forall i :: 0 <= i < |fields| ==> DistinctKeys(fields[i].value)
    case _ => true
  }

  predicate Distinct<T>(fields: seq<Keyed<T>>) {
    forall i, j :: 0 <= i < j < |fields| ==> fields[i].key != fields[j].key
  }

  // ---------- printing ----------

  function Entries(le: Comparator, fields: seq<Field>): (es: seq<Entry>)
    ensures |es| == |fields| && forall i :: 0 <= i < |fields| ==> es[i].key == fields[i].key
  {
    if fields == [] then [] else [Field(fields[0].key, Print(le, fields[0].value))] + Entries(le, fields[1..])
  }

  function Insert<T>(le: Comparator, e: Keyed<T>, es: seq<Keyed<T>>): (inserted: seq<Keyed<T>>)
    ensures |inserted| == |es| + 1
  {
    if es == [] || le(e.key, es[0].key) then [e] + es else [es[0]] + Insert(le, e, es[1..])
  }

  /** The stable sort by key. */
  function Sort<T>(le: Comparator, es: seq<Keyed<T>>): (sorted: seq<Keyed<T>>)
    ensures |sorted| == |es|
  {
    if es == [] then [] else Insert(le, es[0], Sort(le, es[1..]))
  }

  function Member(e: Entry): Text {
    Quote(e.key) + ([COLON] + e.value)
  }

  const OPEN_ARRAY: Unit := 91
  const CLOSE_ARRAY: Unit := 93
  const OPEN_OBJECT: Unit := 123
  const CLOSE_OBJECT: Unit := 125

  /** The rest of an array after an item. */
  function ArrayTail(le: Comparator, items: seq<Json>): Text {
    if items == [] then [CLOSE_ARRAY] else [COMMA] + (Print(le, items[0]) + ArrayTail(le, items[1..]))
  }

  /** The rest of an object after a member. */
  function ObjectTail(es: seq<Entry>): Text {
    if es == [] then [CLOSE_OBJECT] else [COMMA] + (Member(es[0]) + ObjectTail(es[1..]))
  }

  function Print(le: Comparator, v: Json): Text {
    match v
    case JNull => [110, 117, 108, 108]
    case JBool(b) => if b then [116, 114, 117, 101] else [102, 97, 108, 115, 101]
    case JString(s) => Quote(s)
    case JNumber(n) => Integer(n)
    case JArray(items) =>
      [OPEN_ARRAY] + (if items == [] then [CLOSE_ARRAY] else Print(le, items[0]) + ArrayTail(le, items[1..]))
    case JObject(fields) => [OPEN_OBJECT] + ObjectBody(Sort(le, Entries(le, fields)))
    case JOther => []
  }

  function ObjectBody(es: seq<Entry>): Text {
    if es == [] then [CLOSE_OBJECT] else Member(es[0]) + ObjectTail(es[1..])
  }

  /** The text of a value, or nothing where the printer throws. */
  function CanonicalText(le: Comparator, v: Json): Option<Text> {
    if Accepted(v) then Some(Print(le, v)) else None
  }

  // ---------- sorting ----------

  lemma {:induction false} InsertMultiset<T>(le: Comparator, e: Keyed<T>, es: seq<Keyed<T>>)
    ensures multiset(Insert(le, e, es)) == multiset(es) + multiset{e}
  {
    if es != [] && !le(e.key, es[0].key) {
      InsertMultiset(le, e, es[1..]);
      assert es == [es[0]] + es[1..];
    }
  }

  lemma {:induction false} SortMultiset<T>(le: Comparator, es: seq<Keyed<T>>)
    ensures multiset(Sort(le, es)) == multiset(es)
  {
    if es != [] {
      SortMultiset(le, es[1..]);
      InsertMultiset(le, es[0], Sort(le, es[1..]));
      assert es == [es[0]] + es[1..];
    }
  }

  lemma SortMembers<T(!new)>(le: Comparator, es: seq<Keyed<T>>)
    ensures |Sort(le, es)| == |es| && forall e :: e in Sort(le, es) <==> e in es
  {
    SortMultiset(le, es);
    var sorted := Sort(le, es);
    assert |multiset(sorted)| == |sorted| && |multiset(es)| == |es|;
    forall e ensures e in sorted <==> e in es {
      assert e in sorted <==> e in multiset(sorted);
      assert e in es <==> e in multiset(es);
    }
  }

  lemma {:induction false} EntryAt(le: Comparator, fields: seq<Field>, i: nat)
    requires i < |fields|
    ensures Entries(le, fields)[i] == Field(fields[i].key, Print(le, fields[i].value))
  {
    if i > 0 { EntryAt(le, fields[1..], i - 1); }
  }

  // ---------- the shape of the text ----------

  /** What can stand after a value. */
  predicate Delimited(t: Text) {
    t == [] || t[0] == COMMA || t[0] == CLOSE_ARRAY || t[0] == CLOSE_OBJECT
  }

  lemma NoBracketFirst(le: Comparator, v: Json)
    requires Accepted(v)
    ensures Print(le, v) != [] && Print(le, v)[0] != CLOSE_ARRAY
  {
  }

  /** An array's text: its bracket, then the items or the closing bracket, which starts no item. */
  lemma ArrayText(le: Comparator, v: Json)
    requires v.JArray? && Accepted(v)
    ensures Print(le, v) != [] && Print(le, v)[0] == OPEN_ARRAY
    ensures Print(le, v)[1..] == if v.items == [] then [CLOSE_ARRAY]
      else Print(le, v.items[0]) + ArrayTail(le, v.items[1..])
    ensures v.items != [] ==> Print(le, v)[1..] != [] && Print(le, v)[1..][0] != CLOSE_ARRAY
  {
    if v.items != [] { NoBracketFirst(le, v.items[0]); }
  }

  lemma ObjectTailIs(es: seq<Entry>)
    ensures ObjectTail(es) == if es == [] then [CLOSE_OBJECT] else [COMMA] + ObjectBody(es)
  {
  }

  lemma BodyHead(e: Entry, es: seq<Entry>, r: Text)
    ensures ObjectBody([e] + es) + r == Quote(e.key) + ([COLON] + (e.value + (ObjectTail(es) + r)))
  {
    hide Quote, ObjectTail;
    assert ([e] + es)[1..] == es;
  }

  // ---------- meaning ----------

  /** A value without the order of its keys. */
  datatype Meaning = MNull | MBool(b: bool) | MString(s: Text) | MNumber(n: int) | MArray(items: seq<Meaning>)
                   | MObject(fields: map<Text, Meaning>) | MOther

  function MeaningOf(v: Json): Meaning {
    match v
    case JNull => MNull
    case JBool(b) => MBool(b)
    case JString(s) => MString(s)
    case JNumber(n) => MNumber(n)
    case JArray(items) => MArray(seq(|items|, i requires 0 <= i < |items| => MeaningOf(items[i])))
    case JObject(fields) => MObject(FieldMap(fields))
    case JOther => MOther
  }

  function FieldMap(fields: seq<Field>): map<Text, Meaning> {
    if fields == [] then map[] else FieldMap(fields[1..])[fields[0].key := MeaningOf(fields[0].value)]
  }

  lemma {:induction false} FieldMapAt(fields: seq<Field>, i: nat)
    requires Distinct(fields) && i < |fields|
    ensures fields[i].key in FieldMap(fields) && FieldMap(fields)[fields[i].key] == MeaningOf(fields[i].value)
  {
    hide MeaningOf;
    if i > 0 { FieldMapAt(fields[1..], i - 1); }
  }

  lemma {:induction false} FieldMapKey(fields: seq<Field>, k: Text) returns (i: nat)
    requires k in FieldMap(fields)
    ensures i < |fields| && fields[i].key == k
  {
    hide MeaningOf;
    if fields[0].key == k {
      i := 0;
    } else {
      i := FieldMapKey(fields[1..], k);
      i := i + 1;
    }
  }

  lemma ObjectMeaningOf(fields: seq<Field>)
    ensures MeaningOf(JObject(fields)) == MObject(FieldMap(fields))
  {
  }
}
