/** When canonical JSON ignores the order in which an object's keys were written: exactly when no two
    different keys of one object compare equal, array indices aside, which are always listed first. */
module KeyOrder {
  import opened ByteStrings
  import opened JsonText
  import opened CanonicalJson
  import opened JsonReader

  predicate Tied(le: Comparator, a: Text, b: Text) {
    le(a, b) && le(b, a)
  }

  predicate NoTiedKeys(le: Comparator, fields: seq<Field>) {
    forall i, j :: 0 <= i < j < |fields| ==> !Tied(le, fields[i].key, fields[j].key)
  }

  predicate NoTies(le: Comparator, v: Json) {
    match v
    case JArray(items) => forall i :: 0 <= i < |items| ==> NoTies(le, items[i])
    case JObject(fields) => NoTiedKeys(le, fields) && forall i :: 0 <= i < |fields| ==> NoTies(le, fields[i].value)
    case _ => true
  }

  // ---------- without ties the sort has one result ----------

  predicate Sorted<T>(le: Comparator, es: seq<Keyed<T>>) {
    forall i, j :: 0 <= i < j < |es| ==> le(es[i].key, es[j].key)
  }

  ghost predicate SameMembers<T(!new)>(a: seq<Keyed<T>>, b: seq<Keyed<T>>) {
    forall e :: e in a <==> e in b
  }

  lemma {:induction false} InsertSorted<T(!new)>(le: Comparator, e: Keyed<T>, es: seq<Keyed<T>>)
    requires TotalPreorder(le) && Sorted(le, es)
    ensures Sorted(le, Insert(le, e, es)) && forall x :: x in Insert(le, e, es) <==> x == e || x in es
  {
    if es != [] && !le(e.key, es[0].key) {
      InsertSorted(le, e, es[1..]);
      var rest := Insert(le, e, es[1..]);
      forall j | 0 <= j < |rest| ensures le(es[0].key, rest[j].key) {
        assert rest[j] in rest;
        if rest[j] != e {
          var m :| 0 <= m < |es[1..]| && es[1..][m] == rest[j];
          assert es[m + 1] == rest[j];
        }
      }
      assert es == [es[0]] + es[1..];
    } else if es != [] {
      forall j | 0 <= j < |es| ensures le(e.key, es[j].key) {
        assert j > 0 ==> le(es[0].key, es[j].key);
      }
    }
  }

  lemma {:induction false} SortSorted<T(!new)>(le: Comparator, es: seq<Keyed<T>>)
    requires TotalPreorder(le) && Distinct(es)
    ensures Sorted(le, Sort(le, es)) && Distinct(Sort(le, es)) && SameMembers(Sort(le, es), es)
  {
    if es != [] {
      SortSorted(le, es[1..]);
      InsertSorted(le, es[0], Sort(le, es[1..]));
      InsertKeepsDistinct(le, es[0], Sort(le, es[1..]));
      assert es == [es[0]] + es[1..];
    }
  }

  /** Every object of the value lists its keys in the comparator's order. */
  predicate Ascending(le: Comparator, v: Json) {
    match v
    case JArray(items) => forall i :: 0 <= i < |items| ==> Ascending(le, items[i])
    case JObject(fields) => Sorted(le, fields) && forall i :: 0 <= i < |fields| ==> Ascending(le, fields[i].value)
    case _ => true
  }

  /** What is read from canonical text has its keys in order at every level. */
  lemma {:induction false} PrintedKeysAscend(le: Comparator, v: Json)
    requires TotalPreorder(le) && DistinctKeys(v)
    ensures Ascending(le, Arranged(le, v))
    decreases v
  {
    match v
    case JArray(items) =>
      forall i | 0 <= i < |items| ensures Ascending(le, ArrangedItems(le, items)[i]) {
        ArrangedItemAt(le, items, i);
        PrintedKeysAscend(le, items[i]);
      }
    case JObject(fields) =>
      var arranged := ArrangedFields(le, fields);
      forall i | 0 <= i < |fields| ensures arranged[i].key == fields[i].key && Ascending(le, arranged[i].value) {
        ArrangedFieldAt(le, fields, i);
        PrintedKeysAscend(le, fields[i].value);
      }
      AscendingObject(le, arranged);
    case _ =>
  }

  lemma AscendingObject(le: Comparator, fields: seq<Field>)
    requires TotalPreorder(le) && Distinct(fields) && forall i :: 0 <= i < |fields| ==> Ascending(le, fields[i].value)
    ensures Ascending(le, JObject(Sort(le, fields)))
  {
    hide Sort, Sorted;
    SortSorted(le, fields);
    var sorted := Sort(le, fields);
    forall i | 0 <= i < |sorted| ensures Ascending(le, sorted[i].value) {
      assert sorted[i] in sorted;
      assert sorted[i] in fields;
    }
  }

  predicate TiesAreEqual(le: Comparator, s: seq<Entry>) {
    forall x, y :: x in s && y in s && Tied(le, x.key, y.key) ==> x.key == y.key
  }

  lemma SameHead(le: Comparator, s: seq<Entry>, t: seq<Entry>)
    requires Sorted(le, s) && Sorted(le, t) && Distinct(s) && SameMembers(s, t)
    requires TiesAreEqual(le, s) && s != [] && t != []
    ensures s[0] == t[0]
  {
    assert s[0] in s && t[0] in t;
    var p :| 0 <= p < |t| && t[p] == s[0];
    var q :| 0 <= q < |s| && s[q] == t[0];
    assert q > 0 ==> le(s[0].key, s[q].key);
    assert p > 0 ==> le(t[0].key, t[p].key);
    assert q > 0 ==> s[0].key != s[q].key;
  }

  /** Two strictly sorted lists with the same members are equal. */
  lemma {:induction false} SortedUnique(le: Comparator, s: seq<Entry>, t: seq<Entry>)
    requires Sorted(le, s) && Sorted(le, t) && Distinct(s) && Distinct(t) && SameMembers(s, t)
    requires TiesAreEqual(le, s)
    ensures s == t
  {
    hide SameMembers, Sorted, Distinct, TiesAreEqual;
    if t != [] { SameBackwards(s, t); AlsoNonempty(t, s); }
    if s != [] {
      AlsoNonempty(s, t);
      SameHead(le, s, t);
      TailsMatch(le, s, t);
      assert s == [s[0]] + s[1..] && t == [t[0]] + t[1..];
      SortedUnique(le, s[1..], t[1..]);
    }
  }

  lemma SameBackwards(s: seq<Entry>, t: seq<Entry>)
    requires SameMembers(s, t)
    ensures SameMembers(t, s)
  {
  }

  lemma AlsoNonempty(s: seq<Entry>, t: seq<Entry>)
    requires SameMembers(s, t) && s != []
    ensures t != []
  {
    assert s[0] in s;
  }

  lemma TailsMatch(le: Comparator, s: seq<Entry>, t: seq<Entry>)
    requires Sorted(le, s) && Sorted(le, t) && Distinct(s) && Distinct(t) && SameMembers(s, t)
    requires TiesAreEqual(le, s) && s != [] && t != [] && s[0] == t[0]
    ensures Sorted(le, s[1..]) && Sorted(le, t[1..]) && Distinct(s[1..]) && Distinct(t[1..])
    ensures SameMembers(s[1..], t[1..]) && TiesAreEqual(le, s[1..])
  {
    hide Tied;
    forall e ensures e in s[1..] <==> e in t[1..] {
      TailMember(s, e);
      TailMember(t, e);
    }
    assert forall x :: x in s[1..] ==> x in s;
  }

  lemma TailMember(s: seq<Entry>, e: Entry)
    requires Distinct(s) && s != []
    ensures e in s[1..] <==> e in s && e != s[0]
  {
    if e in s[1..] {
      var i :| 0 <= i < |s[1..]| && s[1..][i] == e;
      assert s[i + 1] == e;
    }
    assert s == [s[0]] + s[1..];
  }

  lemma TiesOfFields(le: Comparator, a: seq<Field>, s: seq<Entry>)
    requires NoTiedKeys(le, a) && SameMembers(s, Entries(le, a))
    ensures TiesAreEqual(le, s)
  {
    var es := Entries(le, a);
    hide Entries, Print;
    forall x, y | x in s && y in s && Tied(le, x.key, y.key) ensures x.key == y.key {
      assert x in es && y in es;
      var i :| 0 <= i < |es| && es[i] == x;
      var j :| 0 <= j < |es| && es[j] == y;
      assert a[i].key == x.key && a[j].key == y.key;
    }
  }

  lemma SortOnce(le: Comparator, a: seq<Field>, b: seq<Field>)
    requires TotalPreorder(le) && Distinct(a) && Distinct(b) && NoTiedKeys(le, a)
    requires SameMembers(Entries(le, a), Entries(le, b))
    ensures Sort(le, Entries(le, a)) == Sort(le, Entries(le, b))
  {
    var es, ds := Entries(le, a), Entries(le, b);
    assert Distinct(es) && Distinct(ds);
    hide Entries, Sort, Sorted, NoTiedKeys, Distinct, Print, Distinct;
    SortSorted(le, es);
    SortSorted(le, ds);
    var s, t := Sort(le, es), Sort(le, ds);
    TiesOfFields(le, a, s);
    SortedUnique(le, s, t);
  }

  lemma {:induction false} SameItemsSameTail(le: Comparator, a: seq<Json>, b: seq<Json>)
    requires |a| == |b| && forall i :: 0 <= i < |a| ==> Print(le, a[i]) == Print(le, b[i])
    ensures ArrayTail(le, a) == ArrayTail(le, b)
  {
    hide Print;
    if a != [] { SameItemsSameTail(le, a[1..], b[1..]); }
  }

  /** Without ties, equal values up to key order have equal texts. */
  lemma {:induction false} MeaningDeterminesText(le: Comparator, v: Json, w: Json)
    requires TotalPreorder(le) && DistinctKeys(v) && DistinctKeys(w) && NoTies(le, v)
    requires MeaningOf(v) == MeaningOf(w)
    ensures Print(le, v) == Print(le, w)
    decreases v
  {
    if v.JArray? {
      forall i | 0 <= i < |v.items| ensures Print(le, v.items[i]) == Print(le, w.items[i]) {
        assert MeaningOf(v).items[i] == MeaningOf(w).items[i];
        MeaningDeterminesText(le, v.items[i], w.items[i]);
      }
      if v.items != [] { SameItemsSameTail(le, v.items[1..], w.items[1..]); }
    } else if v.JObject? {
      EntriesAgree(le, v, w);
      SortOnce(le, v.fields, w.fields);
    }
  }

  lemma {:induction false} EntriesAgree(le: Comparator, v: Json, w: Json)
    requires v.JObject? && w.JObject? && TotalPreorder(le) && DistinctKeys(v) && DistinctKeys(w) && NoTies(le, v)
    requires FieldMap(v.fields) == FieldMap(w.fields)
    ensures SameMembers(Entries(le, v.fields), Entries(le, w.fields))
    decreases v, 0
  {
    var a, b := v.fields, w.fields;
    hide Print, MeaningOf;
    forall e ensures e in Entries(le, a) <==> e in Entries(le, b) {
      if e in Entries(le, a) {
        var i :| 0 <= i < |a| && Entries(le, a)[i] == e;
        EntryAt(le, a, i);
        FieldMapAt(a, i);
        var j := FieldMapKey(b, a[i].key);
        FieldMapAt(b, j);
        MeaningDeterminesText(le, a[i].value, b[j].value);
        EntryAt(le, b, j);
      } else if e in Entries(le, b) {
        var j :| 0 <= j < |b| && Entries(le, b)[j] == e;
        EntryAt(le, b, j);
        FieldMapAt(b, j);
        var i := FieldMapKey(a, b[j].key);
        FieldMapAt(a, i);
        MeaningDeterminesText(le, a[i].value, b[j].value);
        EntryAt(le, a, i);
      }
    }
  }

  // ---------- the order in which keys are listed ----------

  const LAST_INDEX := 0xFFFF_FFFE

  /** An array index has its value as rank; every other key ranks after all indices. */
  function Rank(k: Text): (r: nat)
    ensures r <= LAST_INDEX + 1
  {
    if IsCanonicalDecimal(k) && DecimalValue(k) <= LAST_INDEX then DecimalValue(k) else LAST_INDEX + 1
  }

  predicate IsIndex(k: Text) {
    Rank(k) <= LAST_INDEX
  }

  /** The fields as a JavaScript object lists them: indices first and ascending, then names as written. */
  predicate Enumerated(fields: seq<Field>) {
    forall i, j :: 0 <= i < j < |fields| ==> Rank(fields[i].key) <= Rank(fields[j].key)
  }

  predicate Enumerable(v: Json) {
    match v
    case JArray(items) => forall i :: 0 <= i < |items| ==> Enumerable(items[i])
    case JObject(fields) => Enumerated(fields) && forall i :: 0 <= i < |fields| ==> Enumerable(fields[i].value)
    case _ => true
  }

  /** No object has two different tied keys that are both names. */
  predicate NoTiedNames(le: Comparator, v: Json) {
    match v
    case JArray(items) => forall i :: 0 <= i < |items| ==> NoTiedNames(le, items[i])
    case JObject(fields) =>
      && (forall i, j :: 0 <= i < j < |fields| && Tied(le, fields[i].key, fields[j].key) ==>
        IsIndex(fields[i].key) || IsIndex(fields[j].key))
      && forall i :: 0 <= i < |fields| ==> NoTiedNames(le, fields[i].value)
    case _ => true
  }

  /** What a reader expects of "canonical": every object with the same value prints the same. */
  ghost predicate KeyOrderIrrelevant(le: Comparator, v: Json) {
    forall w | Accepted(w) && DistinctKeys(w) && Enumerable(w) && MeaningOf(w) == MeaningOf(v) ::
      Print(le, w) == Print(le, v)
  }

  ghost predicate TiesShareRank(le: Comparator) {
    forall a, b :: Tied(le, a, b) ==> Rank(a) == Rank(b)
  }

  /** The comparator with its ties broken by rank. */
  function ByRank(le: Comparator): Comparator {
    (a, b) => le(a, b) && (le(b, a) ==> Rank(a) <= Rank(b))
  }

  lemma ByRankPreorder(le: Comparator)
    requires TotalPreorder(le)
    ensures TotalPreorder(ByRank(le)) && TiesShareRank(ByRank(le))
  {
    hide Rank;
  }

  lemma {:induction false} InsertByRank<T>(le: Comparator, e: Keyed<T>, es: seq<Keyed<T>>)
    requires forall x :: x in es ==> Rank(e.key) <= Rank(x.key)
    ensures Insert(le, e, es) == Insert(ByRank(le), e, es)
  {
    hide Rank;
    if es != [] { InsertByRank(le, e, es[1..]); }
  }

  /** On keys listed by rank the stable sort breaks ties by rank. */
  lemma {:induction false} SortByRank<T(!new)>(le: Comparator, es: seq<Keyed<T>>)
    requires forall i, j :: 0 <= i < j < |es| ==> Rank(es[i].key) <= Rank(es[j].key)
    ensures Sort(le, es) == Sort(ByRank(le), es)
  {
    hide Rank;
    if es != [] {
      var tail := es[1..];
      SortByRank(le, tail);
      SortMembers(le, tail);
      forall x | x in Sort(le, tail) ensures Rank(es[0].key) <= Rank(x.key) {
        var m :| 0 <= m < |tail| && tail[m] == x;
        assert es[m + 1] == x;
      }
      InsertByRank(le, es[0], Sort(le, tail));
    }
  }

  lemma {:induction false} SameTail(le: Comparator, other: Comparator, items: seq<Json>)
    requires forall i :: 0 <= i < |items| ==> Print(le, items[i]) == Print(other, items[i])
    ensures ArrayTail(le, items) == ArrayTail(other, items)
  {
    hide Print;
    if items != [] { SameTail(le, other, items[1..]); }
  }

  lemma {:induction false} SameEntries(le: Comparator, other: Comparator, fields: seq<Field>)
    requires forall i :: 0 <= i < |fields| ==> Print(le, fields[i].value) == Print(other, fields[i].value)
    ensures Entries(le, fields) == Entries(other, fields)
  {
    hide Print;
    if fields != [] { SameEntries(le, other, fields[1..]); }
  }

  lemma {:induction false} PrintByRank(le: Comparator, v: Json)
    requires Enumerable(v)
    ensures Print(le, v) == Print(ByRank(le), v)
    decreases v
  {
    hide Rank, Sort, Entries, ArrayTail;
    match v
    case JArray(items) =>
      forall i | 0 <= i < |items|
        ensures Print(le, items[i]) == Print(ByRank(le), items[i])
      {
        PrintByRank(le, items[i]);
      }
      if items != [] { SameTail(le, ByRank(le), items[1..]); }
    case JObject(fields) =>
      forall i | 0 <= i < |fields| ensures Print(le, fields[i].value) == Print(ByRank(le), fields[i].value) {
        PrintByRank(le, fields[i].value);
      }
      SameEntries(le, ByRank(le), fields);
      SortByRank(le, Entries(le, fields));
    case _ =>
  }

  lemma RankOfDifferent(a: Text, b: Text)
    requires a != b && Rank(a) == Rank(b)
    ensures !IsIndex(a) && !IsIndex(b)
  {
    if IsIndex(a) {
      DecimalOfValue(a);
      DecimalOfValue(b);
    }
  }

  lemma {:induction false} TiesByRank(le: Comparator, v: Json)
    requires DistinctKeys(v)
    ensures NoTies(ByRank(le), v) <==> NoTiedNames(le, v)
    decreases v
  {
    hide Rank;
    match v
    case JArray(items) =>
      forall i | 0 <= i < |items|
        ensures NoTies(ByRank(le), items[i]) <==> NoTiedNames(le, items[i])
      {
        TiesByRank(le, items[i]);
      }
    case JObject(fields) =>
      forall i | 0 <= i < |fields| ensures NoTies(ByRank(le), fields[i].value) <==> NoTiedNames(le, fields[i].value) {
        TiesByRank(le, fields[i].value);
      }
      forall i, j | 0 <= i < j < |fields| ensures Tied(ByRank(le), fields[i].key, fields[j].key)
        <==> Tied(le, fields[i].key, fields[j].key) && !IsIndex(fields[i].key) && !IsIndex(fields[j].key)
      {
        if Rank(fields[i].key) == Rank(fields[j].key) { RankOfDifferent(fields[i].key, fields[j].key); }
      }
    case _ =>
  }

  /** The decimal forms of 0 to 2^32 - 2 are the indices, ranked by value; everything else is a name. */
  lemma RankOfDecimal(n: nat)
    ensures Rank(Decimal(n)) == if n <= 4_294_967_294 then n else 4_294_967_295
  {
    ValueOfDecimal(n);
    NoLeadingZero(n);
    hide Decimal, DecimalValue;
  }

  lemma RankOfName(k: Text)
    requires forall n: nat :: k != Decimal(n)
    ensures Rank(k) == 4_294_967_295
  {
    hide Decimal, DecimalValue;
    if IsCanonicalDecimal(k) { DecimalOfValue(k); }
  }

  /** Before an index only smaller indices are listed. */
  lemma ListedOrder(fields: seq<Field>, i: nat, j: nat, m: nat)
    requires Enumerated(fields) && Distinct(fields) && i < j < |fields|
    requires fields[j].key == Decimal(m) && m <= 4_294_967_294
    ensures exists n: nat :: n < m && fields[i].key == Decimal(n)
  {
    RankOfDecimal(m);
    var k := fields[i].key;
    assert Rank(k) <= Rank(fields[j].key) && k != fields[j].key;
    if IsCanonicalDecimal(k) { DecimalOfValue(k); }
  }

  // ---------- with ties the order shows ----------

  /** The entries whose key is tied with `k`, in order. */
  function TiedWith<T>(le: Comparator, k: Text, es: seq<Keyed<T>>): seq<Keyed<T>> {
    if es == [] then [] else (if Tied(le, k, es[0].key) then [es[0]] else []) + TiedWith(le, k, es[1..])
  }

  lemma {:induction false} InsertStable<T>(le: Comparator, k: Text, e: Keyed<T>, es: seq<Keyed<T>>)
    requires TotalPreorder(le)
    ensures TiedWith(le, k, Insert(le, e, es)) == TiedWith(le, k, [e] + es)
  {
    assert ([e] + es)[1..] == es;
    if es != [] && !le(e.key, es[0].key) {
      InsertStable(le, k, e, es[1..]);
      assert ([e] + es[1..])[1..] == es[1..];
      assert !(Tied(le, k, e.key) && Tied(le, k, es[0].key));
      assert ([es[0]] + Insert(le, e, es[1..]))[1..] == Insert(le, e, es[1..]);
    }
  }

  /** The sort keeps tied entries in their order. */
  lemma {:induction false} SortStable<T>(le: Comparator, k: Text, es: seq<Keyed<T>>)
    requires TotalPreorder(le)
    ensures TiedWith(le, k, Sort(le, es)) == TiedWith(le, k, es)
  {
    if es != [] {
      SortStable(le, k, es[1..]);
      InsertStable(le, k, es[0], Sort(le, es[1..]));
      assert ([es[0]] + Sort(le, es[1..]))[1..] == Sort(le, es[1..]);
    }
  }

  lemma {:induction false} TiedAt<T>(le: Comparator, k: Text, es: seq<Keyed<T>>, i: nat)
    requires i < |es| && Tied(le, k, es[i].key)
    ensures |TiedWith(le, k, es)| > |TiedWith(le, k, es[..i])|
    ensures TiedWith(le, k, es)[|TiedWith(le, k, es[..i])|] == es[i]
  {
    if i > 0 {
      TiedAt(le, k, es[1..], i - 1);
      assert es[..i][1..] == es[1..][..i - 1];
    }
  }

  function Swap(fields: seq<Field>, i: nat, j: nat): (swapped: seq<Field>)
    requires i < j < |fields|
  {
    fields[i := fields[j]][j := fields[i]]
  }

  lemma SwapMeaning(fields: seq<Field>, i: nat, j: nat)
    requires i < j < |fields| && Distinct(fields)
    ensures Distinct(Swap(fields, i, j)) && FieldMap(Swap(fields, i, j)) == FieldMap(fields)
  {
    hide MeaningOf, FieldMap;
    var swapped := Swap(fields, i, j);
    forall k | k in FieldMap(fields) ensures k in FieldMap(swapped) && FieldMap(swapped)[k] == FieldMap(fields)[k] {
      var m := FieldMapKey(fields, k);
      FieldMapAt(fields, m);
      FieldMapAt(swapped, if m == i then j else if m == j then i else m);
    }
    forall k | k in FieldMap(swapped) ensures k in FieldMap(fields) {
      var m := FieldMapKey(swapped, k);
      FieldMapAt(fields, if m == i then j else if m == j then i else m);
    }
  }

  lemma SwapEnumerated(fields: seq<Field>, i: nat, j: nat)
    requires i < j < |fields| && Enumerated(fields) && Rank(fields[i].key) == Rank(fields[j].key)
    ensures Enumerated(Swap(fields, i, j))
  {
    hide Rank;
    var swapped := Swap(fields, i, j);
    assert forall m :: 0 <= m < |fields| ==> Rank(swapped[m].key) == Rank(fields[m].key);
  }

  lemma SwapKeeps(fields: seq<Field>, i: nat, j: nat)
    requires i < j < |fields| && Accepted(JObject(fields)) && DistinctKeys(JObject(fields))
    ensures Accepted(JObject(Swap(fields, i, j))) && DistinctKeys(JObject(Swap(fields, i, j)))
  {
    hide FieldMap;
    SwapMeaning(fields, i, j);
  }

  /** Swapping two tied keys leaves the value the same, and shows in the order that is printed. */
  lemma TieShows(le: Comparator, fields: seq<Field>, i: nat, j: nat)
    requires TotalPreorder(le) && i < j < |fields| && Tied(le, fields[i].key, fields[j].key)
    requires Accepted(JObject(fields)) && DistinctKeys(JObject(fields))
    ensures var w := JObject(Swap(fields, i, j));
      && Accepted(w) && DistinctKeys(w) && MeaningOf(w) == MeaningOf(JObject(fields))
      && Arranged(le, w) != Arranged(le, JObject(fields))
  {
    var swapped := Swap(fields, i, j);
    assert Distinct(fields);
    SwapMeaning(fields, i, j);
    SwapKeeps(fields, i, j);
    ObjectMeaningOf(fields);
    ObjectMeaningOf(swapped);
    hide MeaningOf, Sort, FieldMap, Accepted, DistinctKeys, ArrangedFields;
    var es, ds := ArrangedFields(le, fields), ArrangedFields(le, swapped);
    forall m | 0 <= m < |fields| ensures es[m].key == fields[m].key && (m < i ==> es[m] == ds[m]) {
      ArrangedFieldAt(le, fields, m);
      ArrangedFieldAt(le, swapped, m);
    }
    ArrangedFieldAt(le, swapped, i);
    SortDiffers(le, es, ds, i);
  }

  /** Lists that first differ in two tied entries are sorted differently. */
  lemma SortDiffers<T>(le: Comparator, es: seq<Keyed<T>>, ds: seq<Keyed<T>>, i: nat)
    requires TotalPreorder(le) && i < |es| && i < |ds| && es[..i] == ds[..i]
    requires es[i] != ds[i] && Tied(le, es[i].key, ds[i].key)
    ensures Sort(le, es) != Sort(le, ds)
  {
    var k := es[i].key;
    assert Tied(le, k, k);
    hide Sort, TiedWith;
    SortStable(le, k, es);
    SortStable(le, k, ds);
    TiedAt(le, k, es, i);
    TiedAt(le, k, ds, i);
  }

  /** `w` is the same value in another key order, and is printed in another order. */
  ghost predicate Shows(le: Comparator, v: Json, w: Json) {
    && Accepted(w) && DistinctKeys(w) && MeaningOf(w) == MeaningOf(v) && Arranged(le, w) != Arranged(le, v)
    && (TiesShareRank(le) && Enumerable(v) ==> Enumerable(w))
  }

  lemma TieShowsAt(le: Comparator, fields: seq<Field>, i: nat, j: nat)
    requires TotalPreorder(le) && Accepted(JObject(fields)) && DistinctKeys(JObject(fields))
    requires i < j < |fields| && Tied(le, fields[i].key, fields[j].key)
    ensures Shows(le, JObject(fields), JObject(Swap(fields, i, j)))
  {
    hide Rank, Print, MeaningOf, Accepted, DistinctKeys;
    TieShows(le, fields, i, j);
    if TiesShareRank(le) && Enumerable(JObject(fields)) { SwapEnumerated(fields, i, j); }
  }

  lemma ItemShowsAt(le: Comparator, v: Json, i: nat, item: Json)
    requires v.JArray? && i < |v.items| && Accepted(v) && DistinctKeys(v) && Shows(le, v.items[i], item)
    ensures Shows(le, v, JArray(v.items[i := item]))
  {
    hide Rank, Print, MeaningOf, Accepted, DistinctKeys, TiesShareRank;
    ItemShows(le, v, i, item);
  }

  lemma FieldShowsAt(le: Comparator, v: Json, i: nat, value: Json)
    requires v.JObject? && i < |v.fields| && Accepted(v) && DistinctKeys(v) && Shows(le, v.fields[i].value, value)
    ensures Shows(le, v, JObject(WithValue(v.fields, i, value)))
  {
    hide Rank, Print, MeaningOf, Accepted, DistinctKeys, TiesShareRank;
    FieldShows(le, v, i, value);
  }

  /** A value with a tie somewhere can be written in another key order that prints differently. */
  lemma {:induction false} TieAnywhereShows(le: Comparator, v: Json) returns (w: Json)
    requires TotalPreorder(le) && Accepted(v) && DistinctKeys(v) && !NoTies(le, v)
    ensures Shows(le, v, w)
    decreases v
  {
    hide Shows;
    if v.JArray? {
      var i :| 0 <= i < |v.items| && !NoTies(le, v.items[i]);
      var item := TieAnywhereShows(le, v.items[i]);
      w := JArray(v.items[i := item]);
      ItemShowsAt(le, v, i, item);
    } else if !NoTiedKeys(le, v.fields) {
      var i, j :| 0 <= i < j < |v.fields| && Tied(le, v.fields[i].key, v.fields[j].key);
      w := JObject(Swap(v.fields, i, j));
      TieShowsAt(le, v.fields, i, j);
    } else {
      var i :| 0 <= i < |v.fields| && !NoTies(le, v.fields[i].value);
      var value := TieAnywhereShows(le, v.fields[i].value);
      w := JObject(WithValue(v.fields, i, value));
      FieldShowsAt(le, v, i, value);
    }
  }

  lemma ItemShows(le: Comparator, v: Json, i: nat, item: Json)
    requires v.JArray? && i < |v.items| && Accepted(v) && DistinctKeys(v) && Accepted(item) && DistinctKeys(item)
    requires MeaningOf(item) == MeaningOf(v.items[i]) && Arranged(le, item) != Arranged(le, v.items[i])
    ensures var w := JArray(v.items[i := item]);
      Accepted(w) && DistinctKeys(w) && MeaningOf(w) == MeaningOf(v) && Arranged(le, w) != Arranged(le, v)
  {
    var w := JArray(v.items[i := item]);
    assert MeaningOf(w).items == MeaningOf(v).items;
    ArrangedItemAt(le, v.items, i);
    ArrangedItemAt(le, w.items, i);
  }

  function WithValue(fields: seq<Field>, i: nat, value: Json): seq<Field>
    requires i < |fields|
  {
    fields[i := Field(fields[i].key, value)]
  }

  lemma WithValueKeeps(fields: seq<Field>, i: nat, value: Json)
    requires i < |fields| && Accepted(JObject(fields)) && DistinctKeys(JObject(fields))
    requires Accepted(value) && DistinctKeys(value) && MeaningOf(value) == MeaningOf(fields[i].value)
    ensures var w := JObject(WithValue(fields, i, value)); Accepted(w) && DistinctKeys(w)
    ensures FieldMap(WithValue(fields, i, value)) == FieldMap(fields)
  {
    hide MeaningOf, FieldMap;
    SameFieldMeanings(fields, WithValue(fields, i, value));
  }

  lemma FieldShows(le: Comparator, v: Json, i: nat, value: Json)
    requires v.JObject? && i < |v.fields| && Accepted(v) && DistinctKeys(v) && Accepted(value) && DistinctKeys(value)
    requires MeaningOf(value) == MeaningOf(v.fields[i].value) && Arranged(le, value) != Arranged(le, v.fields[i].value)
    ensures var w := JObject(WithValue(v.fields, i, value));
      Accepted(w) && DistinctKeys(w) && MeaningOf(w) == MeaningOf(v) && Arranged(le, w) != Arranged(le, v)
  {
    var fields, other := v.fields, WithValue(v.fields, i, value);
    assert Distinct(fields);
    WithValueKeeps(fields, i, value);
    ObjectMeaningOf(fields);
    ObjectMeaningOf(other);
    hide MeaningOf, FieldMap, Sort, ArrangedFields, Accepted, DistinctKeys;
    var es, ds := ArrangedFields(le, fields), ArrangedFields(le, other);
    SortMembers(le, es);
    SortMembers(le, ds);
    ArrangedFieldAt(le, other, i);
    if Sort(le, es) == Sort(le, ds) {
      assert ds[i] in es;
      var m :| 0 <= m < |es| && es[m] == ds[i];
      ArrangedFieldAt(le, fields, m);
    }
  }

  lemma {:induction false} SameFieldMeanings(a: seq<Field>, b: seq<Field>)
    requires |a| == |b|
    requires forall i :: 0 <= i < |a| ==> a[i].key == b[i].key && MeaningOf(a[i].value) == MeaningOf(b[i].value)
    ensures FieldMap(a) == FieldMap(b)
  {
    hide MeaningOf;
    if a != [] { SameFieldMeanings(a[1..], b[1..]); }
  }

  // ---------- the exact condition ----------

  /** Canonical JSON is independent of key order on exactly the values without tied names. */
  lemma KeyOrderIrrelevantIffNoTies(le: Comparator, v: Json)
    requires TotalPreorder(le) && Accepted(v) && DistinctKeys(v) && Enumerable(v)
    ensures KeyOrderIrrelevant(le, v) <==> NoTiedNames(le, v)
  {
    hide Print, MeaningOf, NoTies, NoTiedNames, Enumerable, ByRank, Accepted, DistinctKeys;
    ByRankPreorder(le);
    TiesByRank(le, v);
    PrintByRank(le, v);
    if NoTiedNames(le, v) {
      forall w | Accepted(w) && DistinctKeys(w) && Enumerable(w) && MeaningOf(w) == MeaningOf(v)
        ensures Print(le, w) == Print(le, v)
      {
        MeaningDeterminesText(ByRank(le), v, w);
        PrintByRank(le, w);
      }
    } else {
      var w := TieAnywhereShows(ByRank(le), v);
      PrintByRank(le, w);
      if Print(le, w) == Print(le, v) {
        PrintUnique(ByRank(le), v, w, [], []);
      }
    }
  }

  /** On objects without tied names, equal text is exactly equality up to key order. */
  lemma CanonicalIffEqual(le: Comparator, v: Json, w: Json)
    requires TotalPreorder(le) && CanonicalText(le, v).Some? && CanonicalText(le, w).Some?
    requires DistinctKeys(v) && DistinctKeys(w) && Enumerable(v) && Enumerable(w) && NoTiedNames(le, v)
    ensures CanonicalText(le, v) == CanonicalText(le, w) <==> MeaningOf(v) == MeaningOf(w)
  {
    hide Print, MeaningOf, NoTies, NoTiedNames, Enumerable, ByRank, DistinctKeys;
    if Print(le, v) == Print(le, w) {
      TextDeterminesMeaning(le, v, w);
    } else if MeaningOf(v) == MeaningOf(w) {
      KeyOrderIrrelevantIffNoTies(le, v);
    }
  }

  /** Any comparator that, like `localeCompare`, finds U+00E9 equal to U+0065 U+0301 prints one object
      with these two keys in two ways. */
  lemma CombiningAccentShows(le: Comparator)
    requires TotalPreorder(le) && Tied(le, [0xE9], [0x65, 0x301])
    ensures var a, b := Field([0xE9], JNumber(1)), Field([0x65, 0x301], JNumber(2));
      && Enumerable(JObject([a, b])) && Enumerable(JObject([b, a]))
      && MeaningOf(JObject([a, b])) == MeaningOf(JObject([b, a]))
        && Print(le, JObject([a, b])) != Print(le, JObject([b, a]))
  {
    hide Print, MeaningOf, Rank;
    var a, b := Field([0xE9], JNumber(1)), Field([0x65, 0x301], JNumber(2));
    var fields := [a, b];
    NameRank(a.key);
    NameRank(b.key);
    assert Distinct(fields) by { assert |a.key| != |b.key|; }
    TieShows(le, fields, 0, 1);
    assert Swap(fields, 0, 1) == [b, a];
    if Print(le, JObject([a, b])) == Print(le, JObject([b, a])) {
      PrintUnique(le, JObject([a, b]), JObject([b, a]), [], []);
    }
  }

  lemma NameRank(k: Text)
    requires k != [] && !IsDigit(k[0])
    ensures Rank(k) == LAST_INDEX + 1
  {
  }
}
