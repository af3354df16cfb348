/** The root over the derived donations: one hash over the whole list, in order, written as canonical JSON. */
module DonationRoot {
  import opened ByteStrings
  import opened JsonText
  import opened CanonicalJson
  import opened JsonReader
  import opened ReceiptRoots
  import opened DonationDrift
  import opened ExternalRoots

  function DriftRecord(base58: Key -> Text, d: Drift): seq<Field> {
    [Field(Str("account"), JString(base58(d.account))), Field(Str("owner"), JString(base58(d.owner))),
     Field(Str("assetKind"), JString(KindText(d.assetKind))),
     Field(Str("tokenProgram"), KeyText(base58, d.tokenProgram)),
     Field(Str("mint"), KeyText(base58, d.mint)), Field(Str("authority"), KeyText(base58, d.authority)),
     Field(Str("preAtoms"), JString(d.preAtoms)), Field(Str("postAtoms"), JString(d.postAtoms)),
     Field(Str("positiveDeltaAtoms"), JString(d.positiveDeltaAtoms))]
  }

  function DriftList(base58: Key -> Text, ds: seq<Drift>): Json {
    JArray(seq(|ds|, k requires 0 <= k < |ds| => JObject(DriftRecord(base58, ds[k]))))
  }

  function DonationInput(le: Comparator, base58: Key -> Text, ds: seq<Drift>): Bytes {
    Ascii("AMOEBA_EXTERNAL_DONATION_V3") + Utf8(Print(le, DriftList(base58, ds)))
  }

  /** No donation has the zero hash for its root; the printer never throws on a drift (`DriftListAccepted`). */
  function DonationRoot(h: HashFn, le: Comparator, base58: Key -> Text, ds: seq<Drift>): Digest {
    if ds == [] then Zeros(32) else h(DonationInput(le, base58, ds))
  }

  lemma DriftKeysDistinct(base58: Key -> Text, d: Drift)
    ensures Distinct(DriftRecord(base58, d))
  {
    assert |Str("account")| == 7 && |Str("owner")| == 5 && |Str("tokenProgram")| == 12 && |Str("mint")| == 4;
    assert |Str("preAtoms")| == 8 && |Str("positiveDeltaAtoms")| == 18;
    assert |Str("assetKind")| == 9 && Str("assetKind")[1] == 115;
    assert |Str("authority")| == 9 && Str("authority")[1] == 117;
    assert |Str("postAtoms")| == 9 && Str("postAtoms")[1] == 111;
    hide Str, KindText, KeyText;
  }

  lemma RecordAccepted(base58: Key -> Text, d: Drift)
    ensures Accepted(JObject(DriftRecord(base58, d))) && DistinctKeys(JObject(DriftRecord(base58, d)))
  {
    DriftKeysDistinct(base58, d);
    hide Str, KindText, Distinct;
  }

  lemma DriftListAccepted(base58: Key -> Text, ds: seq<Drift>)
    ensures Accepted(DriftList(base58, ds)) && DistinctKeys(DriftList(base58, ds))
  {
    hide DriftRecord;
    forall k | 0 <= k < |ds|
      ensures Accepted(JObject(DriftRecord(base58, ds[k]))) && DistinctKeys(JObject(DriftRecord(base58, ds[k])))
    {
      RecordAccepted(base58, ds[k]);
    }
  }

  // ---------- what the text says ----------

  /** These nine fields and no others. */
  predicate SaysDrift(m: map<Text, Meaning>, base58: Key -> Text, d: Drift) {
    && |m| == 9
    && Says(m, Str("account"), MString(base58(d.account))) && Says(m, Str("owner"), MString(base58(d.owner)))
    && (d.assetKind.Lamports? ==> Says(m, Str("assetKind"), MString(Str("lamports"))))
    && (d.assetKind.Token? ==> Says(m, Str("assetKind"), MString(Str("token"))))
    && Says(m, Str("tokenProgram"), if d.tokenProgram.Some? then MString(base58(d.tokenProgram.value)) else MNull)
    && Says(m, Str("mint"), if d.mint.Some? then MString(base58(d.mint.value)) else MNull)
    && Says(m, Str("authority"), if d.authority.Some? then MString(base58(d.authority.value)) else MNull)
    && Says(m, Str("preAtoms"), MString(d.preAtoms)) && Says(m, Str("postAtoms"), MString(d.postAtoms))
    && Says(m, Str("positiveDeltaAtoms"), MString(d.positiveDeltaAtoms))
  }

  lemma DriftIsSaid(base58: Key -> Text, d: Drift)
    ensures SaysDrift(FieldMap(DriftRecord(base58, d)), base58, d)
  {
    hide Str, FieldMap, KindText, KeyText, StateText, Distinct, Says;
    var x := DriftRecord(base58, d);
    DriftKeysDistinct(base58, d);
    FieldMapSize(x);
    TextsMean(base58);
    forall j | 0 <= j < 9 ensures Says(FieldMap(x), x[j].key, MeaningOf(x[j].value)) { SaidAt(x, j); }
    assert x[0].key == Str("account") && x[1].key == Str("owner") && x[2].key == Str("assetKind");
    assert x[3].key == Str("tokenProgram") && x[4].key == Str("mint") && x[5].key == Str("authority");
    assert x[6].key == Str("preAtoms") && x[7].key == Str("postAtoms") && x[8].key == Str("positiveDeltaAtoms");
  }

  /** The root hashes a text that reads as an array, entry k of the list in place k; no donation has 32 zero
      bytes for its root. */
  lemma DonationRootInBytes(h: HashFn, le: Comparator, base58: Key -> Text, ds: seq<Drift>)
    returns (text: Bytes, items: seq<map<Text, Meaning>>)
    ensures DonationRoot(h, le, base58, ds)
         == if ds == [] then Zeros(32) else h(Ascii("AMOEBA_EXTERNAL_DONATION_V3") + text)
    ensures DecodeUtf8(text).Some? && Parse(DecodeUtf8(text).value).Some?
    ensures |items| == |ds| && MeaningOf(Parse(DecodeUtf8(text).value).value) == ListOf(items)
    ensures forall k :: 0 <= k < |ds| ==> SaysDrift(items[k], base58, ds[k])
  {
    hide Ascii, FieldMap, Print, Utf8, DecodeUtf8, Parse, Arranged, SaysDrift, DriftRecord, Accepted, DistinctKeys;
    text := Utf8(Print(le, DriftList(base58, ds)));
    DriftListAccepted(base58, ds);
    CanonicalBytesRead(le, DriftList(base58, ds));
    items := seq(|ds|, k requires 0 <= k < |ds| => FieldMap(DriftRecord(base58, ds[k])));
    ListMeaning(base58, ds, items);
    forall k | 0 <= k < |ds| ensures SaysDrift(items[k], base58, ds[k]) {
      DriftIsSaid(base58, ds[k]);
    }
  }

  function ListOf(items: seq<map<Text, Meaning>>): Meaning {
    MArray(seq(|items|, k requires 0 <= k < |items| => MObject(items[k])))
  }

  lemma ListMeaning(base58: Key -> Text, ds: seq<Drift>, items: seq<map<Text, Meaning>>)
    requires |items| == |ds| && forall k :: 0 <= k < |ds| ==> items[k] == FieldMap(DriftRecord(base58, ds[k]))
    ensures MeaningOf(DriftList(base58, ds)) == ListOf(items)
  {
    hide DriftRecord, FieldMap;
    forall k | 0 <= k < |ds| ensures MeaningOf(JObject(DriftRecord(base58, ds[k]))) == MObject(items[k]) {
      ObjectMeaningOf(DriftRecord(base58, ds[k]));
    }
  }

  // ---------- the root binds the list ----------

  lemma SaidOnce(m: map<Text, Meaning>, base58: Key -> Text, d: Drift, e: Drift)
    requires Injective(base58) && d.assetKind != UnknownAsset && e.assetKind != UnknownAsset
    requires SaysDrift(m, base58, d) && SaysDrift(m, base58, e)
    ensures d == e
  {
    KindTextsDiffer();
    hide Str;
  }

  lemma KindTextsDiffer()
    ensures Str("lamports") != Str("token")
  {
    assert |Str("lamports")| == 8 && |Str("token")| == 5;
  }

  ghost predicate KindsKnown(ds: seq<Drift>) {
    forall k :: 0 <= k < |ds| ==> ds[k].assetKind != UnknownAsset
  }

  /** The entries of a derivation are of the two kinds that have a text. */
  lemma DerivedKinds(pre: seq<Observation>, post: seq<Observation>)
    requires AllNoLoss(pre, post)
    ensures KindsKnown(DriftOf(pre, post))
  {
    hide NoLoss, DriftOf;
    forall k | 0 <= k < |DriftOf(pre, post)| ensures DriftOf(pre, post)[k].assetKind != UnknownAsset {
      var i := EntryExplained(pre, post, k);
    }
  }

  /** With the counts equal, as the receipt requires, equal roots are exactly equal lists, order included. */
  lemma DonationRootsEqualIff(h: HashFn, le: Comparator, base58: Key -> Text, a: seq<Drift>, b: seq<Drift>)
    requires Injective(base58) && KindsKnown(a) && KindsKnown(b) && |a| == |b|
    requires CollisionFree(h, {DonationInput(le, base58, a), DonationInput(le, base58, b)})
    ensures DonationRoot(h, le, base58, a) == DonationRoot(h, le, base58, b) <==> a == b
  {
    hide DonationInput, Injective;
    if a != [] && DonationRoot(h, le, base58, a) == DonationRoot(h, le, base58, b) {
      SameInput(h, le, base58, a, b);
    }
  }

  lemma SameInput(h: HashFn, le: Comparator, base58: Key -> Text, a: seq<Drift>, b: seq<Drift>)
    requires Injective(base58) && KindsKnown(a) && KindsKnown(b)
    requires DonationInput(le, base58, a) == DonationInput(le, base58, b)
    ensures a == b
  {
    hide Ascii, FieldMap, Print, Utf8, SaysDrift, DriftRecord, Accepted, DistinctKeys, Injective, MeaningOf;
    var v, w := DriftList(base58, a), DriftList(base58, b);
    var domain := Ascii("AMOEBA_EXTERNAL_DONATION_V3");
    SplitAt(domain, Utf8(Print(le, v)), domain, Utf8(Print(le, w)));
    DriftListAccepted(base58, a);
    DriftListAccepted(base58, b);
    PrintWellFormed(le, v);
    PrintWellFormed(le, w);
    Utf8Unique(Print(le, v), Print(le, w));
    TextDeterminesMeaning(le, v, w);
    hide DriftList;
    SameList(base58, a, b);
  }

  lemma SameList(base58: Key -> Text, a: seq<Drift>, b: seq<Drift>)
    requires Injective(base58) && KindsKnown(a) && KindsKnown(b)
    requires MeaningOf(DriftList(base58, a)) == MeaningOf(DriftList(base58, b))
    ensures a == b
  {
    hide FieldMap, SaysDrift, DriftRecord, Injective, DriftList, MeaningOf;
    var x := seq(|a|, k requires 0 <= k < |a| => FieldMap(DriftRecord(base58, a[k])));
    var y := seq(|b|, k requires 0 <= k < |b| => FieldMap(DriftRecord(base58, b[k])));
    ListMeaning(base58, a, x);
    ListMeaning(base58, b, y);
    ListOfInjective(x, y);
    forall k | 0 <= k < |a| ensures a[k] == b[k] {
      DriftIsSaid(base58, a[k]);
      DriftIsSaid(base58, b[k]);
      SaidOnce(x[k], base58, a[k], b[k]);
    }
  }

  lemma ListOfInjective(x: seq<map<Text, Meaning>>, y: seq<map<Text, Meaning>>)
    requires ListOf(x) == ListOf(y)
    ensures x == y
  {
    var a, b := ListOf(x).items, ListOf(y).items;
    assert |a| == |x| && |b| == |y|;
    forall k | 0 <= k < |x| ensures x[k] == y[k] {
      assert a[k] == MObject(x[k]) && b[k] == MObject(y[k]);
    }
  }
}
