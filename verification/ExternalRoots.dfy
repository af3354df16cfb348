/** The two roots over an inventory of external accounts.  Equal metadata roots are accounts of the same
    identity; between such inventories, equal raw-balance roots are an empty drift. */
module ExternalRoots {
  import opened ByteStrings
  import opened JsonText
  import opened CanonicalJson
  import opened ReceiptRoots
  import opened DonationDrift

  // ---------- no drift means equal raw balances ----------

  /** The record a raw-balance leaf hashes; `base58` and `hex` write keys and hashes as text. */
  function BalanceRecord(base58: Key -> Text, hex: Digest -> Text, o: Observation): seq<Field> {
    [Field(Str("account"), JString(base58(o.account))), Field(Str("lamports"), JString(o.lamports)),
     Field(Str("rawTokenAmount"), if o.rawTokenAmount.Some? then JString(o.rawTokenAmount.value) else JNull),
     Field(Str("dataSha256"), JString(hex(o.dataSha256)))]
  }

  function BalanceRecords(
      base58: Key -> Text, hex: Digest -> Text, accounts: seq<Observation>): (records: seq<seq<Field>>)
    ensures |records| == |accounts|
  {
    seq(|accounts|, i requires 0 <= i < |accounts| => BalanceRecord(base58, hex, accounts[i]))
  }

  function RawBalanceRoot(
      h: HashFn, le: Comparator, base58: Key -> Text, hex: Digest -> Text, accounts: seq<Observation>): Option<Digest>
  {
    RecordRoot(h, le, Ascii("AMOEBA_EXTERNAL_BALANCE_LEAF_V3"), Ascii("AMOEBA_EXTERNAL_BALANCE_ROOT_V3"),
      BalanceRecords(base58, hex, accounts))
  }

  ghost function BalanceInputs(
      h: HashFn, le: Comparator, base58: Key -> Text, hex: Digest -> Text, accounts: seq<Observation>): set<Bytes>
  {
    RecordInputs(h, le, Ascii("AMOEBA_EXTERNAL_BALANCE_LEAF_V3"), Ascii("AMOEBA_EXTERNAL_BALANCE_ROOT_V3"),
      BalanceRecords(base58, hex, accounts))
  }

  /** The zeroed-amount images hashed while validating an inventory's token accounts. */
  ghost function Images(accounts: seq<Observation>): set<Bytes> {
    set i | 0 <= i < |accounts| && accounts[i].data.Some?
      && |accounts[i].data.value| >= TOKEN_BASE_LENGTH :: NormalizedImage(accounts[i].data.value)
  }

  /** Token data is recovered from its zeroed-amount image and the amount. */
  lemma ImageAndAmount(a: Bytes, b: Bytes)
    requires |a| >= TOKEN_BASE_LENGTH && |b| >= TOKEN_BASE_LENGTH && NormalizedImage(a) == NormalizedImage(b)
    requires FromLE(a[AMOUNT_OFFSET..AMOUNT_OFFSET + 8]) == FromLE(b[AMOUNT_OFFSET..AMOUNT_OFFSET + 8])
    ensures a == b
  {
    var n := AMOUNT_OFFSET + 8;
    var x, y := a[AMOUNT_OFFSET..n], b[AMOUNT_OFFSET..n];
    var a', b' := a[..AMOUNT_OFFSET], b[..AMOUNT_OFFSET];
    assert NormalizedImage(a) == a' + (Zeros(8) + a[n..]) && NormalizedImage(b) == b' + (Zeros(8) + b[n..]);
    hide NormalizedImage, Zeros, FromLE;
    LEOfFromLE(x);
    LEOfFromLE(y);
    SplitAt(a', Zeros(8) + a[n..], b', Zeros(8) + b[n..]);
    SplitAt(Zeros(8), a[n..], Zeros(8), b[n..]);
    ThreeParts(a, AMOUNT_OFFSET, n);
    ThreeParts(b, AMOUNT_OFFSET, n);
  }

  lemma ThreeParts(a: Bytes, lo: nat, hi: nat)
    requires lo <= hi <= |a|
    ensures a == a[..lo] + a[lo..hi] + a[hi..]
  {
  }

  /** An account that gives no entry is the same account with the same balances and the same data. */
  lemma NoEntrySameBalance(h: HashFn, before: Observation, after: Observation, images: set<Bytes>)
    requires NoLoss(before, after) && ValidObservation(h, before) && ValidObservation(h, after)
      && StepDrift(before, after) == []
    requires CollisionFree(h, images)
    requires before.data.Some? && |before.data.value| >= TOKEN_BASE_LENGTH ==>
      NormalizedImage(before.data.value) in images
    requires after.data.Some? && |after.data.value| >= TOKEN_BASE_LENGTH ==> NormalizedImage(after.data.value) in images
    ensures before.lamports == after.lamports && before.rawTokenAmount == after.rawTokenAmount
      && before.dataSha256 == after.dataSha256
  {
    hide NormalizedImage, IsCanonicalDecimal;
    ParseU64Injective(before.lamports, after.lamports);
    if before.assetKind.Token? {
      ParseU64Injective(before.rawTokenAmount.value, after.rawTokenAmount.value);
      ImageAndAmount(before.data.value, after.data.value);
    }
  }

  lemma {:induction false} NoDriftNoStep(pre: seq<Observation>, post: seq<Observation>, i: nat)
    requires AllNoLoss(pre, post) && DriftOf(pre, post) == [] && i < |pre|
    ensures StepDrift(pre[i], post[i]) == []
  {
    hide StepDrift, NoLoss;
    var n := |pre| - 1;
    assert |DriftOf(pre, post)| == |DriftOf(pre[..n], post[..n])| + |StepDrift(pre[n], post[n])|;
    if i < n { NoDriftNoStep(pre[..n], post[..n], i); }
  }

  /** If the derivation accepts and emits nothing, the two raw-balance roots are equal. */
  lemma EmptyDriftEqualRoots(
      h: HashFn, le: Comparator, base58: Key -> Text, hex: Digest -> Text, pre: ObservationSet, post: ObservationSet)
    requires DriftAccepted(h, pre, post) && DriftOf(pre.accounts, post.accounts) == []
    requires CollisionFree(h, Images(pre.accounts) + Images(post.accounts))
    ensures RawBalanceRoot(h, le, base58, hex, pre.accounts) == RawBalanceRoot(h, le, base58, hex, post.accounts)
  {
    var a, b := pre.accounts, post.accounts;
    hide ValidObservation, NormalizedImage, StepDrift, RecordRoot, Ascii, Str;
    forall i | 0 <= i < |a| ensures BalanceRecord(base58, hex, a[i]) == BalanceRecord(base58, hex, b[i]) {
      NoDriftNoStep(a, b, i);
      NoEntrySameBalance(h, a[i], b[i], Images(a) + Images(b));
    }
    assert BalanceRecords(base58, hex, a) == BalanceRecords(base58, hex, b);
  }

  lemma BalanceRecordFields(base58: Key -> Text, hex: Digest -> Text, o: Observation)
    ensures Str("lamports") in FieldMap(BalanceRecord(base58, hex, o))
    ensures FieldMap(BalanceRecord(base58, hex, o))[Str("lamports")] == MString(o.lamports)
    ensures Str("rawTokenAmount") in FieldMap(BalanceRecord(base58, hex, o))
    ensures FieldMap(BalanceRecord(base58, hex, o))[Str("rawTokenAmount")]
      == if o.rawTokenAmount.Some? then MString(o.rawTokenAmount.value) else MNull
    ensures forall i: nat :: i <= MAX_ACCOUNTS ==>
      Accepted(Indexed(i, BalanceRecord(base58, hex, o))) && DistinctKeys(Indexed(i, BalanceRecord(base58, hex, o)))
  {
    assert |Str("index")| == 5 && |Str("account")| == 7 && |Str("lamports")| == 8 && |Str("rawTokenAmount")| == 14
      && |Str("dataSha256")| == 10;
    hide Str;
    var record := BalanceRecord(base58, hex, o);
    assert Distinct(record);
    FieldMapAt(record, 1);
    FieldMapAt(record, 2);
    forall i: nat | i <= MAX_ACCOUNTS ensures Accepted(Indexed(i, record)) && DistinctKeys(Indexed(i, record)) {
      var fields := [Field(Str("index"), JNumber(i))] + record;
      assert Distinct(fields);
    }
  }

  lemma {:induction false} NoStepNoDrift(pre: seq<Observation>, post: seq<Observation>)
    requires AllNoLoss(pre, post) && forall i :: 0 <= i < |pre| ==> StepDrift(pre[i], post[i]) == []
    ensures DriftOf(pre, post) == []
  {
    hide StepDrift, NoLoss;
    if pre != [] { NoStepNoDrift(pre[..|pre| - 1], post[..|post| - 1]); }
  }

  /** Conversely equal raw-balance roots leave nothing to emit. */
  lemma EqualRootsEmptyDrift(
      h: HashFn, le: Comparator, base58: Key -> Text, hex: Digest -> Text, pre: ObservationSet, post: ObservationSet)
    requires DriftAccepted(h, pre, post)
    requires RawBalanceRoot(h, le, base58, hex, pre.accounts) == RawBalanceRoot(h, le, base58, hex, post.accounts)
    requires CollisionFree(h, BalanceInputs(h, le, base58, hex, pre.accounts)
      + BalanceInputs(h, le, base58, hex, post.accounts))
    ensures DriftOf(pre.accounts, post.accounts) == []
  {
    var a, b := pre.accounts, post.accounts;
    var ra, rb := BalanceRecords(base58, hex, a), BalanceRecords(base58, hex, b);
    hide ValidObservation, StrictlySorted, RecordInputs, Ascii, Str, BalanceRecord, Indexed, Accepted, DistinctKeys,
      FieldMap;
    forall i | 0 <= i < |a|
      ensures Accepted(Indexed(i, ra[i])) && DistinctKeys(Indexed(i, ra[i])) && Accepted(Indexed(i, rb[i]))
        && DistinctKeys(Indexed(i, rb[i]))
    {
      BalanceRecordFields(base58, hex, a[i]);
      BalanceRecordFields(base58, hex, b[i]);
    }
    RecordRootBinds(h, le, Ascii("AMOEBA_EXTERNAL_BALANCE_LEAF_V3"), Ascii("AMOEBA_EXTERNAL_BALANCE_ROOT_V3"), ra, rb);
    forall i | 0 <= i < |a| ensures StepDrift(a[i], b[i]) == [] {
      BalanceRecordFields(base58, hex, a[i]);
      BalanceRecordFields(base58, hex, b[i]);
      assert FieldMap(ra[i]) == FieldMap(rb[i]);
      SameAmountsNoStep(a[i], b[i]);
    }
    NoStepNoDrift(a, b);
  }

  lemma SameAmountsNoStep(before: Observation, after: Observation)
    requires NoLoss(before, after) && before.lamports == after.lamports && before.rawTokenAmount == after.rawTokenAmount
    ensures StepDrift(before, after) == []
  {
    hide ParseU64;
  }

  // ---------- the metadata root ----------

  function KindText(kind: AssetKind): Text {
    match kind case Lamports => Str("lamports") case Token => Str("token") case UnknownAsset => Str("")
  }

  function KeyText(base58: Key -> Text, key: Option<Key>): Json {
    if key.Some? then JString(base58(key.value)) else JNull
  }

  function StateText(state: Option<TokenState>): Json {
    match state
    case Some(Initialized) => JString(Str("initialized"))
    case Some(Frozen) => JString(Str("frozen"))
    case None => JNull
  }

  /** The record a metadata leaf hashes. */
  function MetadataRecord(base58: Key -> Text, hex: Digest -> Text, o: Observation): seq<Field> {
    [Field(Str("account"), JString(base58(o.account))), Field(Str("owner"), JString(base58(o.owner))),
     Field(Str("executable"), JBool(o.executable)), Field(Str("dataLength"), JNumber(o.dataLength)),
     Field(Str("assetKind"), JString(KindText(o.assetKind))),
       Field(Str("tokenProgram"), KeyText(base58, o.tokenProgram)),
     Field(Str("mint"), KeyText(base58, o.mint)), Field(Str("authority"), KeyText(base58, o.authority)),
     Field(Str("tokenState"), StateText(o.tokenState)),
     Field(Str("normalizedSemanticSha256"), JString(hex(o.normalizedSemanticSha256)))]
  }

  function MetadataRecords(
      base58: Key -> Text, hex: Digest -> Text, accounts: seq<Observation>): (records: seq<seq<Field>>)
    ensures |records| == |accounts|
  {
    seq(|accounts|, i requires 0 <= i < |accounts| => MetadataRecord(base58, hex, accounts[i]))
  }

  function MetadataRoot(
      h: HashFn, le: Comparator, base58: Key -> Text, hex: Digest -> Text, accounts: seq<Observation>): Option<Digest>
  {
    RecordRoot(h, le, Ascii("AMOEBA_EXTERNAL_METADATA_LEAF_V3"), Ascii("AMOEBA_EXTERNAL_METADATA_ROOT_V3"),
               MetadataRecords(base58, hex, accounts))
  }

  ghost function MetadataInputs(
      h: HashFn, le: Comparator, base58: Key -> Text, hex: Digest -> Text, accounts: seq<Observation>): set<Bytes>
  {
    RecordInputs(h, le, Ascii("AMOEBA_EXTERNAL_METADATA_LEAF_V3"), Ascii("AMOEBA_EXTERNAL_METADATA_ROOT_V3"),
                 MetadataRecords(base58, hex, accounts))
  }

  /** The text of a key or a hash stands for one value. */
  ghost predicate Injective(text: Digest -> Text) {
    forall a, b :: text(a) == text(b) ==> a == b
  }

  ghost predicate AllValid(h: HashFn, accounts: seq<Observation>) {
    |accounts| <= MAX_ACCOUNTS && forall i :: 0 <= i < |accounts| ==> ValidObservation(h, accounts[i])
  }

  lemma MetadataKeysDistinct(base58: Key -> Text, hex: Digest -> Text, o: Observation, i: nat)
    ensures Distinct([Field(Str("index"), JNumber(i))] + MetadataRecord(base58, hex, o))
  {
    assert |Str("index")| == 5 && Str("index")[0] == 105 && |Str("account")| == 7 && |Str("owner")| == 5
      && Str("owner")[0] == 111;
    assert |Str("executable")| == 10 && Str("executable")[0] == 101 && |Str("dataLength")| == 10
      && Str("dataLength")[0] == 100;
    assert |Str("assetKind")| == 9 && Str("assetKind")[1] == 115 && |Str("tokenProgram")| == 12 && |Str("mint")| == 4;
    assert |Str("authority")| == 9 && Str("authority")[1] == 117 && |Str("tokenState")| == 10
      && Str("tokenState")[0] == 116;
    assert |Str("normalizedSemanticSha256")| == 24;
    hide Str, KindText, KeyText, StateText;
  }

  lemma MetadataAccepted(h: HashFn, base58: Key -> Text, hex: Digest -> Text, o: Observation, i: nat)
    requires ValidObservation(h, o) && i <= MAX_ACCOUNTS
    ensures Accepted(Indexed(i, MetadataRecord(base58, hex, o)))
      && DistinctKeys(Indexed(i, MetadataRecord(base58, hex, o)))
  {
    hide Str, KindText, Distinct;
    MetadataKeysDistinct(base58, hex, o, i);
  }

  /** Equal field maps of two records with the same keys in the same places hold equal values there. */
  lemma SameValueAt(a: seq<Field>, b: seq<Field>, i: nat)
    requires Distinct(a) && Distinct(b) && FieldMap(a) == FieldMap(b) && i < |a| && i < |b| && a[i].key == b[i].key
    ensures MeaningOf(a[i].value) == MeaningOf(b[i].value)
  {
    hide FieldMap, MeaningOf;
    FieldMapAt(a, i);
    FieldMapAt(b, i);
  }

  lemma KeyTextInjective(base58: Key -> Text, a: Option<Key>, b: Option<Key>)
    requires Injective(base58) && MeaningOf(KeyText(base58, a)) == MeaningOf(KeyText(base58, b))
    ensures a == b
  {
  }

  lemma KindTextInjective(a: AssetKind, b: AssetKind)
    requires a != UnknownAsset && b != UnknownAsset && KindText(a) == KindText(b)
    ensures a == b
  {
    assert |KindText(Lamports)| == 8 && |KindText(Token)| == 5;
  }

  lemma StateTextInjective(a: Option<TokenState>, b: Option<TokenState>)
    requires MeaningOf(StateText(a)) == MeaningOf(StateText(b))
    ensures a == b
  {
    assert |Str("initialized")| == 11 && |Str("frozen")| == 6;
  }

  lemma MetadataValues(base58: Key -> Text, hex: Digest -> Text, o: Observation)
    ensures var x := MetadataRecord(base58, hex, o);
      && |x| == 10
      && x[0].value == JString(base58(o.account)) && x[1].value == JString(base58(o.owner))
      && x[2].value == JBool(o.executable) && x[3].value == JNumber(o.dataLength)
      && x[4].value == JString(KindText(o.assetKind)) && x[5].value == KeyText(base58, o.tokenProgram)
      && x[6].value == KeyText(base58, o.mint) && x[7].value == KeyText(base58, o.authority)
      && x[8].value == StateText(o.tokenState) && x[9].value == JString(hex(o.normalizedSemanticSha256))
  {
    hide Str, KindText, KeyText, StateText;
  }

  lemma MetadataDistinct(base58: Key -> Text, hex: Digest -> Text, o: Observation)
    ensures Distinct(MetadataRecord(base58, hex, o))
  {
    hide MetadataRecord, Str;
    MetadataKeysDistinct(base58, hex, o, 0);
    var x := MetadataRecord(base58, hex, o);
    var all := [Field(Str("index"), JNumber(0))] + x;
    assert forall i :: 0 <= i < |x| ==> x[i] == all[i + 1];
  }

  lemma ScalarMeanings()
    ensures forall t :: MeaningOf(JString(t)) == MString(t)
    ensures forall n :: MeaningOf(JNumber(n)) == MNumber(n)
    ensures forall b :: MeaningOf(JBool(b)) == MBool(b)
  {
  }

  lemma MetadataKeys(base58: Key -> Text, hex: Digest -> Text, a: Observation, b: Observation)
    ensures |MetadataRecord(base58, hex, a)| == |MetadataRecord(base58, hex, b)| == 10
    ensures forall i :: 0 <= i < 10 ==> MetadataRecord(base58, hex, a)[i].key == MetadataRecord(base58, hex, b)[i].key
  {
    hide Str, KindText, KeyText, StateText;
  }

  /** What a valid account's metadata record says fixes its identity. */
  lemma RecordFixesIdentity(h: HashFn, base58: Key -> Text, hex: Digest -> Text, a: Observation, b: Observation)
    requires Injective(base58) && Injective(hex) && ValidObservation(h, a) && ValidObservation(h, b)
    requires FieldMap(MetadataRecord(base58, hex, a)) == FieldMap(MetadataRecord(base58, hex, b))
    ensures SameIdentity(a, b)
  {
    hide MetadataRecord, FieldMap, MeaningOf, Distinct, KindText, KeyText, StateText, ValidToken, ParseU64;
    var x, y := MetadataRecord(base58, hex, a), MetadataRecord(base58, hex, b);
    MetadataValues(base58, hex, a);
    MetadataValues(base58, hex, b);
    MetadataDistinct(base58, hex, a);
    MetadataDistinct(base58, hex, b);
    ScalarMeanings();
    MetadataKeys(base58, hex, a, b);
    forall i | 0 <= i < 10 ensures MeaningOf(x[i].value) == MeaningOf(y[i].value) { SameValueAt(x, y, i); }
    KeyTextInjective(base58, a.tokenProgram, b.tokenProgram);
    KeyTextInjective(base58, a.mint, b.mint);
    KeyTextInjective(base58, a.authority, b.authority);
    StateTextInjective(a.tokenState, b.tokenState);
    KindTextInjective(a.assetKind, b.assetKind);
  }

  /** Equal metadata roots are exactly equally many accounts of pairwise the same identity: the hard-field
      comparison of the roots and the field comparison of the derivation accept the same inventories. */
  lemma MetadataRootsEqualIff(
    h: HashFn, le: Comparator, base58: Key -> Text, hex: Digest -> Text, a: seq<Observation>, b: seq<Observation>)
    requires Injective(base58) && Injective(hex) && AllValid(h, a) && AllValid(h, b)
    requires CollisionFree(h, MetadataInputs(h, le, base58, hex, a) + MetadataInputs(h, le, base58, hex, b))
    ensures MetadataRoot(h, le, base58, hex, a) == MetadataRoot(h, le, base58, hex, b)
      <==> |a| == |b| && forall i :: 0 <= i < |a| ==> SameIdentity(a[i], b[i])
  {
    var ra, rb := MetadataRecords(base58, hex, a), MetadataRecords(base58, hex, b);
    hide ValidObservation, RecordInputs, Ascii, MetadataRecord, Indexed, Accepted, DistinctKeys, FieldMap, SameIdentity;
    forall i | 0 <= i < |a| ensures Accepted(Indexed(i, ra[i])) && DistinctKeys(Indexed(i, ra[i])) {
      MetadataAccepted(h, base58, hex, a[i], i);
    }
    forall i | 0 <= i < |b| ensures Accepted(Indexed(i, rb[i])) && DistinctKeys(Indexed(i, rb[i])) {
      MetadataAccepted(h, base58, hex, b[i], i);
    }
    if MetadataRoot(h, le, base58, hex, a) == MetadataRoot(h, le, base58, hex, b) {
      RecordRootBinds(h, le, Ascii("AMOEBA_EXTERNAL_METADATA_LEAF_V3"), Ascii("AMOEBA_EXTERNAL_METADATA_ROOT_V3"), ra,
        rb);
      forall i | 0 <= i < |a| ensures SameIdentity(a[i], b[i]) {
        assert FieldMap(ra[i]) == FieldMap(rb[i]);
        RecordFixesIdentity(h, base58, hex, a[i], b[i]);
      }
    }
    if |a| == |b| && forall i :: 0 <= i < |a| ==> SameIdentity(a[i], b[i]) {
      forall i | 0 <= i < |a| ensures ra[i] == rb[i] { SameRecord(base58, hex, a[i], b[i]); }
      assert ra == rb;
    }
  }

  lemma SameRecord(base58: Key -> Text, hex: Digest -> Text, a: Observation, b: Observation)
    requires SameIdentity(a, b)
    ensures MetadataRecord(base58, hex, a) == MetadataRecord(base58, hex, b)
  {
  }

  /** Between valid inventories with equal metadata roots the derivation's identity checks all pass: it
      accepts exactly when no balance drops. */
  lemma BalancesAloneDecide(
      h: HashFn, le: Comparator, base58: Key -> Text, hex: Digest -> Text, pre: ObservationSet, post: ObservationSet)
    requires Injective(base58) && Injective(hex) && pre.context.clusterDomain == post.context.clusterDomain
    requires ValidSet(h, pre, pre.context.clusterDomain) && ValidSet(h, post, pre.context.clusterDomain)
    requires MetadataRoot(h, le, base58, hex, pre.accounts) == MetadataRoot(h, le, base58, hex, post.accounts)
    requires CollisionFree(h, MetadataInputs(h, le, base58, hex, pre.accounts)
      + MetadataInputs(h, le, base58, hex, post.accounts))
    ensures |pre.accounts| == |post.accounts|
    ensures DriftAccepted(h, pre, post) <==> forall i :: 0 <= i < |pre.accounts| ==>
      && LamportsOf(pre.accounts[i]) <= LamportsOf(post.accounts[i])
        && TokensOf(pre.accounts[i]) <= TokensOf(post.accounts[i])
  {
    hide ValidObservation, MetadataRoot, MetadataInputs, SameIdentity, LamportsOf, TokensOf, Injective, InlineBytes,
      StrictlySorted;
    MetadataRootsEqualIff(h, le, base58, hex, pre.accounts, post.accounts);
  }

  // ---------- the leaves, read from outside ----------

  /** The raw-balance root of an inventory: leaf i reads as the account, its two amounts and its data hash. */
  lemma BalanceRootInBytes(
      h: HashFn, le: Comparator, base58: Key -> Text, hex: Digest -> Text, accounts: seq<Observation>)
      returns (leaves: seq<Digest>, texts: seq<Bytes>)
    requires |accounts| <= MAX_ACCOUNTS
    ensures |leaves| == |texts| == |accounts|
    ensures RawBalanceRoot(h, le, base58, hex, accounts)
         == Some(h(Ascii("AMOEBA_EXTERNAL_BALANCE_ROOT_V3") + (LE(|accounts|, 4) + Concat(leaves))))
    ensures forall i :: 0 <= i < |accounts| ==>
      Holds(h, Ascii("AMOEBA_EXTERNAL_BALANCE_LEAF_V3"), leaves[i], texts[i],
        BalanceFields(base58, hex, accounts[i], i))
  {
    hide Ascii, FieldMap, Holds, Str, LE, Concat, BalanceRecord, Indexed, Accepted, DistinctKeys, BalanceFields;
    var records := BalanceRecords(base58, hex, accounts);
    forall i | 0 <= i < |records| ensures Accepted(Indexed(i, records[i])) && DistinctKeys(Indexed(i, records[i])) {
      BalanceRecordFields(base58, hex, accounts[i]);
    }
    leaves, texts := RecordRootInBytes(
      h, le, Ascii("AMOEBA_EXTERNAL_BALANCE_LEAF_V3"), Ascii("AMOEBA_EXTERNAL_BALANCE_ROOT_V3"), records);
    forall i | 0 <= i < |accounts|
      ensures Holds(h, Ascii("AMOEBA_EXTERNAL_BALANCE_LEAF_V3"), leaves[i], texts[i],
        BalanceFields(base58, hex, accounts[i], i))
    {
      assert Holds(h, Ascii("AMOEBA_EXTERNAL_BALANCE_LEAF_V3"), leaves[i], texts[i],
                   FieldMap(records[i])[Str("index") := MNumber(i)]);
      BalanceFieldsAre(base58, hex, accounts[i], i);
    }
  }

  /** What a raw-balance leaf says. */
  function BalanceFields(base58: Key -> Text, hex: Digest -> Text, o: Observation, i: nat): map<Text, Meaning> {
    map[Str("index") := MNumber(i), Str("account") := MString(base58(o.account)),
      Str("lamports") := MString(o.lamports),
        Str("rawTokenAmount") := if o.rawTokenAmount.Some? then MString(o.rawTokenAmount.value) else MNull,
        Str("dataSha256") := MString(hex(o.dataSha256))]
  }

  lemma BalanceKeysApart()
    ensures var keys := [Str("index"), Str("account"), Str("lamports"), Str("rawTokenAmount"), Str("dataSha256")];
      forall i, j :: 0 <= i < j < 5 ==> keys[i] != keys[j]
  {
    assert |Str("index")| == 5 && |Str("account")| == 7 && |Str("lamports")| == 8 && |Str("rawTokenAmount")| == 14;
    assert |Str("dataSha256")| == 10;
    hide Str;
  }

  lemma FieldMapCons(f: Field, rest: seq<Field>)
    ensures FieldMap([f] + rest) == FieldMap(rest)[f.key := MeaningOf(f.value)]
  {
    assert ([f] + rest)[1..] == rest;
  }

  lemma FieldMapNone()
    ensures FieldMap([]) == map[]
  {
  }

  lemma FiveFields(k: seq<Text>, v: seq<Meaning>)
    requires |k| == |v| == 5 && forall i, j :: 0 <= i < j < 5 ==> k[i] != k[j]
    ensures map[][k[4] := v[4]][k[3] := v[3]][k[2] := v[2]][k[1] := v[1]][k[0] := v[0]]
         == map[k[0] := v[0], k[1] := v[1], k[2] := v[2], k[3] := v[3], k[4] := v[4]]
  {
  }

  lemma FieldMapOfFour(a: Field, b: Field, c: Field, d: Field)
    ensures FieldMap([a, b, c, d])
         == map[][d.key := MeaningOf(d.value)][c.key := MeaningOf(c.value)][b.key := MeaningOf(b.value)]
                 [a.key := MeaningOf(a.value)]
  {
    hide FieldMap, MeaningOf;
    FieldMapNone();
    FieldMapCons(d, []);
    FieldMapCons(c, [d]);
    FieldMapCons(b, [c, d]);
    FieldMapCons(a, [b, c, d]);
    assert [d] + [] == [d] && [c] + [d] == [c, d] && [b] + [c, d] == [b, c, d] && [a] + [b, c, d] == [a, b, c, d];
  }

  lemma BalanceFieldsAre(base58: Key -> Text, hex: Digest -> Text, o: Observation, i: nat)
    ensures FieldMap(BalanceRecord(base58, hex, o))[Str("index") := MNumber(i)] == BalanceFields(base58, hex, o, i)
  {
    BalanceKeysApart();
    hide Str, FieldMap;
    var x := BalanceRecord(base58, hex, o);
    FieldMapOfFour(x[0], x[1], x[2], x[3]);
    assert x == [x[0], x[1], x[2], x[3]];
    FiveFields(
      [Str("index"), Str("account"), Str("lamports"), Str("rawTokenAmount"), Str("dataSha256")],
      [MNumber(i), MString(base58(o.account)), MString(o.lamports),
       if o.rawTokenAmount.Some? then MString(o.rawTokenAmount.value) else MNull, MString(hex(o.dataSha256))]);
  }

  predicate Says(m: map<Text, Meaning>, k: Text, v: Meaning) {
    k in m && m[k] == v
  }

  /** What a metadata leaf says: these eleven fields and no others. */
  predicate SaysIdentity(m: map<Text, Meaning>, base58: Key -> Text, hex: Digest -> Text, o: Observation, i: nat) {
    |m| == 11 && Says(m, Str("index"), MNumber(i)) && SaysAccount(m, base58, hex, o) && SaysToken(m, base58, o)
  }

  predicate SaysAccount(m: map<Text, Meaning>, base58: Key -> Text, hex: Digest -> Text, o: Observation) {
    && Says(m, Str("account"), MString(base58(o.account))) && Says(m, Str("owner"), MString(base58(o.owner)))
    && Says(m, Str("executable"), MBool(o.executable)) && Says(m, Str("dataLength"), MNumber(o.dataLength))
    && Says(m, Str("normalizedSemanticSha256"), MString(hex(o.normalizedSemanticSha256)))
  }

  predicate SaysToken(m: map<Text, Meaning>, base58: Key -> Text, o: Observation) {
    && (o.assetKind.Lamports? ==> Says(m, Str("assetKind"), MString(Str("lamports"))))
    && (o.assetKind.Token? ==> Says(m, Str("assetKind"), MString(Str("token"))))
    && Says(m, Str("tokenProgram"), if o.tokenProgram.Some? then MString(base58(o.tokenProgram.value)) else MNull)
    && Says(m, Str("mint"), if o.mint.Some? then MString(base58(o.mint.value)) else MNull)
    && Says(m, Str("authority"), if o.authority.Some? then MString(base58(o.authority.value)) else MNull)
    && (o.tokenState == None ==> Says(m, Str("tokenState"), MNull))
    && (o.tokenState == Some(Initialized) ==> Says(m, Str("tokenState"), MString(Str("initialized"))))
    && (o.tokenState == Some(Frozen) ==> Says(m, Str("tokenState"), MString(Str("frozen"))))
  }

  lemma {:induction false} FieldMapSize(fields: seq<Field>)
    requires Distinct(fields)
    ensures |FieldMap(fields)| == |fields|
  {
    hide MeaningOf;
    if fields != [] {
      var rest := FieldMap(fields[1..]);
      FieldMapSize(fields[1..]);
      assert fields[0].key !in rest by {
        if fields[0].key in rest { var j := FieldMapKey(fields[1..], fields[0].key); }
      }
      assert FieldMap(fields).Keys == rest.Keys + {fields[0].key};
    }
  }

  lemma SaidAt(fields: seq<Field>, j: nat)
    requires Distinct(fields) && j < |fields|
    ensures Says(FieldMap(fields), fields[j].key, MeaningOf(fields[j].value))
  {
    hide FieldMap, MeaningOf;
    FieldMapAt(fields, j);
  }

  lemma TextsMean(base58: Key -> Text)
    ensures forall k :: MeaningOf(KeyText(base58, k)) == if k.Some? then MString(base58(k.value)) else MNull
    ensures MeaningOf(StateText(None)) == MNull
    ensures MeaningOf(StateText(Some(Initialized))) == MString(Str("initialized"))
    ensures MeaningOf(StateText(Some(Frozen))) == MString(Str("frozen"))
    ensures KindText(Lamports) == Str("lamports") && KindText(Token) == Str("token")
  {
    hide Str;
  }

  lemma AccountIsSaid(m: map<Text, Meaning>, base58: Key -> Text, hex: Digest -> Text, o: Observation)
    requires var x := MetadataRecord(base58, hex, o);
      forall j :: 0 <= j < 10 ==> Says(m, x[j].key, MeaningOf(x[j].value))
    ensures SaysAccount(m, base58, hex, o)
  {
    hide Str, KindText, KeyText, StateText, Says;
    var x := MetadataRecord(base58, hex, o);
    assert x[0].key == Str("account") && x[1].key == Str("owner") && x[2].key == Str("executable");
    assert x[3].key == Str("dataLength") && x[9].key == Str("normalizedSemanticSha256");
  }

  lemma TokenIsSaid(m: map<Text, Meaning>, base58: Key -> Text, hex: Digest -> Text, o: Observation)
    requires var x := MetadataRecord(base58, hex, o);
      forall j :: 0 <= j < 10 ==> Says(m, x[j].key, MeaningOf(x[j].value))
    ensures SaysToken(m, base58, o)
  {
    TextsMean(base58);
    hide Str, KindText, KeyText, StateText, Says;
    var x := MetadataRecord(base58, hex, o);
    assert x[4].key == Str("assetKind") && x[5].key == Str("tokenProgram") && x[6].key == Str("mint");
    assert x[7].key == Str("authority") && x[8].key == Str("tokenState");
  }

  lemma IdentityIsSaid(base58: Key -> Text, hex: Digest -> Text, o: Observation, i: nat)
    ensures SaysIdentity(FieldMap(MetadataRecord(base58, hex, o))[Str("index") := MNumber(i)], base58, hex, o, i)
  {
    hide Str, FieldMap, Distinct, Says, SaysAccount, SaysToken, MetadataRecord;
    var x := MetadataRecord(base58, hex, o);
    MetadataKeys(base58, hex, o, o);
    var index := Field(Str("index"), JNumber(i));
    var all := [index] + x;
    MetadataKeysDistinct(base58, hex, o, i);
    FieldMapCons(index, x);
    FieldMapSize(all);
    SaidAt(all, 0);
    forall j | 0 <= j < 10 ensures Says(FieldMap(all), x[j].key, MeaningOf(x[j].value)) { SaidAt(all, j + 1); }
    AccountIsSaid(FieldMap(all), base58, hex, o);
    TokenIsSaid(FieldMap(all), base58, hex, o);
  }

  /** The metadata root of an inventory: leaf i reads as the account's identity. */
  lemma MetadataRootInBytes(
      h: HashFn, le: Comparator, base58: Key -> Text, hex: Digest -> Text, accounts: seq<Observation>)
      returns (leaves: seq<Digest>, texts: seq<Bytes>, fields: seq<map<Text, Meaning>>)
    requires AllValid(h, accounts)
    ensures |leaves| == |texts| == |fields| == |accounts|
    ensures MetadataRoot(h, le, base58, hex, accounts)
         == Some(h(Ascii("AMOEBA_EXTERNAL_METADATA_ROOT_V3") + (LE(|accounts|, 4) + Concat(leaves))))
    ensures forall i :: 0 <= i < |accounts| ==>
      Holds(h, Ascii("AMOEBA_EXTERNAL_METADATA_LEAF_V3"), leaves[i], texts[i], fields[i])
    ensures forall i :: 0 <= i < |accounts| ==> SaysIdentity(fields[i], base58, hex, accounts[i], i)
  {
    hide Ascii, FieldMap, Holds, Str, LE, Concat, MetadataRecord, Indexed, Accepted, DistinctKeys, SaysIdentity,
      ValidObservation;
    var records := MetadataRecords(base58, hex, accounts);
    forall i | 0 <= i < |records| ensures Accepted(Indexed(i, records[i])) && DistinctKeys(Indexed(i, records[i])) {
      MetadataAccepted(h, base58, hex, accounts[i], i);
    }
    leaves, texts := RecordRootInBytes(
      h, le, Ascii("AMOEBA_EXTERNAL_METADATA_LEAF_V3"), Ascii("AMOEBA_EXTERNAL_METADATA_ROOT_V3"), records);
    fields := seq(|accounts|, i requires 0 <= i < |accounts| => FieldMap(records[i])[Str("index") := MNumber(i)]);
    forall i | 0 <= i < |accounts| ensures SaysIdentity(fields[i], base58, hex, accounts[i], i) {
      IdentityIsSaid(base58, hex, accounts[i], i);
    }
  }
}
