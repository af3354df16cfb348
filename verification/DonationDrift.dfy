/** Balance drift between two inventories of external accounts: what the derivation accepts, that its
    entries are exactly the gains, and that it conserves every balance. */
module DonationDrift {
  import opened ByteStrings
  import opened JsonText
  import opened CanonicalJson
  import opened ReceiptRoots

  type Key = Digest

  const MAX_ACCOUNTS := 4096
  const MAX_INLINE_TOTAL := 4_194_304
  const MAX_INLINE := 262_144
  const MAX_DATA_LENGTH := 10_485_760
  const TOKEN_BASE_LENGTH := 165
  const AMOUNT_OFFSET := 64
  const STATE_OFFSET := 108

  datatype AssetKind = Lamports | Token | UnknownAsset
  datatype TokenState = Initialized | Frozen

  /** An account as a receipt records it.  Keys, hashes and inline data are their bytes; amounts are
      the decimal strings themselves. */
  datatype Observation = Observation(
    account: Key, owner: Key, executable: bool, lamports: Text, dataLength: int, dataSha256: Digest,
      data: Option<Bytes>,
    assetKind: AssetKind, tokenProgram: Option<Key>, mint: Option<Key>, authority: Option<Key>,
    tokenState: Option<TokenState>, rawTokenAmount: Option<Text>, normalizedSemanticSha256: Digest)

  datatype Context = Context(finalized: bool, clusterDomain: Digest, slot: Text, blockHash: Digest, blockTimeUnix: Text)
  datatype ObservationSet = ObservationSet(context: Context, accounts: seq<Observation>)

  // ---------- canonical decimal u64 strings ----------

  function ParseU64(t: Text): Option<nat> {
    if IsCanonicalDecimal(t) && DecimalValue(t) < U64_LIMIT then Some(DecimalValue(t)) else None
  }

  /** Equal values have equal strings. */
  lemma ParseU64Injective(s: Text, t: Text)
    requires ParseU64(s).Some? && ParseU64(s) == ParseU64(t)
    ensures s == t
  {
    DecimalOfValue(s);
    DecimalOfValue(t);
  }

  // ---------- validation of one inventory ----------

  /** `Buffer.compare(a, b) < 0`. */
  predicate LexLess(a: Bytes, b: Bytes) {
    b != [] && (a == [] || a[0] < b[0] || (a[0] == b[0] && LexLess(a[1..], b[1..])))
  }

  lemma {:induction false} LexTransitive(a: Bytes, b: Bytes, c: Bytes)
    requires LexLess(a, b) && LexLess(b, c)
    ensures LexLess(a, c)
  {
    if a != [] && a[0] == b[0] == c[0] { LexTransitive(a[1..], b[1..], c[1..]); }
  }

  lemma {:induction false} LexIrreflexive(a: Bytes)
    ensures !LexLess(a, a)
  {
    if a != [] { LexIrreflexive(a[1..]); }
  }

  /** `a` ends where `b` goes on, or has the smaller byte, at the first place where they differ. */
  predicate SmallerAt(a: Bytes, b: Bytes, p: nat) {
    p <= |a| && p < |b| && a[..p] == b[..p] && (p == |a| || a[p] < b[p])
  }

  lemma {:induction false} LexLessIff(a: Bytes, b: Bytes)
    ensures LexLess(a, b) <==> exists p: nat :: SmallerAt(a, b, p)
  {
    if a == [] || b == [] || a[0] != b[0] {
      if LexLess(a, b) { assert SmallerAt(a, b, 0); }
      if p: nat :| SmallerAt(a, b, p) { assert p == 0 || a[..p][0] == b[..p][0]; }
    } else {
      LexLessIff(a[1..], b[1..]);
      if LexLess(a, b) {
        var p: nat :| SmallerAt(a[1..], b[1..], p);
        SmallerStep(a, b, p);
      } else if p: nat :| SmallerAt(a, b, p) {
        SmallerStep(a, b, p - 1);
      }
    }
  }

  lemma SmallerStep(a: Bytes, b: Bytes, p: nat)
    requires a != [] && b != [] && a[0] == b[0]
    ensures SmallerAt(a, b, p + 1) <==> SmallerAt(a[1..], b[1..], p)
  {
    if p + 1 <= |a| && p + 1 < |b| {
      assert a[..p + 1] == [a[0]] + a[1..][..p] && b[..p + 1] == [b[0]] + b[1..][..p];
      assert a[1..][..p] == a[..p + 1][1..] && b[1..][..p] == b[..p + 1][1..];
    }
  }

  /** Token-account bytes with the amount zeroed. */
  function NormalizedImage(data: Bytes): Bytes
    requires |data| >= TOKEN_BASE_LENGTH
  {
    data[..AMOUNT_OFFSET] + (Zeros(8) + data[AMOUNT_OFFSET + 8..])
  }

  predicate ValidToken(h: HashFn, o: Observation) {
    && o.data.Some? && |o.data.value| >= TOKEN_BASE_LENGTH && !o.executable
    && o.tokenProgram == Some(o.owner)
    && o.mint == Some(o.data.value[..32]) && o.authority == Some(o.data.value[32..64])
    && o.rawTokenAmount.Some?
    && ParseU64(o.rawTokenAmount.value) == Some(FromLE(o.data.value[AMOUNT_OFFSET..AMOUNT_OFFSET + 8]))
    && o.tokenState == (match o.data.value[STATE_OFFSET]
                        case 1 => Some(Initialized)
                        case 2 => Some(Frozen)
                        case _ => None)
    && o.tokenState.Some?
    && h(NormalizedImage(o.data.value)) == o.normalizedSemanticSha256
  }

  /** A token account's bytes: mint, authority, amount, 36 bytes, state, at least 56 more. */
  function TokenBytes(mint: Key, authority: Key, amount: Bytes, middle: Bytes, state: Byte, tail: Bytes): Bytes {
    mint + (authority + (amount + (middle + ([state] + tail))))
  }

  /** When a token observation is valid, field by field. */
  lemma TokenLayout(
      h: HashFn, o: Observation, mint: Key, authority: Key, amount: nat, middle: Bytes, state: Byte, tail: Bytes)
    requires amount < U64_LIMIT && |middle| == 36 && |tail| >= 56
    requires o.data == Some(TokenBytes(mint, authority, LE(amount, 8), middle, state, tail))
    ensures ValidToken(h, o)
      <==> && !o.executable && o.tokenProgram == Some(o.owner) && o.mint == Some(mint) && o.authority == Some(authority)
           && o.rawTokenAmount.Some? && ParseU64(o.rawTokenAmount.value) == Some(amount)
           && ((state == 1 && o.tokenState == Some(Initialized)) || (state == 2 && o.tokenState == Some(Frozen)))
           && h(TokenBytes(mint, authority, Zeros(8), middle, state, tail)) == o.normalizedSemanticSha256
  {
    hide LE, FromLE, ParseU64, Zeros;
    Limits();
    FromLEOfLE(amount, 8);
    TokenSlices(mint, authority, LE(amount, 8), middle, state, tail);
  }

  lemma TokenSlices(mint: Key, authority: Key, amount: Bytes, middle: Bytes, state: Byte, tail: Bytes)
    requires |amount| == 8 && |middle| == 36 && |tail| >= 56
    ensures var data := TokenBytes(mint, authority, amount, middle, state, tail);
      && |data| >= 165 && data[..32] == mint && data[32..64] == authority && data[64..72] == amount
        && data[108] == state
      && NormalizedImage(data) == TokenBytes(mint, authority, Zeros(8), middle, state, tail)
  {
    hide Zeros;
    var rest := middle + ([state] + tail);
    var data := TokenBytes(mint, authority, amount, middle, state, tail);
    assert data == mint + authority + amount + rest;
    assert data[..64] == mint + authority && data[72..] == rest && rest[36] == state;
    assert (mint + authority) + (Zeros(8) + rest) == mint + (authority + (Zeros(8) + rest));
  }

  predicate ValidObservation(h: HashFn, o: Observation) {
    && ParseU64(o.lamports).Some? && 0 <= o.dataLength <= MAX_DATA_LENGTH
    && (o.data.Some? ==> |o.data.value| <= MAX_INLINE && |o.data.value| == o.dataLength)
    && (o.data.Some? ==> h(o.data.value) == o.dataSha256)
    && match o.assetKind
       case Lamports => o.tokenProgram.None? && o.mint.None? && o.authority.None? && o.tokenState.None?
         && o.rawTokenAmount.None?
                        && o.normalizedSemanticSha256 == o.dataSha256
       case Token => ValidToken(h, o)
       case UnknownAsset => false
  }

  function InlineBytes(accounts: seq<Observation>): nat {
    if accounts == [] then 0
    else InlineBytes(accounts[..|accounts| - 1])
         + InlineSize(accounts[|accounts| - 1])
  }

  predicate StrictlySorted(accounts: seq<Observation>) {
    forall i, j :: 0 <= i < j < |accounts| ==> LexLess(accounts[i].account, accounts[j].account)
  }

  predicate ValidContext(c: Context, clusterDomain: Digest) {
    c.finalized && c.clusterDomain == clusterDomain && ParseU64(c.slot).Some? && ParseU64(c.blockTimeUnix).Some?
  }

  /** Every two accounts are in order, not only neighbours, and the inline total is bounded. */
  predicate ValidSet(h: HashFn, s: ObservationSet, clusterDomain: Digest) {
    && ValidContext(s.context, clusterDomain) && |s.accounts| <= MAX_ACCOUNTS
    && (forall i :: 0 <= i < |s.accounts| ==> ValidObservation(h, s.accounts[i]))
    && StrictlySorted(s.accounts) && InlineBytes(s.accounts) <= MAX_INLINE_TOTAL
  }

  lemma {:induction false} InlineIsSum(accounts: seq<Observation>)
    ensures InlineBytes(accounts) == |Inlined(accounts)|
  {
    if accounts != [] { InlineIsSum(accounts[..|accounts| - 1]); }
  }

  /** All inline data of an inventory, one after the other. */
  function Inlined(accounts: seq<Observation>): Bytes {
    if accounts == [] then []
    else
      var last := accounts[|accounts| - 1];
      Inlined(accounts[..|accounts| - 1]) + (if last.data.Some? then last.data.value else [])
  }

  /** What every accepted inventory satisfies, in numbers. */
  lemma InventoryBounds(h: HashFn, s: ObservationSet, clusterDomain: Digest, i: nat)
    requires ValidSet(h, s, clusterDomain) && i < |s.accounts|
    ensures |s.accounts| <= 4096 && |Inlined(s.accounts)| <= 4_194_304
    ensures 0 <= s.accounts[i].dataLength <= 10_485_760
    ensures s.accounts[i].data.Some? ==> |s.accounts[i].data.value| == s.accounts[i].dataLength <= 262_144
  {
    hide ValidContext, ValidToken, LexLess, InlineBytes, Inlined, ParseU64;
    InlineIsSum(s.accounts);
    assert ValidObservation(h, s.accounts[i]);
  }

  /** The keys of any two accounts of an accepted inventory differ, first in a smaller byte of the earlier one. */
  lemma AccountsAscend(h: HashFn, s: ObservationSet, clusterDomain: Digest, i: nat, j: nat) returns (p: nat)
    requires ValidSet(h, s, clusterDomain) && i < j < |s.accounts|
    ensures var a, b := s.accounts[i].account, s.accounts[j].account;
      p < 32 && a[..p] == b[..p] && a[p] < b[p]
  {
    hide ValidContext, ValidObservation, LexLess, InlineBytes;
    assert LexLess(s.accounts[i].account, s.accounts[j].account);
    LexLessIff(s.accounts[i].account, s.accounts[j].account);
    p :| SmallerAt(s.accounts[i].account, s.accounts[j].account, p);
  }

  /** A token-free observation carries no token field, and its normalized hash is the hash of its data. */
  lemma PlainObservation(h: HashFn, o: Observation, data: Bytes)
    requires o.assetKind.Lamports? && o.data == Some(data) && |data| <= 262_144
    ensures ValidObservation(h, o)
      <==> && o.dataLength == |data| && ParseU64(o.lamports).Some?
           && o.tokenProgram == o.mint == o.authority == None && o.tokenState == None && o.rawTokenAmount == None
           && o.dataSha256 == o.normalizedSemanticSha256 == h(data)
  {
    hide ParseU64;
  }

  lemma {:induction false} InlineMonotone(accounts: seq<Observation>, n: nat)
    requires n <= |accounts|
    ensures InlineBytes(accounts[..n]) <= InlineBytes(accounts)
  {
    if n < |accounts| {
      InlineMonotone(accounts[..|accounts| - 1], n);
      assert accounts[..|accounts| - 1][..n] == accounts[..n];
    } else {
      assert accounts[..n] == accounts;
    }
  }

  lemma ExtendSorted(accounts: seq<Observation>, i: nat)
    requires i < |accounts| && StrictlySorted(accounts[..i])
    requires i > 0 ==> LexLess(accounts[i - 1].account, accounts[i].account)
    ensures StrictlySorted(accounts[..i + 1])
  {
    hide LexLess;
    forall j | 0 <= j < i ensures LexLess(accounts[j].account, accounts[i].account) {
      if j < i - 1 {
        assert LexLess(accounts[..i][j].account, accounts[..i][i - 1].account);
        LexTransitive(accounts[j].account, accounts[i - 1].account, accounts[i].account);
      }
    }
    var longer := accounts[..i + 1];
    forall j, k | 0 <= j < k < |longer| ensures LexLess(longer[j].account, longer[k].account) {
      if k < i { assert LexLess(accounts[..i][j].account, accounts[..i][k].account); }
    }
  }

  function InlineSize(o: Observation): nat {
    if o.data.Some? then |o.data.value| else 0
  }

  lemma InlineStep(accounts: seq<Observation>, i: nat)
    requires i < |accounts|
    ensures InlineBytes(accounts[..i + 1]) == InlineBytes(accounts[..i])
      + InlineSize(accounts[i]) <= InlineBytes(accounts)
  {
    InlineMonotone(accounts, i + 1);
    assert accounts[..i + 1][..i] == accounts[..i];
  }

  lemma OutOfOrder(accounts: seq<Observation>, i: nat)
    requires 0 < i < |accounts| && StrictlySorted(accounts)
    ensures LexLess(accounts[i - 1].account, accounts[i].account)
  {
  }

  /** One pass with the previous key and the running total of inline bytes. */
  method ValidateExternalObservationSet(h: HashFn, s: ObservationSet, clusterDomain: Digest) returns (ok: bool)
    ensures ok <==> ValidSet(h, s, clusterDomain)
  {
    hide ValidObservation, LexLess, StrictlySorted, InlineBytes, ValidContext;
    if !ValidContext(s.context, clusterDomain) || |s.accounts| > MAX_ACCOUNTS { return false; }
    var inline, previous: Option<Key> := 0, None;
    NothingSorted(s.accounts);
    for i := 0 to |s.accounts|
      invariant previous == if i == 0 then None else Some(s.accounts[i - 1].account)
      invariant inline == InlineBytes(s.accounts[..i]) <= MAX_INLINE_TOTAL
      invariant forall j :: 0 <= j < i ==> ValidObservation(h, s.accounts[j])
      invariant StrictlySorted(s.accounts[..i])
    {
      var o := s.accounts[i];
      InlineStep(s.accounts, i);
      if previous.Some? && !LexLess(previous.value, o.account) {
        if StrictlySorted(s.accounts) { OutOfOrder(s.accounts, i); }
        return false;
      }
      ExtendSorted(s.accounts, i);
      previous := Some(o.account);
      inline := inline + InlineSize(o);
      if inline > MAX_INLINE_TOTAL || !ValidObservation(h, o) { return false; }
    }
    assert s.accounts[..|s.accounts|] == s.accounts;
    ok := true;
  }

  lemma NothingSorted(accounts: seq<Observation>)
    ensures StrictlySorted(accounts[..0]) && InlineBytes(accounts[..0]) == 0
  {
  }

  // ---------- the drift ----------

  datatype Drift = Drift(account: Key, owner: Key, assetKind: AssetKind, tokenProgram: Option<Key>, mint: Option<Key>,
                         authority: Option<Key>, preAtoms: Text, postAtoms: Text, positiveDeltaAtoms: Text)

  function Value(t: Text): nat {
    if ParseU64(t).Some? then ParseU64(t).value else 0
  }

  function LamportsOf(o: Observation): nat {
    Value(o.lamports)
  }

  function TokensOf(o: Observation): nat {
    if o.assetKind.Token? && o.rawTokenAmount.Some? then Value(o.rawTokenAmount.value) else 0
  }

  predicate SameIdentity(before: Observation, after: Observation) {
    && before.account == after.account && before.owner == after.owner && before.executable == after.executable
    && before.dataLength == after.dataLength && before.assetKind == after.assetKind
      && before.tokenProgram == after.tokenProgram
    && before.mint == after.mint && before.authority == after.authority && before.tokenState == after.tokenState
    && before.normalizedSemanticSha256 == after.normalizedSemanticSha256
    && (before.assetKind.Lamports? ==> before.dataSha256 == after.dataSha256)
  }

  /** The same account, with no balance lower than before. */
  predicate NoLoss(before: Observation, after: Observation) {
    SameIdentity(before, after) && LamportsOf(before) <= LamportsOf(after) && TokensOf(before) <= TokensOf(after)
  }

  function LamportDrift(before: Observation, after: Observation): Drift
    requires LamportsOf(before) <= LamportsOf(after)
  {
    Drift(before.account, before.owner, Lamports, None, None, None, before.lamports, after.lamports,
          Decimal(LamportsOf(after) - LamportsOf(before)))
  }

  function TokenDrift(before: Observation, after: Observation): Drift
    requires TokensOf(before) <= TokensOf(after) && before.rawTokenAmount.Some? && after.rawTokenAmount.Some?
  {
    Drift(before.account, before.owner, Token, before.tokenProgram, before.mint, before.authority,
          before.rawTokenAmount.value, after.rawTokenAmount.value, Decimal(TokensOf(after) - TokensOf(before)))
  }

  /** The entries one account gives. */
  function StepDrift(before: Observation, after: Observation): seq<Drift>
    requires NoLoss(before, after)
  {
    (if LamportsOf(before) < LamportsOf(after) then [LamportDrift(before, after)] else [])
    + (if TokensOf(before) < TokensOf(after) && before.rawTokenAmount.Some? then [TokenDrift(before, after)] else [])
  }

  predicate AllNoLoss(pre: seq<Observation>, post: seq<Observation>) {
    |pre| == |post| && forall i :: 0 <= i < |pre| ==> NoLoss(pre[i], post[i])
  }

  function DriftOf(pre: seq<Observation>, post: seq<Observation>): seq<Drift>
    requires AllNoLoss(pre, post)
  {
    if pre == [] then []
    else DriftOf(pre[..|pre| - 1], post[..|post| - 1]) + StepDrift(pre[|pre| - 1], post[|post| - 1])
  }

  /** When the derivation accepts. */
  predicate DriftAccepted(h: HashFn, pre: ObservationSet, post: ObservationSet) {
    && pre.context.clusterDomain == post.context.clusterDomain
    && ValidSet(h, pre, pre.context.clusterDomain) && ValidSet(h, post, pre.context.clusterDomain)
    && AllNoLoss(pre.accounts, post.accounts)
  }

  /** One account's comparison: the checks in order, then at most two entries. */
  method CompareAccount(h: HashFn, before: Observation, after: Observation) returns (r: Option<seq<Drift>>)
    requires ValidObservation(h, before) && ValidObservation(h, after)
    ensures r.Some? <==> NoLoss(before, after)
    ensures r.Some? ==> r.value == StepDrift(before, after)
    ensures r.Some? ==> forall k :: 0 <= k < |r.value| ==> Explains(r.value[k], before, after)
    ensures r.Some? ==> |r.value| <= 2
    ensures r.Some? && |r.value| == 2 ==> r.value[0].assetKind == Lamports && r.value[1].assetKind == Token
  {
    hide Explains;
    if NoLoss(before, after) { StepExplained(before, after); }
    ValidAmounts(h, before);
    ValidAmounts(h, after);
    hide ValidObservation, Decimal, ParseU64;
    if !SameIdentity(before, after) { return None; }
    var entries: seq<Drift> := [];
    var beforeLamports, afterLamports := ParseU64(before.lamports).value, ParseU64(after.lamports).value;
    if afterLamports < beforeLamports { return None; }
    if afterLamports > beforeLamports { entries := entries + [LamportDrift(before, after)]; }
    if before.assetKind.Token? {
      var beforeTokens, afterTokens := ParseU64(before.rawTokenAmount.value).value,
        ParseU64(after.rawTokenAmount.value).value;
      if afterTokens < beforeTokens { return None; }
      if afterTokens > beforeTokens { entries := entries + [TokenDrift(before, after)]; }
    }
    r := Some(entries);
  }

  lemma DriftStep(a: seq<Observation>, b: seq<Observation>, i: nat)
    requires i < |a| == |b| && AllNoLoss(a[..i], b[..i]) && NoLoss(a[i], b[i])
    ensures AllNoLoss(a[..i + 1], b[..i + 1])
    ensures DriftOf(a[..i + 1], b[..i + 1]) == DriftOf(a[..i], b[..i]) + StepDrift(a[i], b[i])
  {
    hide NoLoss, StepDrift;
    assert a[..i + 1][..i] == a[..i] && b[..i + 1][..i] == b[..i];
    var before, after := a[..i + 1], b[..i + 1];
    forall j | 0 <= j < |before| ensures NoLoss(before[j], after[j]) {
      if j < i { assert NoLoss(a[..i][j], b[..i][j]); }
    }
  }

  method DeriveExternalDonationDrift(
      h: HashFn, pre: ObservationSet, post: ObservationSet) returns (r: Option<seq<Drift>>)
    ensures r.Some? <==> DriftAccepted(h, pre, post)
    ensures r.Some? ==> r.value == DriftOf(pre.accounts, post.accounts)
    ensures r.Some? ==> EntriesInOrder(r.value, pre.accounts, post.accounts)
  {
    hide ValidObservation, StrictlySorted, InlineBytes, ValidContext, NoLoss, StepDrift, EntriesInOrder;
    if pre.context.clusterDomain != post.context.clusterDomain { return None; }
    var preOk := ValidateExternalObservationSet(h, pre, pre.context.clusterDomain);
    if !preOk { return None; }
    var postOk := ValidateExternalObservationSet(h, post, pre.context.clusterDomain);
    if !postOk { return None; }
    var a, b := pre.accounts, post.accounts;
    if |a| != |b| { return None; }
    var donations: seq<Drift> := [];
    for i := 0 to |a|
      invariant AllNoLoss(a[..i], b[..i]) && donations == DriftOf(a[..i], b[..i])
    {
      var entries := CompareAccount(h, a[i], b[i]);
      if entries.None? { return None; }
      DriftStep(a, b, i);
      donations := donations + entries.value;
    }
    assert a[..|a|] == a && b[..|b|] == b;
    DriftInOrder(a, b);
    r := Some(donations);
  }

  lemma ValidAmounts(h: HashFn, o: Observation)
    requires ValidObservation(h, o)
    ensures ParseU64(o.lamports).Some?
    ensures o.assetKind.Token? ==> o.rawTokenAmount.Some? && ParseU64(o.rawTokenAmount.value).Some?
  {
  }

  // ---------- conservation ----------

  function TotalLamports(accounts: seq<Observation>): nat {
    if accounts == [] then 0 else TotalLamports(accounts[..|accounts| - 1]) + LamportsOf(accounts[|accounts| - 1])
  }

  function TotalTokens(accounts: seq<Observation>, mint: Key): nat {
    if accounts == [] then 0
    else TotalTokens(accounts[..|accounts| - 1], mint)
         + (var last := accounts[|accounts| - 1]; if last.mint == Some(mint) then TokensOf(last) else 0)
  }

  function Delta(d: Drift): nat {
    var t := d.positiveDeltaAtoms;
    if forall i :: 0 <= i < |t| ==> IsDigit(t[i]) then DecimalValue(t) else 0
  }

  function DriftLamports(ds: seq<Drift>): nat {
    if ds == [] then 0 else (if ds[0].assetKind.Lamports? then Delta(ds[0]) else 0) + DriftLamports(ds[1..])
  }

  function DriftTokens(ds: seq<Drift>, mint: Key): nat {
    if ds == [] then 0
    else (if ds[0].assetKind.Token? && ds[0].mint == Some(mint) then Delta(ds[0]) else 0) + DriftTokens(ds[1..], mint)
  }

  lemma {:induction false} DriftSums(a: seq<Drift>, b: seq<Drift>, mint: Key)
    ensures DriftLamports(a + b) == DriftLamports(a) + DriftLamports(b)
    ensures DriftTokens(a + b, mint) == DriftTokens(a, mint) + DriftTokens(b, mint)
  {
    hide Delta;
    if a == [] {
      assert a + b == b;
    } else {
      DriftSums(a[1..], b, mint);
      assert (a + b)[1..] == a[1..] + b;
    }
  }

  lemma OneDrift(d: Drift, mint: Key)
    ensures DriftLamports([d]) == (if d.assetKind.Lamports? then Delta(d) else 0)
    ensures DriftTokens([d], mint) == (if d.assetKind.Token? && d.mint == Some(mint) then Delta(d) else 0)
  {
    hide Delta;
    assert DriftLamports([]) == DriftTokens([], mint) == 0;
    assert [d][1..] == [];
  }

  lemma LamportDelta(before: Observation, after: Observation)
    requires LamportsOf(before) <= LamportsOf(after)
    ensures Delta(LamportDrift(before, after)) == LamportsOf(after) - LamportsOf(before)
  {
    hide LamportsOf, Decimal, DecimalValue;
    ValueOfDecimal(LamportsOf(after) - LamportsOf(before));
  }

  lemma TokenDelta(before: Observation, after: Observation)
    requires TokensOf(before) <= TokensOf(after) && before.rawTokenAmount.Some? && after.rawTokenAmount.Some?
    ensures Delta(TokenDrift(before, after)) == TokensOf(after) - TokensOf(before)
  {
    hide TokensOf, Decimal, DecimalValue;
    ValueOfDecimal(TokensOf(after) - TokensOf(before));
  }

  lemma StepSums(h: HashFn, before: Observation, after: Observation, mint: Key)
    requires NoLoss(before, after) && ValidObservation(h, before)
    ensures DriftLamports(StepDrift(before, after)) == LamportsOf(after) - LamportsOf(before)
    ensures DriftTokens(StepDrift(before, after), mint)
         == if before.mint == Some(mint) then TokensOf(after) - TokensOf(before) else 0
  {
    ValidAmounts(h, before);
    LamportDelta(before, after);
    OneDrift(LamportDrift(before, after), mint);
    if before.rawTokenAmount.Some? && after.rawTokenAmount.Some? {
      TokenDelta(before, after);
      OneDrift(TokenDrift(before, after), mint);
    }
    hide ValidObservation, Decimal, DecimalValue, ParseU64, SameIdentity, Delta;
    var first := if LamportsOf(before) < LamportsOf(after) then [LamportDrift(before, after)] else [];
    var second :=
      if TokensOf(before) < TokensOf(after) && before.rawTokenAmount.Some? then [TokenDrift(before, after)] else [];
    DriftSums(first, second, mint);
  }

  /** Conservation: what the second inventory holds beyond the first is exactly the sum of the emitted
      deltas, for lamports and for every mint. */
  lemma {:induction false} DriftConserves(h: HashFn, pre: seq<Observation>, post: seq<Observation>, mint: Key)
    requires AllNoLoss(pre, post) && forall i :: 0 <= i < |pre| ==> ValidObservation(h, pre[i])
    ensures TotalLamports(post) == TotalLamports(pre) + DriftLamports(DriftOf(pre, post))
    ensures TotalTokens(post, mint) == TotalTokens(pre, mint) + DriftTokens(DriftOf(pre, post), mint)
  {
    hide ValidObservation, StepDrift, LamportsOf, TokensOf;
    if pre != [] {
      var a, b, n := pre[..|pre| - 1], post[..|post| - 1], |pre| - 1;
      DriftConserves(h, a, b, mint);
      DriftSums(DriftOf(a, b), StepDrift(pre[n], post[n]), mint);
      StepSums(h, pre[n], post[n], mint);
    }
  }

  /** An accepted derivation compares the same accounts in the same order, loses no balance, and
      conserves lamports and every mint. */
  lemma AcceptedDrift(h: HashFn, pre: ObservationSet, post: ObservationSet, mint: Key)
    requires DriftAccepted(h, pre, post)
    ensures |pre.accounts| == |post.accounts|
    ensures forall i :: 0 <= i < |pre.accounts| ==>
      && pre.accounts[i].account == post.accounts[i].account
      && LamportsOf(pre.accounts[i]) <= LamportsOf(post.accounts[i])
        && TokensOf(pre.accounts[i]) <= TokensOf(post.accounts[i])
    ensures TotalLamports(post.accounts) == TotalLamports(pre.accounts)
      + DriftLamports(DriftOf(pre.accounts, post.accounts))
    ensures TotalTokens(post.accounts, mint) == TotalTokens(pre.accounts, mint)
      + DriftTokens(DriftOf(pre.accounts, post.accounts), mint)
  {
    hide ValidObservation, DriftOf, LamportsOf, TokensOf;
    DriftConserves(h, pre.accounts, post.accounts, mint);
  }

  // ---------- at most one entry per account and asset kind ----------

  ghost predicate OneEntryPerKind(ds: seq<Drift>) {
    forall i, j :: 0 <= i < j < |ds| ==> ds[i].account != ds[j].account || ds[i].assetKind != ds[j].assetKind
  }

  lemma StepAccounts(before: Observation, after: Observation)
    requires NoLoss(before, after)
    ensures OneEntryPerKind(StepDrift(before, after))
    ensures forall k :: 0 <= k < |StepDrift(before, after)| ==> StepDrift(before, after)[k].account == before.account
  {
    hide Decimal, ParseU64;
  }

  /** Entry k of a derivation is about account i of the inventory. */
  ghost predicate About(ds: seq<Drift>, pre: seq<Observation>, k: nat)
    requires k < |ds|
  {
    exists i :: 0 <= i < |pre| && pre[i].account == ds[k].account
  }

  /** Each account of a strictly sorted inventory gives at most one entry per asset kind. */
  lemma {:induction false} DriftAccounts(pre: seq<Observation>, post: seq<Observation>)
    requires AllNoLoss(pre, post) && StrictlySorted(pre)
    ensures OneEntryPerKind(DriftOf(pre, post))
    ensures forall k :: 0 <= k < |DriftOf(pre, post)| ==> About(DriftOf(pre, post), pre, k)
  {
    hide NoLoss, StepDrift, LexLess;
    if pre != [] {
      var a, b, n := pre[..|pre| - 1], post[..|post| - 1], |pre| - 1;
      DriftAccounts(a, b);
      StepAccounts(pre[n], post[n]);
      var before, step := DriftOf(a, b), StepDrift(pre[n], post[n]);
      var all := before + step;
      hide OneEntryPerKind;
      forall k | 0 <= k < |all| ensures About(all, pre, k) && (k < |before| ==> before[k].account != pre[n].account) {
        if k < |before| {
          assert About(before, a, k);
          var i :| 0 <= i < |a| && a[i].account == before[k].account;
          assert pre[i].account == all[k].account && LexLess(pre[i].account, pre[n].account);
          LexIrreflexive(pre[n].account);
        } else {
          assert pre[n].account == all[k].account;
        }
      }
      Together(before, step, pre[n].account);
    }
  }

  lemma Together(a: seq<Drift>, b: seq<Drift>, account: Key)
    requires OneEntryPerKind(a) && OneEntryPerKind(b)
    requires (forall k :: 0 <= k < |a| ==> a[k].account != account)
      && (forall k :: 0 <= k < |b| ==> b[k].account == account)
    ensures OneEntryPerKind(a + b)
  {
  }

  // ---------- the entries are exactly the gains ----------

  /** The entry names this account, quotes its two amounts and states a positive gain between them. */
  predicate Explains(d: Drift, before: Observation, after: Observation) {
    && d.account == before.account == after.account && d.owner == before.owner == after.owner
    && 0 < Delta(d) && Value(d.preAtoms) + Delta(d) == Value(d.postAtoms)
    && (match d.assetKind
        case Lamports => d.preAtoms == before.lamports && d.postAtoms == after.lamports
                      && d.tokenProgram == d.mint == d.authority == None
        case Token => Some(d.preAtoms) == before.rawTokenAmount && Some(d.postAtoms) == after.rawTokenAmount
                   && d.tokenProgram == before.tokenProgram && d.mint == before.mint && d.authority == before.authority
        case UnknownAsset => false)
  }

  predicate Gained(kind: AssetKind, before: Observation, after: Observation) {
    match kind
    case Lamports => LamportsOf(before) < LamportsOf(after)
    case Token => TokensOf(before) < TokensOf(after)
    case UnknownAsset => false
  }

  lemma LamportEntry(before: Observation, after: Observation)
    requires NoLoss(before, after) && Gained(Lamports, before, after)
    ensures Explains(LamportDrift(before, after), before, after)
  {
    hide ParseU64, Decimal, Delta;
    LamportDelta(before, after);
  }

  lemma TokenEntry(before: Observation, after: Observation)
    requires NoLoss(before, after) && Gained(Token, before, after) && before.rawTokenAmount.Some?
    ensures Explains(TokenDrift(before, after), before, after)
  {
    hide ParseU64, Decimal, Delta;
    TokenDelta(before, after);
  }

  lemma {:induction false} EntryExplained(pre: seq<Observation>, post: seq<Observation>, k: nat) returns (i: nat)
    requires AllNoLoss(pre, post) && k < |DriftOf(pre, post)|
    ensures i < |pre| && Explains(DriftOf(pre, post)[k], pre[i], post[i])
  {
    hide NoLoss, LamportDrift, TokenDrift, Explains;
    var n := |pre| - 1;
    if k < |DriftOf(pre[..n], post[..n])| {
      i := EntryExplained(pre[..n], post[..n], k);
    } else {
      i := n;
      StepExplained(pre[n], post[n]);
    }
  }

  lemma StepExplained(before: Observation, after: Observation)
    requires NoLoss(before, after)
    ensures forall k :: 0 <= k < |StepDrift(before, after)| ==> Explains(StepDrift(before, after)[k], before, after)
  {
    hide ParseU64, Decimal, Delta, Explains, LamportDrift, TokenDrift, SameIdentity;
    if Gained(Lamports, before, after) { LamportEntry(before, after); }
    if Gained(Token, before, after) && before.rawTokenAmount.Some? { TokenEntry(before, after); }
  }

  /** Earlier entries are about earlier accounts, and one account's lamport entry stands before its token
      entry. */
  ghost predicate EntriesInOrder(ds: seq<Drift>, pre: seq<Observation>, post: seq<Observation>) {
    |pre| == |post| && forall k, m :: 0 <= k < m < |ds| ==> Precedes(ds[k], ds[m], pre, post)
  }

  ghost predicate Precedes(d: Drift, e: Drift, pre: seq<Observation>, post: seq<Observation>)
    requires |pre| == |post|
  {
    exists i, j :: 0 <= i <= j < |pre| && Explains(d, pre[i], post[i]) && Explains(e, pre[j], post[j])
                && (i == j ==> d.assetKind == Lamports && e.assetKind == Token)
  }

  lemma {:induction false} DriftInOrder(pre: seq<Observation>, post: seq<Observation>)
    requires AllNoLoss(pre, post)
    ensures EntriesInOrder(DriftOf(pre, post), pre, post)
  {
    hide NoLoss, Explains, StepDrift, Precedes;
    if pre != [] {
      var n := |pre| - 1;
      var a, b := pre[..n], post[..n];
      var earlier, step := DriftOf(a, b), StepDrift(pre[n], post[n]);
      var ds := DriftOf(pre, post);
      DriftInOrder(a, b);
      StepExplained(pre[n], post[n]);
      StepInOrder(pre[n], post[n]);
      forall k, m | 0 <= k < m < |ds| ensures Precedes(ds[k], ds[m], pre, post) {
        if m < |earlier| {
          assert Precedes(earlier[k], earlier[m], a, b);
          Widen(earlier[k], earlier[m], pre, post);
        } else if k < |earlier| {
          var i := EntryExplained(a, b, k);
          Placed(ds[k], ds[m], pre, post, i, n);
        } else {
          Placed(ds[k], ds[m], pre, post, n, n);
        }
      }
    }
  }

  lemma Placed(d: Drift, e: Drift, pre: seq<Observation>, post: seq<Observation>, i: nat, j: nat)
    requires |pre| == |post| && i <= j < |pre| && Explains(d, pre[i], post[i]) && Explains(e, pre[j], post[j])
    requires i == j ==> d.assetKind == Lamports && e.assetKind == Token
    ensures Precedes(d, e, pre, post)
  {
    hide Explains;
  }

  lemma Widen(d: Drift, e: Drift, pre: seq<Observation>, post: seq<Observation>)
    requires |pre| == |post| > 0 && Precedes(d, e, pre[..|pre| - 1], post[..|post| - 1])
    ensures Precedes(d, e, pre, post)
  {
    hide Explains;
    var a, b := pre[..|pre| - 1], post[..|post| - 1];
    var i, j :| 0 <= i <= j < |a| && Explains(d, a[i], b[i]) && Explains(e, a[j], b[j])
             && (i == j ==> d.assetKind == Lamports && e.assetKind == Token);
    Placed(d, e, pre, post, i, j);
  }

  lemma StepInOrder(before: Observation, after: Observation)
    requires NoLoss(before, after)
    ensures |StepDrift(before, after)| <= 2
    ensures forall k, m :: 0 <= k < m < |StepDrift(before, after)| ==>
      StepDrift(before, after)[k].assetKind == Lamports && StepDrift(before, after)[m].assetKind == Token
  {
    hide ParseU64, Decimal;
  }

  lemma {:induction false} GainListed(
      h: HashFn, pre: seq<Observation>, post: seq<Observation>, i: nat, kind: AssetKind) returns (k: nat)
    requires AllNoLoss(pre, post) && i < |pre| && ValidObservation(h, pre[i]) && Gained(kind, pre[i], post[i])
    ensures k < |DriftOf(pre, post)| && DriftOf(pre, post)[k].assetKind == kind
      && Explains(DriftOf(pre, post)[k], pre[i], post[i])
  {
    hide NoLoss, Explains, StepDrift, Gained, ValidObservation;
    var n := |pre| - 1;
    if i < n {
      k := GainListed(h, pre[..n], post[..n], i, kind);
    } else {
      StepExplained(pre[n], post[n]);
      var j := StepLists(h, pre[n], post[n], kind);
      k := |DriftOf(pre[..n], post[..n])| + j;
    }
  }

  lemma StepLists(h: HashFn, before: Observation, after: Observation, kind: AssetKind) returns (k: nat)
    requires NoLoss(before, after) && ValidObservation(h, before) && Gained(kind, before, after)
    ensures k < |StepDrift(before, after)| && StepDrift(before, after)[k].assetKind == kind
  {
    hide ParseU64, Decimal;
    k := if kind.Token? then |StepDrift(before, after)| - 1 else 0;
    SameKindOfAsset(h, before, after);
  }

  /** A token gain needs a token account, which a valid observation records with its amount. */
  lemma SameKindOfAsset(h: HashFn, before: Observation, after: Observation)
    requires NoLoss(before, after) && ValidObservation(h, before)
    ensures Gained(Token, before, after) ==> before.rawTokenAmount.Some?
  {
    hide ParseU64;
  }
}
