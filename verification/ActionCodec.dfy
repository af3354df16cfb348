/** The governance actions of the V3 controller: their canonical 193-byte form, and the proposal digest
    that commits the council to one of them. */
module ActionCodec {
  import opened ByteStrings
  import opened ByteReader

  const ACTION_LENGTH := 193
  const MAX_ARTIFACT_BYTES := 2_097_152
  const WEEK_SLOTS := 1_512_000

  datatype Timing = Timing(reviewSlots: int, delaySlots: int, expirySlots: int)

  datatype Rent = Rent(
    baseRent: int, compressionCost: int, lamportsPerBytePerEpoch: int, maxFundedEpochs: int, maxTopUp: int)

  datatype Action =
    | UpgradeController(
        buffer: Digest, artifactLength: int, artifactSha256: Bytes, merkleRoot: Bytes, deployedSlot: int,
        capacity: int, sourceCommitment: Bytes, buildCommitment: Bytes, controllerRelease: int)
    | SetTiming(timing: Timing)
    | RotateCouncil(seats: seq<Digest>)
    | UpgradeTarget(
        buffer: Digest, artifactLength: int, merkleRoot: Bytes, deployedSlot: int, capacity: int,
        sourceCommitment: Bytes, buildCommitment: Bytes, target: Digest, gateEpoch: int)
    | SetTargetGate(target: Digest, expectedEpoch: int, active: bool)
    | InitializeSpreadLightConfig(
        target: Digest, expectedEpoch: int, deployedSlot: int, compressionAuthority: Digest, rent: Rent,
        writeTopUp: int, addressTree: Digest)
    | PublishVerification(target: Digest, deployedSlot: int, commit: string)
    | RetireTarget(
        target: Digest, expectedEpoch: int, deployedSlot: int, payloadSha256: Bytes, recoveryCommitment: Bytes)

  // ---------- what the encoder admits ----------

  predicate U64(n: int) { 0 <= n < U64_LIMIT }

  predicate PositiveU64(n: int) { 0 < n < U64_LIMIT }

  predicate NonzeroHash(b: Bytes) { |b| == 32 && b != Zeros(32) }

  predicate NonzeroKey(k: Digest) { k != Zeros(32) }

  predicate ValidTiming(t: Timing) {
    && U64(t.reviewSlots) && U64(t.delaySlots) && U64(t.expirySlots)
    && t.reviewSlots >= WEEK_SLOTS && t.delaySlots >= 150
    && t.expirySlots > (if t.reviewSlots > t.delaySlots then t.reviewSlots else t.delaySlots) + 9_000
  }

  predicate ValidSeats(seats: seq<Digest>) {
    && |seats| == 5 && (forall i, j :: 0 <= i < j < 5 ==> seats[i] != seats[j])
    && forall i :: 0 <= i < 5 ==> NonzeroKey(seats[i])
  }

  predicate ValidRent(r: Rent) {
    && 0 <= r.baseRent < 0x1_0000 && 0 <= r.compressionCost < 0x1_0000 && 0 <= r.lamportsPerBytePerEpoch < 0x100
    && 0 <= r.maxFundedEpochs < 0x100 && 0 <= r.maxTopUp < 0x1_0000
  }

  predicate IsHexDigit(c: char) { '0' <= c <= '9' || 'a' <= c <= 'f' }

  predicate ValidCommit(commit: string) {
    && |commit| == 40 && (forall i :: 0 <= i < 40 ==> IsHexDigit(commit[i]))
    && exists i :: 0 <= i < 40 && commit[i] != '0'
  }

  /** The policy each kind of action must satisfy; `spread` is the one program with a light config. */
  predicate ValidAction(spread: Digest, a: Action) {
    match a
    case UpgradeController(buffer, length, sha, root, slot, capacity, source, build, release) =>
      && NonzeroKey(buffer) && 0 < length <= MAX_ARTIFACT_BYTES && PositiveU64(capacity) && U64(slot) && U64(release)
      && NonzeroHash(sha) && NonzeroHash(root) && NonzeroHash(source) && NonzeroHash(build)
    case SetTiming(timing) => ValidTiming(timing)
    case RotateCouncil(seats) => ValidSeats(seats)
    case UpgradeTarget(buffer, length, root, slot, capacity, source, build, target, epoch) =>
      && NonzeroKey(buffer) && NonzeroKey(target) && PositiveU64(epoch) && 0 < length <= MAX_ARTIFACT_BYTES
      && PositiveU64(capacity) && U64(slot) && NonzeroHash(root) && NonzeroHash(source) && NonzeroHash(build)
    case SetTargetGate(target, epoch, _) => NonzeroKey(target) && PositiveU64(epoch)
    case InitializeSpreadLightConfig(target, epoch, slot, authority, rent, writeTopUp, tree) =>
      && target == spread && PositiveU64(epoch) && U64(slot) && NonzeroKey(authority) && NonzeroKey(tree)
      && ValidRent(rent) && 0 <= writeTopUp < U32_LIMIT
    case PublishVerification(target, slot, commit) => NonzeroKey(target) && U64(slot) && ValidCommit(commit)
    case RetireTarget(target, epoch, slot, payload, recovery) =>
      NonzeroKey(target) && PositiveU64(epoch) && PositiveU64(slot) && NonzeroHash(payload) && NonzeroHash(recovery)
  }

  // ---------- hexadecimal ----------

  function Nibble(c: char): (n: nat)
    requires IsHexDigit(c)
    ensures n < 16
  {
    if c <= '9' then c as int - '0' as int else c as int - 'a' as int + 10
  }

  function HexDigit(n: nat): (c: char)
    requires n < 16
    ensures IsHexDigit(c)
  {
    if n < 10 then ('0' as int + n) as char else ('a' as int + n - 10) as char
  }

  function Unhex(s: string): (b: Bytes)
    requires forall i :: 0 <= i < |s| ==> IsHexDigit(s[i])
    ensures |b| == |s| / 2
  {
    seq<Byte>(|s| / 2, i requires 0 <= i < |s| / 2 => 16 * Nibble(s[2 * i]) + Nibble(s[2 * i + 1]))
  }

  function Hex(b: Bytes): (s: string)
    ensures |s| == 2 * |b| && forall i :: 0 <= i < |s| ==> IsHexDigit(s[i])
  {
    seq(2 * |b|, i requires 0 <= i < 2 * |b| => HexDigit(if i % 2 == 0 then b[i / 2] / 16 else b[i / 2] % 16))
  }

  /** Two lower-case digits a byte, the high half first. */
  lemma HexText(b: Bytes, i: nat)
    requires i < |b|
    ensures Hex(b)[2 * i] == "0123456789abcdef"[b[i] / 16] && Hex(b)[2 * i + 1] == "0123456789abcdef"[b[i] % 16]
  {
    hide HexDigit;
    DigitIs(b[i] / 16);
    DigitIs(b[i] % 16);
  }

  lemma DigitIs(n: nat)
    requires n < 16
    ensures HexDigit(n) == "0123456789abcdef"[n]
  {
  }

  lemma NibbleDigit(c: char)
    requires IsHexDigit(c)
    ensures HexDigit(Nibble(c)) == c
  {
  }

  lemma HexOfUnhex(s: string)
    requires |s| % 2 == 0 && forall i :: 0 <= i < |s| ==> IsHexDigit(s[i])
    ensures Hex(Unhex(s)) == s
  {
    var b := Unhex(s);
    forall j | 0 <= j < |b| ensures HexDigit(b[j] / 16) == s[2 * j] && HexDigit(b[j] % 16) == s[2 * j + 1] {
      NibbleDigit(s[2 * j]);
      NibbleDigit(s[2 * j + 1]);
    }
    hide HexDigit, Unhex;
    forall i | 0 <= i < |s| ensures Hex(b)[i] == s[i] {
      assert i == 2 * (i / 2) + i % 2;
    }
  }

  // ---------- the canonical encoding ----------

  function Tag(a: Action): Byte {
    match a
    case UpgradeController(_, _, _, _, _, _, _, _, _) => 0
    case SetTiming(_) => 1
    case RotateCouncil(_) => 2
    case UpgradeTarget(_, _, _, _, _, _, _, _, _) => 3
    case SetTargetGate(_, _, _) => 4
    case InitializeSpreadLightConfig(_, _, _, _, _, _, _) => 5
    case PublishVerification(_, _, _) => 6
    case RetireTarget(_, _, _, _, _) => 7
  }

  function TimingBytes(t: Timing): (b: Bytes)
    requires ValidTiming(t)
    ensures |b| == 24
  {
    LE(t.reviewSlots, 8) + (LE(t.delaySlots, 8) + LE(t.expirySlots, 8))
  }

  function RentBytes(r: Rent): (b: Bytes)
    requires ValidRent(r)
    ensures |b| == 8
  {
    LE(r.baseRent, 2) + (LE(r.compressionCost, 2)
      + (LE(r.lamportsPerBytePerEpoch, 1) + (LE(r.maxFundedEpochs, 1) + LE(r.maxTopUp, 2))))
  }

  function Body(spread: Digest, a: Action): (b: Bytes)
    requires ValidAction(spread, a)
    ensures |b| <= 192
  {
    match a
    case UpgradeController(buffer, length, sha, root, slot, capacity, source, build, release) =>
      buffer + (LE(length, 8) + (sha + (root
      + (LE(slot, 8) + (LE(capacity, 8) + (source + (build + LE(release, 8))))))))
    case SetTiming(timing) => TimingBytes(timing)
    case RotateCouncil(seats) =>
      var last: Bytes := seats[4];
      seats[0] + (seats[1] + (seats[2] + (seats[3] + last)))
    case UpgradeTarget(buffer, length, root, slot, capacity, source, build, target, epoch) =>
      buffer + (LE(length, 8) + (root + (LE(slot, 8)
      + (LE(capacity, 8) + (source + (build + (target + LE(epoch, 8))))))))
    case SetTargetGate(target, epoch, active) => target + (LE(epoch, 8) + [if active then 1 else 0])
    case InitializeSpreadLightConfig(target, epoch, slot, authority, rent, writeTopUp, tree) =>
      target + (LE(epoch, 8) + (LE(slot, 8) + (authority + (RentBytes(rent) + (LE(writeTopUp, 4) + tree)))))
    case PublishVerification(target, slot, commit) => target + (LE(slot, 8) + Unhex(commit))
    case RetireTarget(target, epoch, slot, payload, recovery) =>
      target + (LE(epoch, 8) + (LE(slot, 8) + (payload + recovery)))
  }

  function EncodeAction(spread: Digest, a: Action): (data: Option<Bytes>)
    ensures data.Some? ==> |data.value| == ACTION_LENGTH
  {
    if !ValidAction(spread, a) then None
    else Some([Tag(a)] + (Body(spread, a) + Zeros(192 - |Body(spread, a)|)))
  }

  // ---------- decoding ----------

  function Cut(b: Bytes, n: nat): (r: (Bytes, Bytes))
    requires n <= |b|
    ensures |r.0| == n && |r.1| == |b| - n
  {
    (b[..n], b[n..])
  }

  function CutNumber(b: Bytes, n: nat): (r: (nat, Bytes))
    requires n <= |b|
    ensures |r.1| == |b| - n
  {
    (FromLE(b[..n]), b[n..])
  }

  function CutTiming(b: Bytes): (r: (Timing, Bytes))
    requires |b| >= 24
    ensures |r.1| == |b| - 24
  {
    var (review, b1) := CutNumber(b, 8);
    var (delay, b2) := CutNumber(b1, 8);
    var (expiry, b3) := CutNumber(b2, 8);
    (Timing(review, delay, expiry), b3)
  }

  function CutRent(b: Bytes): (r: (Rent, Bytes))
    requires |b| >= 8
    ensures |r.1| == |b| - 8
  {
    var (baseRent, b1) := CutNumber(b, 2);
    var (compressionCost, b2) := CutNumber(b1, 2);
    var (lamports, b3) := CutNumber(b2, 1);
    var (epochs, b4) := CutNumber(b3, 1);
    var (maxTopUp, b5) := CutNumber(b4, 2);
    (Rent(baseRent, compressionCost, lamports, epochs, maxTopUp), b5)
  }

  function ParseUpgradeController(b: Bytes): (Action, Bytes)
    requires |b| >= 192
  {
    var (buffer, b1) := Cut(b, 32);
    var (length, b2) := CutNumber(b1, 8);
    var (sha, b3) := Cut(b2, 32);
    var (root, b4) := Cut(b3, 32);
    var (slot, b5) := CutNumber(b4, 8);
    var (capacity, b6) := CutNumber(b5, 8);
    var (source, b7) := Cut(b6, 32);
    var (build, b8) := Cut(b7, 32);
    var (release, b9) := CutNumber(b8, 8);
    (UpgradeController(buffer, length, sha, root, slot, capacity, source, build, release), b9)
  }

  function ParseSetTiming(b: Bytes): (Action, Bytes)
    requires |b| >= 24
  {
    var (timing, b1) := CutTiming(b);
    (SetTiming(timing), b1)
  }

  function ParseRotateCouncil(b: Bytes): (Action, Bytes)
    requires |b| >= 160
  {
    var (s0, b1) := Cut(b, 32);
    var (s1, b2) := Cut(b1, 32);
    var (s2, b3) := Cut(b2, 32);
    var (s3, b4) := Cut(b3, 32);
    var (s4, b5) := Cut(b4, 32);
    (RotateCouncil([s0, s1, s2, s3, s4]), b5)
  }

  function ParseUpgradeTarget(b: Bytes): (Action, Bytes)
    requires |b| >= 192
  {
    var (buffer, b1) := Cut(b, 32);
    var (length, b2) := CutNumber(b1, 8);
    var (root, b3) := Cut(b2, 32);
    var (slot, b4) := CutNumber(b3, 8);
    var (capacity, b5) := CutNumber(b4, 8);
    var (source, b6) := Cut(b5, 32);
    var (build, b7) := Cut(b6, 32);
    var (target, b8) := Cut(b7, 32);
    var (epoch, b9) := CutNumber(b8, 8);
    (UpgradeTarget(buffer, length, root, slot, capacity, source, build, target, epoch), b9)
  }

  function ParseSetTargetGate(b: Bytes): Option<(Action, Bytes)>
    requires |b| >= 41
  {
    var (target, b1) := Cut(b, 32);
    var (epoch, b2) := CutNumber(b1, 8);
    var (active, b3) := CutNumber(b2, 1);
    if active > 1 then None else Some((SetTargetGate(target, epoch, active == 1), b3))
  }

  function ParseLightConfig(b: Bytes): (Action, Bytes)
    requires |b| >= 124
  {
    var (target, b1) := Cut(b, 32);
    var (epoch, b2) := CutNumber(b1, 8);
    var (slot, b3) := CutNumber(b2, 8);
    var (authority, b4) := Cut(b3, 32);
    var (rent, b5) := CutRent(b4);
    var (writeTopUp, b6) := CutNumber(b5, 4);
    var (tree, b7) := Cut(b6, 32);
    (InitializeSpreadLightConfig(target, epoch, slot, authority, rent, writeTopUp, tree), b7)
  }

  function ParsePublishVerification(b: Bytes): (Action, Bytes)
    requires |b| >= 60
  {
    var (target, b1) := Cut(b, 32);
    var (slot, b2) := CutNumber(b1, 8);
    var (commit, b3) := Cut(b2, 20);
    (PublishVerification(target, slot, Hex(commit)), b3)
  }

  function ParseRetireTarget(b: Bytes): (Action, Bytes)
    requires |b| >= 112
  {
    var (target, b1) := Cut(b, 32);
    var (epoch, b2) := CutNumber(b1, 8);
    var (slot, b3) := CutNumber(b2, 8);
    var (payload, b4) := Cut(b3, 32);
    var (recovery, b5) := Cut(b4, 32);
    (RetireTarget(target, epoch, slot, payload, recovery), b5)
  }

  /** The action a body of 192 bytes starts with, and the bytes after its fields. */
  function ParseBody(tag: Byte, b: Bytes): Option<(Action, Bytes)>
    requires |b| == 192
  {
    if tag == 0 then Some(ParseUpgradeController(b))
    else if tag == 1 then Some(ParseSetTiming(b))
    else if tag == 2 then Some(ParseRotateCouncil(b))
    else if tag == 3 then Some(ParseUpgradeTarget(b))
    else if tag == 4 then ParseSetTargetGate(b)
    else if tag == 5 then Some(ParseLightConfig(b))
    else if tag == 6 then Some(ParsePublishVerification(b))
    else if tag == 7 then Some(ParseRetireTarget(b))
    else None
  }

  function DecodeAction(spread: Digest, data: Bytes): Option<Action> {
    if |data| != ACTION_LENGTH then None
    else match ParseBody(data[0], data[1..])
      case Some((action, rest)) =>
        if rest == Zeros(|rest|) && EncodeAction(spread, action) == Some(data) then Some(action) else None
      case None => None
  }

  lemma CutAppended()
    ensures forall x: Bytes, y: Bytes, z: Bytes :: ((x + y) + z)[..|x|] == x && ((x + y) + z)[|x|..] == y + z
    ensures forall x: Bytes, z: Bytes :: (x + z)[..|x|] == x && (x + z)[|x|..] == z
  {
    forall x: Bytes, y: Bytes, z: Bytes ensures ((x + y) + z)[..|x|] == x && ((x + y) + z)[|x|..] == y + z {
      assert (x + y) + z == x + (y + z);
    }
  }

  lemma Numbers()
    ensures forall n: nat :: n < U64_LIMIT ==> FromLE(LE(n, 8)) == n
    ensures forall n: nat :: n < U32_LIMIT ==> FromLE(LE(n, 4)) == n
    ensures forall n: nat :: n < 0x1_0000 ==> FromLE(LE(n, 2)) == n
    ensures forall n: nat :: n < 0x100 ==> FromLE(LE(n, 1)) == n
  {
    Limits();
    hide FromLE, LE, Pow256;
    forall n: nat, w: nat | n < Pow256(w) ensures FromLE(LE(n, w)) == n { FromLEOfLE(n, w); }
  }

  lemma ParseTiming(t: Timing, z: Bytes)
    requires ValidTiming(t)
    ensures CutTiming(TimingBytes(t) + z) == (t, z)
  {
    hide LE, FromLE;
    CutAppended();
    Numbers();
  }

  lemma ParseRent(r: Rent, z: Bytes)
    requires ValidRent(r)
    ensures CutRent(RentBytes(r) + z) == (r, z)
  {
    hide LE, FromLE;
    CutAppended();
    Numbers();
  }

  lemma CutStep(x: Bytes, y: Bytes, z: Bytes)
    ensures Cut((x + y) + z, |x|) == (x, y + z)
    ensures CutNumber((x + y) + z, |x|) == (FromLE(x), y + z)
  {
    hide FromLE;
    assert (x + y) + z == x + (y + z);
  }

  lemma NumberStep(n: nat, y: Bytes, z: Bytes)
    requires n < U64_LIMIT
    ensures CutNumber((LE(n, 8) + y) + z, 8) == (n, y + z)
  {
    hide LE, FromLE;
    CutStep(LE(n, 8), y, z);
    Numbers();
  }

  lemma NumberLast(n: nat, z: Bytes)
    requires n < U64_LIMIT
    ensures CutNumber(LE(n, 8) + z, 8) == (n, z)
  {
    hide LE, FromLE;
    assert LE(n, 8) + [] == LE(n, 8) && [] + z == z;
    NumberStep(n, [], z);
  }

  // Each body parses back, whatever follows it.

  lemma UpgradeControllerParses(spread: Digest, a: Action, z: Bytes)
    requires a.UpgradeController? && ValidAction(spread, a) && |Body(spread, a)| + |z| == 192
    ensures ParseUpgradeController(Body(spread, a) + z) == (a, z)
  {
    hide LE, FromLE, Cut, CutNumber;
    var b8: Bytes := LE(a.controllerRelease, 8);
    var b7: Bytes := a.buildCommitment + b8;
    var b6: Bytes := a.sourceCommitment + b7;
    var b5: Bytes := LE(a.capacity, 8) + b6;
    var b4: Bytes := LE(a.deployedSlot, 8) + b5;
    var b3: Bytes := a.merkleRoot + b4;
    var b2: Bytes := a.artifactSha256 + b3;
    var b1: Bytes := LE(a.artifactLength, 8) + b2;
    CutStep(a.buffer, b1, z);
    NumberStep(a.artifactLength, b2, z);
    CutStep(a.artifactSha256, b3, z);
    CutStep(a.merkleRoot, b4, z);
    NumberStep(a.deployedSlot, b5, z);
    NumberStep(a.capacity, b6, z);
    CutStep(a.sourceCommitment, b7, z);
    CutStep(a.buildCommitment, b8, z);
    NumberLast(a.controllerRelease, z);
  }

  lemma SetTimingParses(spread: Digest, a: Action, z: Bytes)
    requires a.SetTiming? && ValidAction(spread, a) && |Body(spread, a)| + |z| == 192
    ensures ParseSetTiming(Body(spread, a) + z) == (a, z)
  {
    hide LE, FromLE, CutTiming, CutRent, TimingBytes, RentBytes, Hex, Unhex, ValidRent, ValidTiming;
    CutAppended();
    Numbers();
    ParseTiming(a.timing, z);
  }

  lemma OneByte(b: Byte)
    ensures FromLE([b]) == b
  {
  }

  lemma SeatCount(seats: seq<Digest>)
    requires ValidSeats(seats)
    ensures |seats| == 5
  {
  }

  lemma CouncilParses(seats: seq<Digest>, z: Bytes)
    requires |seats| == 5
    ensures var last: Bytes := seats[4];
      ParseRotateCouncil((seats[0] + (seats[1] + (seats[2] + (seats[3] + last)))) + z) == (RotateCouncil(seats), z)
  {
    hide Cut;
    var b4: Bytes := seats[4];
    var b3, b2, b1: Bytes := seats[3] + b4, seats[2] + (seats[3] + b4), seats[1] + (seats[2] + (seats[3] + b4));
    CutStep(seats[0], b1, z);
    CutStep(seats[1], b2, z);
    CutStep(seats[2], b3, z);
    CutStep(seats[3], b4, z);
    CutStep(b4, [], z);
    assert b4 + [] == b4 && [] + z == z;
    assert seats == [seats[0], seats[1], seats[2], seats[3], seats[4]];
  }

  lemma RotateCouncilParses(spread: Digest, a: Action, z: Bytes)
    requires a.RotateCouncil? && ValidAction(spread, a) && |Body(spread, a)| + |z| == 192
    ensures ParseRotateCouncil(Body(spread, a) + z) == (a, z)
  {
    hide ValidSeats;
    var seats := a.seats;
    assert |seats| == 5 by { SeatCount(seats); }
    hide ParseRotateCouncil;
    CouncilParses(seats, z);
  }

  lemma UpgradeTargetParses(spread: Digest, a: Action, z: Bytes)
    requires a.UpgradeTarget? && ValidAction(spread, a) && |Body(spread, a)| + |z| == 192
    ensures ParseUpgradeTarget(Body(spread, a) + z) == (a, z)
  {
    hide LE, FromLE, Cut, CutNumber;
    var b8: Bytes := LE(a.gateEpoch, 8);
    var b7: Bytes := a.target + b8;
    var b6: Bytes := a.buildCommitment + b7;
    var b5: Bytes := a.sourceCommitment + b6;
    var b4: Bytes := LE(a.capacity, 8) + b5;
    var b3: Bytes := LE(a.deployedSlot, 8) + b4;
    var b2: Bytes := a.merkleRoot + b3;
    var b1: Bytes := LE(a.artifactLength, 8) + b2;
    CutStep(a.buffer, b1, z);
    NumberStep(a.artifactLength, b2, z);
    CutStep(a.merkleRoot, b3, z);
    NumberStep(a.deployedSlot, b4, z);
    NumberStep(a.capacity, b5, z);
    CutStep(a.sourceCommitment, b6, z);
    CutStep(a.buildCommitment, b7, z);
    CutStep(a.target, b8, z);
    NumberLast(a.gateEpoch, z);
  }

  lemma SetTargetGateParses(spread: Digest, a: Action, z: Bytes)
    requires a.SetTargetGate? && ValidAction(spread, a) && |Body(spread, a)| + |z| == 192
    ensures ParseSetTargetGate(Body(spread, a) + z) == Some((a, z))
  {
    hide LE, FromLE, CutTiming, CutRent, TimingBytes, RentBytes, Hex, Unhex, ValidRent, ValidTiming;
    CutAppended();
    Numbers();
    OneByte(if a.active then 1 else 0);
  }

  lemma TopUpAndTree(writeTopUp: nat, tree: Digest, z: Bytes)
    requires writeTopUp < U32_LIMIT
    ensures CutNumber((LE(writeTopUp, 4) + tree) + z, 4) == (writeTopUp, tree + z) && Cut(tree + z, 32) == (tree, z)
  {
    hide LE, FromLE;
    CutStep(LE(writeTopUp, 4), tree, z);
    Numbers();
    CutStep(tree, [], z);
    assert tree + [] == tree && [] + z == z;
  }

  lemma LightConfigParses(spread: Digest, a: Action, z: Bytes)
    requires a.InitializeSpreadLightConfig? && ValidAction(spread, a) && |Body(spread, a)| + |z| == 192
    ensures ParseLightConfig(Body(spread, a) + z) == (a, z)
  {
    hide LE, FromLE, CutRent, RentBytes, ValidRent, Cut, CutNumber;
    var b6: Bytes := LE(a.writeTopUp, 4) + a.addressTree;
    var b5: Bytes := RentBytes(a.rent) + b6;
    var b4: Bytes := a.compressionAuthority + b5;
    var b3: Bytes := LE(a.deployedSlot, 8) + b4;
    var b2: Bytes := LE(a.expectedEpoch, 8) + b3;
    CutStep(a.target, b2, z);
    NumberStep(a.expectedEpoch, b3, z);
    NumberStep(a.deployedSlot, b4, z);
    CutStep(a.compressionAuthority, b5, z);
    ParseRent(a.rent, b6 + z);
    assert b5 + z == RentBytes(a.rent) + (b6 + z);
    TopUpAndTree(a.writeTopUp, a.addressTree, z);
  }

  lemma PublishVerificationParses(spread: Digest, a: Action, z: Bytes)
    requires a.PublishVerification? && ValidAction(spread, a) && |Body(spread, a)| + |z| == 192
    ensures ParsePublishVerification(Body(spread, a) + z) == (a, z)
  {
    hide LE, FromLE, CutTiming, CutRent, TimingBytes, RentBytes, Hex, Unhex, ValidRent, ValidTiming;
    CutAppended();
    Numbers();
    HexOfUnhex(a.commit);
  }

  lemma RetireTargetParses(spread: Digest, a: Action, z: Bytes)
    requires a.RetireTarget? && ValidAction(spread, a) && |Body(spread, a)| + |z| == 192
    ensures ParseRetireTarget(Body(spread, a) + z) == (a, z)
  {
    hide LE, FromLE, Cut, CutNumber;
    var b3: Bytes := a.payloadSha256 + a.recoveryCommitment;
    var b2: Bytes := LE(a.deployedSlot, 8) + b3;
    var b1: Bytes := LE(a.expectedEpoch, 8) + b2;
    CutStep(a.target, b1, z);
    NumberStep(a.expectedEpoch, b2, z);
    NumberStep(a.deployedSlot, b3, z);
    CutStep(a.payloadSha256, a.recoveryCommitment, z);
    assert a.recoveryCommitment + [] == a.recoveryCommitment && [] + z == z;
    CutStep(a.recoveryCommitment, [], z);
  }

  /** A body, with anything after it, parses back to its action and to what follows. */
  lemma ParseOfBody(spread: Digest, a: Action, z: Bytes)
    requires ValidAction(spread, a) && |Body(spread, a)| + |z| == 192
    ensures ParseBody(Tag(a), Body(spread, a) + z) == Some((a, z))
  {
    hide Body, ValidAction, ParseUpgradeController, ParseSetTiming, ParseRotateCouncil, ParseUpgradeTarget,
      ParseSetTargetGate, ParseLightConfig, ParsePublishVerification, ParseRetireTarget;
    match a
    case UpgradeController(_, _, _, _, _, _, _, _, _) => UpgradeControllerParses(spread, a, z);
    case SetTiming(_) => SetTimingParses(spread, a, z);
    case RotateCouncil(_) => RotateCouncilParses(spread, a, z);
    case UpgradeTarget(_, _, _, _, _, _, _, _, _) => UpgradeTargetParses(spread, a, z);
    case SetTargetGate(_, _, _) => SetTargetGateParses(spread, a, z);
    case InitializeSpreadLightConfig(_, _, _, _, _, _, _) => LightConfigParses(spread, a, z);
    case PublishVerification(_, _, _) => PublishVerificationParses(spread, a, z);
    case RetireTarget(_, _, _, _, _) => RetireTargetParses(spread, a, z);
  }

  /** The decoder accepts exactly the canonical encodings: data decodes to an action just when it is the
      encoding of that action. */
  lemma DecodeIff(spread: Digest, data: Bytes, a: Action)
    ensures EncodeAction(spread, a) == Some(data) <==> DecodeAction(spread, data) == Some(a)
  {
    hide Body, ParseBody, ValidAction;
    if EncodeAction(spread, a) == Some(data) {
      var z := Zeros(192 - |Body(spread, a)|);
      ParseOfBody(spread, a, z);
      assert data[1..] == Body(spread, a) + z;
    }
  }

  lemma EncodingInjective(spread: Digest, a: Action, b: Action)
    requires EncodeAction(spread, a).Some? && EncodeAction(spread, a) == EncodeAction(spread, b)
    ensures a == b
  {
    hide *;
    DecodeIff(spread, EncodeAction(spread, a).value, a);
    DecodeIff(spread, EncodeAction(spread, a).value, b);
  }

  // ---------- the reading decoder ----------

  method TakeBytes(reader: Reader, length: nat) returns (taken: Option<Bytes>)
    requires reader.Valid()
    modifies reader
    ensures reader.Valid()
    ensures taken.Some? <==> length <= |old(reader.Rest())|
    ensures taken.Some? ==> (taken.value, reader.Rest()) == Cut(old(reader.Rest()), length)
  {
    taken := reader.Take(length);
  }

  method TakeKey(reader: Reader) returns (taken: Option<Digest>)
    requires reader.Valid()
    modifies reader
    ensures reader.Valid()
    ensures taken.Some? <==> 32 <= |old(reader.Rest())|
    ensures taken.Some? ==> (taken.value, reader.Rest()) == Cut(old(reader.Rest()), 32)
  {
    var key :- reader.Take(32);
    taken := Some(key);
  }

  method TakeNumber(reader: Reader, width: nat) returns (taken: Option<nat>)
    requires reader.Valid()
    modifies reader
    ensures reader.Valid()
    ensures taken.Some? <==> width <= |old(reader.Rest())|
    ensures taken.Some? ==> (taken.value, reader.Rest()) == CutNumber(old(reader.Rest()), width)
  {
    hide FromLE;
    var bytes :- reader.Take(width);
    taken := Some(FromLE(bytes));
  }

  method TakeByte(reader: Reader) returns (taken: Option<Byte>)
    requires reader.Valid()
    modifies reader
    ensures reader.Valid()
    ensures taken.Some? <==> old(reader.Rest()) != []
    ensures taken.Some? ==> taken.value == old(reader.Rest())[0] && reader.Rest() == old(reader.Rest())[1..]
  {
    var bytes :- reader.Take(1);
    taken := Some(bytes[0]);
  }

  /** Takes everything that is left, and tells whether it is all zero. */
  method TakeReserved(reader: Reader) returns (zero: bool)
    requires reader.Valid()
    modifies reader
    ensures zero <==> old(reader.Rest()) == Zeros(|old(reader.Rest())|)
  {
    ghost var rest := reader.Rest();
    var length := |reader.bytes| - reader.offset;
    assert length == |rest| && rest[..length] == rest;
    var reserved := reader.Take(length);
    zero := reserved == Some(Zeros(length));
  }

  method TakeTiming(reader: Reader) returns (taken: Option<Timing>)
    requires reader.Valid()
    modifies reader
    ensures reader.Valid()
    ensures taken.Some? <==> 24 <= |old(reader.Rest())|
    ensures taken.Some? ==> (taken.value, reader.Rest()) == CutTiming(old(reader.Rest()))
  {
    hide CutNumber;
    var reviewSlots :- TakeNumber(reader, 8);
    var delaySlots :- TakeNumber(reader, 8);
    var expirySlots :- TakeNumber(reader, 8);
    taken := Some(Timing(reviewSlots, delaySlots, expirySlots));
  }

  method TakeRent(reader: Reader) returns (taken: Option<Rent>)
    requires reader.Valid()
    modifies reader
    ensures reader.Valid()
    ensures taken.Some? <==> 8 <= |old(reader.Rest())|
    ensures taken.Some? ==> (taken.value, reader.Rest()) == CutRent(old(reader.Rest()))
  {
    hide CutNumber;
    var baseRent :- TakeNumber(reader, 2);
    var compressionCost :- TakeNumber(reader, 2);
    var lamportsPerBytePerEpoch :- TakeNumber(reader, 1);
    var maxFundedEpochs :- TakeNumber(reader, 1);
    var maxTopUp :- TakeNumber(reader, 2);
    taken := Some(Rent(baseRent, compressionCost, lamportsPerBytePerEpoch, maxFundedEpochs, maxTopUp));
  }

  /** What a read of the body leaves: the parsed action and the bytes after it, or a failure. */
  ghost predicate Reads(result: Option<Action>, rest: Bytes, tag: Byte, body: Bytes)
    requires |body| == 192
  {
    match ParseBody(tag, body)
    case Some((action, after)) => result == Some(action) && rest == after
    case None => result == None
  }

  method ReadUpgradeController(reader: Reader) returns (result: Option<Action>)
    requires reader.Valid() && |reader.Rest()| == 192
    modifies reader
    ensures reader.Valid() && Reads(result, reader.Rest(), 0, old(reader.Rest()))
  {
    hide Cut, CutNumber;
    var buffer :- TakeKey(reader);
    var artifactLength :- TakeNumber(reader, 8);
    var artifactSha256 :- TakeBytes(reader, 32);
    var merkleRoot :- TakeBytes(reader, 32);
    var deployedSlot :- TakeNumber(reader, 8);
    var capacity :- TakeNumber(reader, 8);
    var sourceCommitment :- TakeBytes(reader, 32);
    var buildCommitment :- TakeBytes(reader, 32);
    var controllerRelease :- TakeNumber(reader, 8);
    result := Some(UpgradeController(buffer, artifactLength, artifactSha256, merkleRoot, deployedSlot, capacity,
                                     sourceCommitment, buildCommitment, controllerRelease));
  }

  method ReadUpgradeTarget(reader: Reader) returns (result: Option<Action>)
    requires reader.Valid() && |reader.Rest()| == 192
    modifies reader
    ensures reader.Valid() && Reads(result, reader.Rest(), 3, old(reader.Rest()))
  {
    hide Cut, CutNumber;
    var buffer :- TakeKey(reader);
    var artifactLength :- TakeNumber(reader, 8);
    var merkleRoot :- TakeBytes(reader, 32);
    var deployedSlot :- TakeNumber(reader, 8);
    var capacity :- TakeNumber(reader, 8);
    var sourceCommitment :- TakeBytes(reader, 32);
    var buildCommitment :- TakeBytes(reader, 32);
    var target :- TakeKey(reader);
    var gateEpoch :- TakeNumber(reader, 8);
    result := Some(UpgradeTarget(buffer, artifactLength, merkleRoot, deployedSlot, capacity, sourceCommitment,
                                 buildCommitment, target, gateEpoch));
  }

  method ReadTargetPolicy(reader: Reader, tag: Byte) returns (result: Option<Action>)
    requires reader.Valid() && |reader.Rest()| == 192 && 4 <= tag <= 7
    modifies reader
    ensures reader.Valid() && Reads(result, reader.Rest(), tag, old(reader.Rest()))
  {
    hide Cut, CutNumber, CutRent, Hex;
    var target :- TakeKey(reader);
    if tag == 6 {
      var deployedSlot :- TakeNumber(reader, 8);
      var commit :- TakeBytes(reader, 20);
      return Some(PublishVerification(target, deployedSlot, Hex(commit)));
    }
    var expectedEpoch :- TakeNumber(reader, 8);
    if tag == 4 {
      var active :- TakeNumber(reader, 1);
      if active > 1 {
        return None;
      }
      return Some(SetTargetGate(target, expectedEpoch, active == 1));
    }
    var deployedSlot :- TakeNumber(reader, 8);
    if tag == 5 {
      var compressionAuthority :- TakeKey(reader);
      var rent :- TakeRent(reader);
      var writeTopUp :- TakeNumber(reader, 4);
      var addressTree :- TakeKey(reader);
      result := Some(InitializeSpreadLightConfig(target, expectedEpoch, deployedSlot, compressionAuthority, rent,
                                                 writeTopUp, addressTree));
    } else {
      var payloadSha256 :- TakeBytes(reader, 32);
      var recoveryCommitment :- TakeBytes(reader, 32);
      result := Some(RetireTarget(target, expectedEpoch, deployedSlot, payloadSha256, recoveryCommitment));
    }
  }

  method ReadSeats(reader: Reader) returns (result: Option<Action>)
    requires reader.Valid() && |reader.Rest()| == 192
    modifies reader
    ensures reader.Valid() && Reads(result, reader.Rest(), 2, old(reader.Rest()))
  {
    hide Cut;
    var s0 :- TakeKey(reader);
    var s1 :- TakeKey(reader);
    var s2 :- TakeKey(reader);
    var s3 :- TakeKey(reader);
    var s4 :- TakeKey(reader);
    result := Some(RotateCouncil([s0, s1, s2, s3, s4]));
  }

  method ReadBody(reader: Reader, tag: Byte) returns (result: Option<Action>)
    requires reader.Valid() && |reader.Rest()| == 192
    modifies reader
    ensures reader.Valid() && Reads(result, reader.Rest(), tag, old(reader.Rest()))
  {
    if tag == 0 {
      result := ReadUpgradeController(reader);
    } else if tag == 1 {
      hide CutTiming;
      var timing :- TakeTiming(reader);
      result := Some(SetTiming(timing));
    } else if tag == 2 {
      result := ReadSeats(reader);
    } else if tag == 3 {
      result := ReadUpgradeTarget(reader);
    } else if tag <= 7 {
      result := ReadTargetPolicy(reader, tag);
    } else {
      result := None;
    }
  }

  /** Read the tag and the fields it calls for, require the rest to be zero, and require the result to
      re-encode to the data. */
  method ReadAction(spread: Digest, data: Bytes) returns (result: Option<Action>)
    ensures result == DecodeAction(spread, data)
  {
    hide EncodeAction, ParseBody, Zeros;
    if |data| != ACTION_LENGTH {
      return None;
    }
    var reader := new Reader(data);
    var kind :- TakeByte(reader);
    var action :- ReadBody(reader, kind);
    var zero := TakeReserved(reader);
    if !zero || EncodeAction(spread, action) != Some(data) {
      return None;
    }
    result := Some(action);
  }

  // ---------- the proposal digest ----------

  datatype Proposal = Proposal(
    bump: int, config: Digest, id: int, councilEpoch: int, timingVersion: int, timing: Timing, created: int,
    reviewEnd: int, notBefore: int, expires: int, action: Action, approvals: int, approvalCount: int,
    cancellations: int, cancellationCount: int, state: int, verifiedChunks: Bytes, verifiedCount: int,
    extensionSlot: int, extendedCapacity: int, executedSlot: int)

  predicate Encodable(spread: Digest, p: Proposal) {
    && U64(p.id) && U64(p.councilEpoch) && U64(p.timingVersion) && ValidTiming(p.timing)
    && U64(p.created) && U64(p.reviewEnd) && U64(p.notBefore) && U64(p.expires) && ValidAction(spread, p.action)
  }

  function DigestDomain(): (domain: Bytes)
    ensures |domain| == 73
  {
    Ascii("AMOEBA_GOVERNANCE_PROPOSAL_V3") + Ascii("EtWTRABZaYq6iMfeYKouRu166VU2xqa1wcaWoxPkrZBG")
  }

  function Terms(spread: Digest, program: Digest, p: Proposal): Bytes
    requires Encodable(spread, p)
  {
    program + (p.config + (LE(p.id, 8) + (LE(p.councilEpoch, 8) + (LE(p.timingVersion, 8) + (TimingBytes(p.timing)
      + (LE(p.created, 8) + (LE(p.reviewEnd, 8) + (LE(p.notBefore, 8) + (LE(p.expires, 8)
      + EncodeAction(spread, p.action).value)))))))))
  }

  function DigestInput(spread: Digest, program: Digest, p: Proposal): Option<Bytes> {
    if Encodable(spread, p) then Some(DigestDomain() + Terms(spread, program, p)) else None
  }

  function ProposalDigest(h: HashFn, spread: Digest, program: Digest, p: Proposal): Option<Digest> {
    match DigestInput(spread, program, p)
    case Some(input) => Some(h(input))
    case None => None
  }

  /** The two proposals are for the same change, in the same council epoch, on the same schedule. */
  predicate SameTerms(p: Proposal, q: Proposal) {
    && p.config == q.config && p.id == q.id && p.councilEpoch == q.councilEpoch && p.timingVersion == q.timingVersion
    && p.timing == q.timing && p.created == q.created && p.reviewEnd == q.reviewEnd && p.notBefore == q.notBefore
    && p.expires == q.expires && p.action == q.action
  }

  lemma SplitNumber(m: nat, b: Bytes, n: nat, d: Bytes)
    requires m < U64_LIMIT && n < U64_LIMIT && LE(m, 8) + b == LE(n, 8) + d
    ensures m == n && b == d
  {
    hide LE;
    SplitAt(LE(m, 8), b, LE(n, 8), d);
    LEInjective(m, n, 8) by { Limits(); }
  }

  lemma SplitTiming(s: Timing, b: Bytes, t: Timing, d: Bytes)
    requires ValidTiming(s) && ValidTiming(t) && TimingBytes(s) + b == TimingBytes(t) + d
    ensures s == t && b == d
  {
    hide TimingBytes, CutTiming;
    ParseTiming(s, b);
    ParseTiming(t, d);
  }

  lemma TermsBind(spread: Digest, program: Digest, p: Proposal, other: Digest, q: Proposal)
    requires Encodable(spread, p) && Encodable(spread, q) && Terms(spread, program, p) == Terms(spread, other, q)
    ensures program == other && SameTerms(p, q)
  {
    assert EncodeAction(spread, p.action).Some? && EncodeAction(spread, q.action).Some?;
    hide LE, TimingBytes, ValidTiming, ValidAction, EncodeAction;
    var a, b := EncodeAction(spread, p.action).value, EncodeAction(spread, q.action).value;
    var a9, b9 := LE(p.expires, 8) + a, LE(q.expires, 8) + b;
    var a8, b8 := LE(p.notBefore, 8) + a9, LE(q.notBefore, 8) + b9;
    var a7, b7 := LE(p.reviewEnd, 8) + a8, LE(q.reviewEnd, 8) + b8;
    var a6, b6 := LE(p.created, 8) + a7, LE(q.created, 8) + b7;
    var a5, b5 := TimingBytes(p.timing) + a6, TimingBytes(q.timing) + b6;
    var a4, b4 := LE(p.timingVersion, 8) + a5, LE(q.timingVersion, 8) + b5;
    var a3, b3 := LE(p.councilEpoch, 8) + a4, LE(q.councilEpoch, 8) + b4;
    var a2, b2 := LE(p.id, 8) + a3, LE(q.id, 8) + b3;
    var a1, b1 := p.config + a2, q.config + b2;
    SplitAt(program, a1, other, b1);
    SplitAt(p.config, a2, q.config, b2);
    SplitNumber(p.id, a3, q.id, b3);
    SplitNumber(p.councilEpoch, a4, q.councilEpoch, b4);
    SplitNumber(p.timingVersion, a5, q.timingVersion, b5);
    SplitTiming(p.timing, a6, q.timing, b6);
    SplitNumber(p.created, a7, q.created, b7);
    SplitNumber(p.reviewEnd, a8, q.reviewEnd, b8);
    SplitNumber(p.notBefore, a9, q.notBefore, b9);
    SplitNumber(p.expires, a, q.expires, b);
    EncodingInjective(spread, p.action, q.action);
  }

  /** Equal digests are exactly equal terms for the same program: votes, the verification bitmap and the
      execution record never enter, and nothing else can differ. */
  lemma DigestIffSameTerms(h: HashFn, spread: Digest, program: Digest, p: Proposal, other: Digest, q: Proposal)
    requires Encodable(spread, p) && Encodable(spread, q)
    requires CollisionFree(h, {DigestInput(spread, program, p).value, DigestInput(spread, other, q).value})
    ensures ProposalDigest(h, spread, program, p) == ProposalDigest(h, spread, other, q)
      <==> program == other && SameTerms(p, q)
  {
    hide DigestDomain, Encodable;
    if ProposalDigest(h, spread, program, p) == ProposalDigest(h, spread, other, q) {
      hide Terms;
      SplitAt(DigestDomain(), Terms(spread, program, p), DigestDomain(), Terms(spread, other, q));
      TermsBind(spread, program, p, other, q);
    }
  }

  // ---------- the bytes of an action ----------

  function U64At(data: Bytes, i: nat): nat
    requires i + 8 <= |data|
  {
    FromLE(data[i..i + 8])
  }

  /** The action written at fixed places of 193 bytes, by its first byte. */
  function ActionAt(data: Bytes): Action
    requires |data| == 193 && data[0] <= 7
  {
    match data[0]
    case 0 =>
      UpgradeController(
        data[1..33], U64At(data, 33), data[41..73], data[73..105], U64At(data, 105), U64At(data, 113), data[121..153],
        data[153..185], U64At(data, 185))
    case 1 => SetTiming(Timing(U64At(data, 1), U64At(data, 9), U64At(data, 17)))
    case 2 => RotateCouncil([data[1..33], data[33..65], data[65..97], data[97..129], data[129..161]])
    case 3 =>
      UpgradeTarget(
        data[1..33], U64At(data, 33), data[41..73], U64At(data, 73), U64At(data, 81), data[89..121], data[121..153],
        data[153..185], U64At(data, 185))
    case 4 => SetTargetGate(data[1..33], U64At(data, 33), data[41] == 1)
    case 5 =>
      InitializeSpreadLightConfig(
        data[1..33], U64At(data, 33), U64At(data, 41), data[49..81],
        Rent(FromLE(data[81..83]), FromLE(data[83..85]), data[85], data[86], FromLE(data[87..89])),
        FromLE(data[89..93]), data[93..125])
    case 6 => PublishVerification(data[1..33], U64At(data, 33), Hex(data[41..61]))
    case _ => RetireTarget(data[1..33], U64At(data, 33), U64At(data, 41), data[49..81], data[81..113])
  }

  /** Only zero bytes behind the last field of the kind, and a gate that is 0 or 1. */
  predicate Padded(data: Bytes)
    requires |data| == 193
  {
    match data[0]
    case 1 => data[25..] == Zeros(168)
    case 2 => data[161..] == Zeros(32)
    case 4 => data[41] <= 1 && data[42..] == Zeros(151)
    case 5 => data[125..] == Zeros(68)
    case 6 => data[61..] == Zeros(132)
    case 7 => data[113..] == Zeros(80)
    case _ => true
  }

  ghost predicate LaidOut(data: Bytes, a: Action) {
    |data| == 193 && data[0] <= 7 && a == ActionAt(data) && Padded(data)
  }

  lemma Cuts(data: Bytes, i: nat, n: nat)
    requires i + n <= |data|
    ensures Cut(data[i..], n) == (data[i..i + n], data[i + n..])
    ensures CutNumber(data[i..], n) == (FromLE(data[i..i + n]), data[i + n..])
  {
    hide FromLE;
    assert data[i..][..n] == data[i..i + n] && data[i..][n..] == data[i + n..];
  }

  lemma OneByteNumber(data: Bytes, i: nat)
    requires i < |data|
    ensures FromLE(data[i..i + 1]) == data[i]
  {
    OneByte(data[i]);
    assert data[i..i + 1] == [data[i]];
  }

  lemma UpgradeControllerLaidOut(data: Bytes)
    requires |data| == 193 && data[0] == 0
    ensures ParseUpgradeController(data[1..]) == (ActionAt(data), data[193..])
  {
    hide Cut, CutNumber, FromLE, Hex;
    Cuts(data, 1, 32);
    Cuts(data, 33, 8);
    Cuts(data, 41, 32);
    Cuts(data, 73, 32);
    Cuts(data, 105, 8);
    Cuts(data, 113, 8);
    Cuts(data, 121, 32);
    Cuts(data, 153, 32);
    Cuts(data, 185, 8);
  }

  lemma RotateCouncilLaidOut(data: Bytes)
    requires |data| == 193 && data[0] == 2
    ensures ParseRotateCouncil(data[1..]) == (ActionAt(data), data[161..])
  {
    hide Cut, CutNumber, FromLE, Hex;
    Cuts(data, 1, 32);
    Cuts(data, 33, 32);
    Cuts(data, 65, 32);
    Cuts(data, 97, 32);
    Cuts(data, 129, 32);
  }

  lemma UpgradeTargetLaidOut(data: Bytes)
    requires |data| == 193 && data[0] == 3
    ensures ParseUpgradeTarget(data[1..]) == (ActionAt(data), data[193..])
  {
    hide Cut, CutNumber, FromLE, Hex;
    Cuts(data, 1, 32);
    Cuts(data, 33, 8);
    Cuts(data, 41, 32);
    Cuts(data, 73, 8);
    Cuts(data, 81, 8);
    Cuts(data, 89, 32);
    Cuts(data, 121, 32);
    Cuts(data, 153, 32);
    Cuts(data, 185, 8);
  }

  lemma PublishVerificationLaidOut(data: Bytes)
    requires |data| == 193 && data[0] == 6
    ensures ParsePublishVerification(data[1..]) == (ActionAt(data), data[61..])
  {
    hide Cut, CutNumber, FromLE, Hex;
    Cuts(data, 1, 32);
    Cuts(data, 33, 8);
    Cuts(data, 41, 20);
  }

  lemma RetireTargetLaidOut(data: Bytes)
    requires |data| == 193 && data[0] == 7
    ensures ParseRetireTarget(data[1..]) == (ActionAt(data), data[113..])
  {
    hide Cut, CutNumber, FromLE, Hex;
    Cuts(data, 1, 32);
    Cuts(data, 33, 8);
    Cuts(data, 41, 8);
    Cuts(data, 49, 32);
    Cuts(data, 81, 32);
  }

  lemma TimingAt(data: Bytes, i: nat)
    requires i + 24 <= |data|
    ensures CutTiming(data[i..]) == (Timing(U64At(data, i), U64At(data, i + 8), U64At(data, i + 16)), data[i + 24..])
  {
    hide CutNumber, FromLE;
    Cuts(data, i, 8);
    Cuts(data, i + 8, 8);
    Cuts(data, i + 16, 8);
  }

  lemma SetTargetGateLaidOut(data: Bytes)
    requires |data| == 193 && data[0] == 4
    ensures ParseSetTargetGate(data[1..]) == if data[41] > 1 then None else Some((ActionAt(data), data[42..]))
  {
    hide Cut, CutNumber, FromLE;
    Cuts(data, 1, 32);
    Cuts(data, 33, 8);
    Cuts(data, 41, 1);
    OneByteNumber(data, 41);
  }

  lemma RentAt(data: Bytes, i: nat)
    requires i + 8 <= |data|
    ensures CutRent(data[i..])
         == (Rent(FromLE(data[i..i + 2]), FromLE(data[i + 2..i + 4]), data[i + 4], data[i + 5],
           FromLE(data[i + 6..i + 8])),
             data[i + 8..])
  {
    hide CutNumber, FromLE;
    Cuts(data, i, 2);
    Cuts(data, i + 2, 2);
    Cuts(data, i + 4, 1);
    Cuts(data, i + 5, 1);
    Cuts(data, i + 6, 2);
    OneByteNumber(data, i + 4);
    OneByteNumber(data, i + 5);
  }

  lemma LightConfigLaidOut(data: Bytes)
    requires |data| == 193 && data[0] == 5
    ensures ParseLightConfig(data[1..]) == (ActionAt(data), data[125..])
  {
    hide Cut, CutNumber, CutRent, FromLE;
    Cuts(data, 1, 32);
    Cuts(data, 33, 8);
    Cuts(data, 41, 8);
    Cuts(data, 49, 32);
    RentAt(data, 81);
    Cuts(data, 89, 4);
    Cuts(data, 93, 32);
  }

  /** Every encoding lies at these places, with zero bytes behind the last field. */
  lemma ActionLayout(spread: Digest, data: Bytes, a: Action)
    requires EncodeAction(spread, a) == Some(data)
    ensures LaidOut(data, a)
  {
    hide LE, FromLE, Body, ValidAction, Hex, LaidOut, ParseBody, EncodeAction, Zeros;
    DecodeIff(spread, data, a);
    var parsed := ParseBody(data[0], data[1..]).value;
    assert parsed.0 == a && parsed.1 == Zeros(|parsed.1|);
    ParsedLaidOut(data, a, parsed.1);
  }

  lemma ParsedLaidOut(data: Bytes, a: Action, rest: Bytes)
    requires |data| == 193 && ParseBody(data[0], data[1..]) == Some((a, rest)) && rest == Zeros(|rest|)
    ensures LaidOut(data, a)
  {
    hide FromLE, Hex, Zeros, ParseUpgradeController, ParseRotateCouncil, ParseUpgradeTarget, ParseSetTargetGate,
      ParseLightConfig, ParsePublishVerification, ParseRetireTarget, CutTiming;
    match data[0]
    case 0 => UpgradeControllerLaidOut(data);
    case 1 => TimingAt(data, 1);
    case 2 => RotateCouncilLaidOut(data);
    case 3 => UpgradeTargetLaidOut(data);
    case 4 => SetTargetGateLaidOut(data);
    case 5 => LightConfigLaidOut(data);
    case 6 => PublishVerificationLaidOut(data);
    case 7 => RetireTargetLaidOut(data);
    case _ =>
  }

  lemma NumberSlice(data: Bytes, i: nat, w: nat)
    requires i + w <= |data|
    ensures LE(FromLE(data[i..i + w]), w) == data[i..i + w]
  {
    LEOfFromLE(data[i..i + w]);
  }

  lemma Adjoin(data: Bytes, i: nat, j: nat, k: nat)
    requires i <= j <= k <= |data|
    ensures data[i..j] + data[j..k] == data[i..k]
  {
  }

  lemma UpgradeControllerRejoins(data: Bytes)
    requires |data| == 193
    ensures data[1..33] + (LE(U64At(data, 33), 8) + (data[41..73] + (data[73..105] + (LE(U64At(data, 105), 8)
         + (LE(U64At(data, 113), 8) + (data[121..153] + (data[153..185] + LE(U64At(data, 185), 8)))))))) == data[1..193]
  {
    hide LE, FromLE;
    NumberSlice(data, 33, 8);
    NumberSlice(data, 105, 8);
    NumberSlice(data, 113, 8);
    NumberSlice(data, 185, 8);
    Adjoin(data, 153, 185, 193);
    Adjoin(data, 121, 153, 193);
    Adjoin(data, 113, 121, 193);
    Adjoin(data, 105, 113, 193);
    Adjoin(data, 73, 105, 193);
    Adjoin(data, 41, 73, 193);
    Adjoin(data, 33, 41, 193);
    Adjoin(data, 1, 33, 193);
  }

  lemma TimingRejoins(data: Bytes)
    requires |data| == 193
    ensures LE(U64At(data, 1), 8) + (LE(U64At(data, 9), 8) + LE(U64At(data, 17), 8)) == data[1..25]
  {
    hide LE, FromLE;
    NumberSlice(data, 1, 8);
    NumberSlice(data, 9, 8);
    NumberSlice(data, 17, 8);
    Adjoin(data, 9, 17, 25);
    Adjoin(data, 1, 9, 25);
  }

  lemma RotateCouncilRejoins(data: Bytes)
    requires |data| == 193
    ensures data[1..33] + (data[33..65] + (data[65..97] + (data[97..129] + data[129..161]))) == data[1..161]
  {
    Adjoin(data, 97, 129, 161);
    Adjoin(data, 65, 97, 161);
    Adjoin(data, 33, 65, 161);
    Adjoin(data, 1, 33, 161);
  }

  lemma UpgradeTargetRejoins(data: Bytes)
    requires |data| == 193
    ensures data[1..33] + (LE(U64At(data, 33), 8) + (data[41..73] + (LE(U64At(data, 73), 8) + (LE(U64At(data, 81), 8)
         + (data[89..121] + (data[121..153] + (data[153..185] + LE(U64At(data, 185), 8)))))))) == data[1..193]
  {
    hide LE, FromLE;
    NumberSlice(data, 33, 8);
    NumberSlice(data, 73, 8);
    NumberSlice(data, 81, 8);
    NumberSlice(data, 185, 8);
    Adjoin(data, 153, 185, 193);
    Adjoin(data, 121, 153, 193);
    Adjoin(data, 89, 121, 193);
    Adjoin(data, 81, 89, 193);
    Adjoin(data, 73, 81, 193);
    Adjoin(data, 41, 73, 193);
    Adjoin(data, 33, 41, 193);
    Adjoin(data, 1, 33, 193);
  }

  lemma SetTargetGateRejoins(data: Bytes)
    requires |data| == 193 && data[41] <= 1
    ensures data[1..33] + (LE(U64At(data, 33), 8) + [if data[41] == 1 then 1 else 0]) == data[1..42]
  {
    hide LE, FromLE;
    NumberSlice(data, 33, 8);
    assert data[41..42] == [if data[41] == 1 then 1 else 0];
    Adjoin(data, 33, 41, 42);
    Adjoin(data, 1, 33, 42);
  }

  lemma RentRejoins(data: Bytes)
    requires |data| == 193
    ensures LE(FromLE(data[81..83]), 2) + (LE(FromLE(data[83..85]), 2)
         + (LE(data[85], 1) + (LE(data[86], 1) + LE(FromLE(data[87..89]), 2)))) == data[81..89]
  {
    hide LE, FromLE;
    NumberSlice(data, 81, 2);
    NumberSlice(data, 83, 2);
    OneByteNumber(data, 85);
    NumberSlice(data, 85, 1);
    OneByteNumber(data, 86);
    NumberSlice(data, 86, 1);
    NumberSlice(data, 87, 2);
    Adjoin(data, 86, 87, 89);
    Adjoin(data, 85, 86, 89);
    Adjoin(data, 83, 85, 89);
    Adjoin(data, 81, 83, 89);
  }

  lemma LightConfigRejoins(data: Bytes)
    requires |data| == 193
    ensures data[1..33] + (LE(U64At(data, 33), 8) + (LE(U64At(data, 41), 8) + (data[49..81] + (data[81..89]
         + (LE(FromLE(data[89..93]), 4) + data[93..125]))))) == data[1..125]
  {
    hide LE, FromLE;
    NumberSlice(data, 33, 8);
    NumberSlice(data, 41, 8);
    NumberSlice(data, 89, 4);
    Adjoin(data, 89, 93, 125);
    Adjoin(data, 81, 89, 125);
    Adjoin(data, 49, 81, 125);
    Adjoin(data, 41, 49, 125);
    Adjoin(data, 33, 41, 125);
    Adjoin(data, 1, 33, 125);
  }

  lemma DigitNibble(n: nat)
    requires n < 16
    ensures Nibble(HexDigit(n)) == n
  {
  }

  lemma UnhexOfHex(b: Bytes)
    ensures Unhex(Hex(b)) == b
  {
    hide HexDigit, Nibble;
    forall i | 0 <= i < |b| ensures Unhex(Hex(b))[i] == b[i] {
      DigitNibble(b[i] / 16);
      DigitNibble(b[i] % 16);
    }
  }

  lemma PublishVerificationRejoins(data: Bytes)
    requires |data| == 193
    ensures data[1..33] + (LE(U64At(data, 33), 8) + Unhex(Hex(data[41..61]))) == data[1..61]
  {
    hide LE, FromLE, Hex, Unhex;
    NumberSlice(data, 33, 8);
    UnhexOfHex(data[41..61]);
    Adjoin(data, 33, 41, 61);
    Adjoin(data, 1, 33, 61);
  }

  lemma RetireTargetRejoins(data: Bytes)
    requires |data| == 193
    ensures data[1..33] + (LE(U64At(data, 33), 8) + (LE(U64At(data, 41), 8) + (data[49..81] + data[81..113])))
      == data[1..113]
  {
    hide LE, FromLE;
    NumberSlice(data, 33, 8);
    NumberSlice(data, 41, 8);
    Adjoin(data, 49, 81, 113);
    Adjoin(data, 41, 49, 113);
    Adjoin(data, 33, 41, 113);
    Adjoin(data, 1, 33, 113);
  }

  predicate Encodes(spread: Digest, data: Bytes, a: Action)
    requires |data| == 193 && ValidAction(spread, a)
  {
    data[0] == Tag(a) && data[1..] == Body(spread, a) + Zeros(192 - |Body(spread, a)|)
  }

  lemma UpgradeControllerEncodes(spread: Digest, data: Bytes, a: Action)
    requires LaidOut(data, a) && data[0] == 0 && ValidAction(spread, a)
    ensures Encodes(spread, data, a)
  {
    hide LE, FromLE, Hex, Unhex, Zeros, U64At, ValidTiming, ValidSeats, ValidRent, NonzeroHash, ValidCommit;
    UpgradeControllerRejoins(data);
  }

  lemma SetTimingEncodes(spread: Digest, data: Bytes, a: Action)
    requires LaidOut(data, a) && data[0] == 1 && ValidAction(spread, a)
    ensures Encodes(spread, data, a)
  {
    hide LE, FromLE, Hex, Unhex, Zeros, U64At, ValidTiming, ValidSeats, ValidRent, NonzeroHash, ValidCommit;
    TimingRejoins(data);
    Adjoin(data, 1, 25, 193);
  }

  lemma RotateCouncilEncodes(spread: Digest, data: Bytes, a: Action)
    requires LaidOut(data, a) && data[0] == 2 && ValidAction(spread, a)
    ensures Encodes(spread, data, a)
  {
    hide LE, FromLE, Hex, Unhex, Zeros, U64At, ValidTiming, ValidSeats, ValidRent, NonzeroHash, ValidCommit;
    RotateCouncilRejoins(data);
    Adjoin(data, 1, 161, 193);
  }

  lemma UpgradeTargetEncodes(spread: Digest, data: Bytes, a: Action)
    requires LaidOut(data, a) && data[0] == 3 && ValidAction(spread, a)
    ensures Encodes(spread, data, a)
  {
    hide LE, FromLE, Hex, Unhex, Zeros, U64At, ValidTiming, ValidSeats, ValidRent, NonzeroHash, ValidCommit;
    UpgradeTargetRejoins(data);
  }

  lemma SetTargetGateEncodes(spread: Digest, data: Bytes, a: Action)
    requires LaidOut(data, a) && data[0] == 4 && ValidAction(spread, a)
    ensures Encodes(spread, data, a)
  {
    hide LE, FromLE, Hex, Unhex, Zeros, U64At, ValidTiming, ValidSeats, ValidRent, NonzeroHash, ValidCommit;
    SetTargetGateRejoins(data);
    Adjoin(data, 1, 42, 193);
  }

  lemma LightConfigEncodes(spread: Digest, data: Bytes, a: Action)
    requires LaidOut(data, a) && data[0] == 5 && ValidAction(spread, a)
    ensures Encodes(spread, data, a)
  {
    hide LE, FromLE, Hex, Unhex, Zeros, U64At, ValidTiming, ValidSeats, ValidRent, NonzeroHash, ValidCommit;
    RentRejoins(data);
    LightConfigRejoins(data);
    Adjoin(data, 1, 125, 193);
  }

  lemma PublishVerificationEncodes(spread: Digest, data: Bytes, a: Action)
    requires LaidOut(data, a) && data[0] == 6 && ValidAction(spread, a)
    ensures Encodes(spread, data, a)
  {
    hide LE, FromLE, Hex, Unhex, Zeros, U64At, ValidTiming, ValidSeats, ValidRent, NonzeroHash, ValidCommit;
    PublishVerificationRejoins(data);
    Adjoin(data, 1, 61, 193);
  }

  lemma RetireTargetEncodes(spread: Digest, data: Bytes, a: Action)
    requires LaidOut(data, a) && data[0] == 7 && ValidAction(spread, a)
    ensures Encodes(spread, data, a)
  {
    hide LE, FromLE, Hex, Unhex, Zeros, U64At, ValidTiming, ValidSeats, ValidRent, NonzeroHash, ValidCommit;
    RetireTargetRejoins(data);
    Adjoin(data, 1, 113, 193);
  }

  /** The encoding of an admitted action is the one string that lays it out. */
  lemma EncodedIffLaidOut(spread: Digest, data: Bytes, a: Action)
    requires ValidAction(spread, a)
    ensures EncodeAction(spread, a) == Some(data) <==> LaidOut(data, a)
  {
    hide LE, FromLE, Body, ValidAction, Hex, Zeros, Tag;
    if EncodeAction(spread, a) == Some(data) {
      ActionLayout(spread, data, a);
    }
    if LaidOut(data, a) {
      AllEncode(spread, data, a);
      assert [data[0]] + data[1..] == data;
    }
  }

  lemma AllEncode(spread: Digest, data: Bytes, a: Action)
    requires LaidOut(data, a) && ValidAction(spread, a)
    ensures Encodes(spread, data, a)
  {
    hide ValidAction, Encodes, ActionAt, Padded;
    match data[0]
    case 0 => UpgradeControllerEncodes(spread, data, a);
    case 1 => SetTimingEncodes(spread, data, a);
    case 2 => RotateCouncilEncodes(spread, data, a);
    case 3 => UpgradeTargetEncodes(spread, data, a);
    case 4 => SetTargetGateEncodes(spread, data, a);
    case 5 => LightConfigEncodes(spread, data, a);
    case 6 => PublishVerificationEncodes(spread, data, a);
    case 7 => RetireTargetEncodes(spread, data, a);
  }

  // ---------- which bytes are an action ----------

  /** The numbers and 32-byte fields that must not be zero, the bounds, and the zero bytes at the end. */
  ghost predicate Canonical(spread: Digest, data: Bytes) {
    && |data| == 193 && Padded(data)
    && match data[0]
       case 0 =>
         && Filled(data, 1) && Filled(data, 41) && Filled(data, 73) && Filled(data, 121) && Filled(data, 153)
         && 1 <= U64At(data, 33) <= 2_097_152 && U64At(data, 113) >= 1
       case 1 =>
         && U64At(data, 1) >= 1_512_000 && U64At(data, 9) >= 150
         && U64At(data, 17) > U64At(data, 1) + 9_000 && U64At(data, 17) > U64At(data, 9) + 9_000
       case 2 =>
         && Filled(data, 1) && Filled(data, 33) && Filled(data, 65) && Filled(data, 97) && Filled(data, 129)
         && (forall i, j :: 0 <= i < j < 5 ==> Seat(data, i) != Seat(data, j))
       case 3 =>
         && Filled(data, 1) && Filled(data, 41) && Filled(data, 89) && Filled(data, 121) && Filled(data, 153)
         && 1 <= U64At(data, 33) <= 2_097_152 && U64At(data, 81) >= 1 && U64At(data, 185) >= 1
       case 4 => Filled(data, 1) && U64At(data, 33) >= 1
       case 5 => data[1..33] == spread && U64At(data, 33) >= 1 && Filled(data, 49) && Filled(data, 93)
       case 6 => Filled(data, 1) && data[41..61] != Zeros(20)
       case 7 => Filled(data, 1) && Filled(data, 49) && Filled(data, 81) && U64At(data, 33) >= 1 && U64At(data, 41) >= 1
       case _ => false
  }

  /** The 32 bytes that start here are not all zero. */
  predicate Filled(data: Bytes, i: nat)
    requires i + 32 <= |data|
  {
    data[i..i + 32] != Zeros(32)
  }

  function Seat(data: Bytes, i: nat): Bytes
    requires |data| == 193 && i < 5
  {
    data[1 + 32 * i..33 + 32 * i]
  }

  lemma NumberInRange(data: Bytes, i: nat, w: nat)
    requires i + w <= |data|
    ensures FromLE(data[i..i + w]) < Pow256(w)
  {
    LEOfFromLE(data[i..i + w]);
  }

  lemma U64InRange(data: Bytes, i: nat)
    requires i + 8 <= |data|
    ensures U64At(data, i) < U64_LIMIT
  {
    NumberInRange(data, i, 8);
    hide FromLE;
    Limits();
  }

  lemma CommitNonzero(b: Bytes)
    requires |b| == 20
    ensures ValidCommit(Hex(b)) <==> b != Zeros(20)
  {
    hide HexDigit;
    if ValidCommit(Hex(b)) {
      var i :| 0 <= i < 40 && Hex(b)[i] != '0';
      HexZero(if i % 2 == 0 then b[i / 2] / 16 else b[i / 2] % 16);
      assert b[i / 2] != 0;
    }
    if b != Zeros(20) {
      var k :| 0 <= k < 20 && b[k] != 0;
      HexZero(b[k] / 16);
      HexZero(b[k] % 16);
      assert Hex(b)[2 * k] == HexDigit(b[k] / 16) && Hex(b)[2 * k + 1] == HexDigit(b[k] % 16);
    }
  }

  lemma HexZero(n: nat)
    requires n < 16
    ensures HexDigit(n) == '0' <==> n == 0
  {
  }

  lemma UpgradeControllerValid(spread: Digest, data: Bytes, a: Action)
    requires LaidOut(data, a) && data[0] == 0
    ensures ValidAction(spread, a) <==> Canonical(spread, data)
  {
    hide FromLE, Hex, Zeros, U64At, ValidCommit;
    U64InRange(data, 33);
    U64InRange(data, 105);
    U64InRange(data, 113);
    U64InRange(data, 185);
  }

  lemma SetTimingValid(spread: Digest, data: Bytes, a: Action)
    requires LaidOut(data, a) && data[0] == 1
    ensures ValidAction(spread, a) <==> Canonical(spread, data)
  {
    hide FromLE, Hex, Zeros, U64At, ValidCommit;
    U64InRange(data, 1);
    U64InRange(data, 9);
    U64InRange(data, 17);
  }

  lemma RotateCouncilValid(spread: Digest, data: Bytes, a: Action)
    requires LaidOut(data, a) && data[0] == 2
    ensures ValidAction(spread, a) <==> Canonical(spread, data)
  {
    hide FromLE, Hex, Zeros, U64At, ValidCommit;
    forall i | 0 <= i < 5 ensures a.seats[i] == Seat(data, i)
      && (NonzeroKey(a.seats[i]) <==> Filled(data, 1 + 32 * i)) {
    }
    assert Filled(data, 1) == NonzeroKey(a.seats[0]) && Filled(data, 33) == NonzeroKey(a.seats[1]);
    assert Filled(data, 65) == NonzeroKey(a.seats[2]) && Filled(data, 97) == NonzeroKey(a.seats[3]);
    assert Filled(data, 129) == NonzeroKey(a.seats[4]);
  }

  lemma UpgradeTargetValid(spread: Digest, data: Bytes, a: Action)
    requires LaidOut(data, a) && data[0] == 3
    ensures ValidAction(spread, a) <==> Canonical(spread, data)
  {
    hide FromLE, Hex, Zeros, U64At, ValidCommit;
    U64InRange(data, 33);
    U64InRange(data, 73);
    U64InRange(data, 81);
    U64InRange(data, 185);
  }

  lemma SetTargetGateValid(spread: Digest, data: Bytes, a: Action)
    requires LaidOut(data, a) && data[0] == 4
    ensures ValidAction(spread, a) <==> Canonical(spread, data)
  {
    hide FromLE, Hex, Zeros, U64At, ValidCommit;
    U64InRange(data, 33);
  }

  lemma LightConfigValid(spread: Digest, data: Bytes, a: Action)
    requires LaidOut(data, a) && data[0] == 5
    ensures ValidAction(spread, a) <==> Canonical(spread, data)
  {
    hide FromLE, Hex, Zeros, U64At, ValidCommit;
    U64InRange(data, 33);
    U64InRange(data, 41);
    NumberInRange(data, 81, 2);
    NumberInRange(data, 83, 2);
    NumberInRange(data, 87, 2);
    NumberInRange(data, 89, 4);
    Limits();
  }

  lemma PublishVerificationValid(spread: Digest, data: Bytes, a: Action)
    requires LaidOut(data, a) && data[0] == 6
    ensures ValidAction(spread, a) <==> Canonical(spread, data)
  {
    hide FromLE, Hex, Zeros, U64At, ValidCommit;
    U64InRange(data, 33);
    CommitNonzero(data[41..61]);
  }

  lemma RetireTargetValid(spread: Digest, data: Bytes, a: Action)
    requires LaidOut(data, a) && data[0] == 7
    ensures ValidAction(spread, a) <==> Canonical(spread, data)
  {
    hide FromLE, Hex, Zeros, U64At, ValidCommit;
    U64InRange(data, 33);
    U64InRange(data, 41);
  }

  lemma ValidIffCanonical(spread: Digest, data: Bytes, a: Action)
    requires LaidOut(data, a)
    ensures ValidAction(spread, a) <==> Canonical(spread, data)
  {
    hide ValidAction, Canonical, ActionAt, Padded;
    match data[0]
    case 0 => UpgradeControllerValid(spread, data, a);
    case 1 => SetTimingValid(spread, data, a);
    case 2 => RotateCouncilValid(spread, data, a);
    case 3 => UpgradeTargetValid(spread, data, a);
    case 4 => SetTargetGateValid(spread, data, a);
    case 5 => LightConfigValid(spread, data, a);
    case 6 => PublishVerificationValid(spread, data, a);
    case 7 => RetireTargetValid(spread, data, a);
  }

  /** Data decodes to some action exactly when it is canonical: what the re-encoding of the parsed action adds
      to these checks is nothing. */
  lemma DecodedIffCanonical(spread: Digest, data: Bytes)
    ensures DecodeAction(spread, data).Some? <==> Canonical(spread, data)
  {
    hide *;
    if DecodeAction(spread, data).Some? {
      var a := DecodeAction(spread, data).value;
      DecodeIff(spread, data, a);
      EncodedIsValid(spread, a);
      ActionLayout(spread, data, a);
      ValidIffCanonical(spread, data, a);
    }
    if Canonical(spread, data) {
      var a := CanonicalIsLaidOut(spread, data);
      ValidIffCanonical(spread, data, a);
      EncodedIffLaidOut(spread, data, a);
      DecodeIff(spread, data, a);
    }
  }

  lemma EncodedIsValid(spread: Digest, a: Action)
    requires EncodeAction(spread, a).Some?
    ensures ValidAction(spread, a)
  {
    hide ValidAction, Body;
  }

  lemma CanonicalIsLaidOut(spread: Digest, data: Bytes) returns (a: Action)
    requires Canonical(spread, data)
    ensures LaidOut(data, a)
  {
    hide ActionAt, Padded, Filled, U64At, Seat, Zeros;
    a := ActionAt(data);
  }

  /** The first byte is the number of the kind. */
  lemma ActionTags(spread: Digest, data: Bytes, a: Action)
    requires EncodeAction(spread, a) == Some(data)
    ensures |data| == 193
    ensures (data[0] == 0 <==> a.UpgradeController?) && (data[0] == 1 <==> a.SetTiming?)
    ensures (data[0] == 2 <==> a.RotateCouncil?) && (data[0] == 3 <==> a.UpgradeTarget?)
    ensures (data[0] == 4 <==> a.SetTargetGate?) && (data[0] == 5 <==> a.InitializeSpreadLightConfig?)
    ensures (data[0] == 6 <==> a.PublishVerification?) && (data[0] == 7 <==> a.RetireTarget?)
  {
    hide EncodeAction, FromLE, Hex, Zeros;
    ActionLayout(spread, data, a);
  }

  // ---------- the bytes of a proposal digest ----------

  lemma Between(a: Bytes, b: Bytes, c: Bytes)
    ensures (a + (b + c))[|a|..|a| + |b|] == b && (a + (b + c))[|a| + |b|..] == c && a + (b + c) == (a + b) + c
  {
  }

  /** Where the identities and numbers of a proposal stand, behind a domain of 73 bytes. */
  lemma HeadPlaces(
      domain: Bytes, program: Digest, config: Digest, id: Bytes, epoch: Bytes, version: Bytes, rest: Bytes, x: Bytes)
    requires |domain| == 73 && |id| == |epoch| == |version| == 8
    requires x == domain + (program + (config + (id + (epoch + (version + rest)))))
    ensures |x| == 161 + |rest| && x[..73] == domain && x[73..105] == program && x[105..137] == config
    ensures x[137..145] == id && x[145..153] == epoch && x[153..161] == version && x[161..] == rest
  {
    var x1 := domain + program;
    var x2 := x1 + config;
    var x3 := x2 + id;
    var x4 := x3 + epoch;
    Between(domain, program, config + (id + (epoch + (version + rest))));
    Between(x1, config, id + (epoch + (version + rest)));
    Between(x2, id, epoch + (version + rest));
    Between(x3, epoch, version + rest);
    Between(x4, version, rest);
  }

  /** Where the timing and the slots of a proposal stand. */
  lemma TailPlaces(
      timing: Bytes, created: Bytes, reviewEnd: Bytes, notBefore: Bytes, expires: Bytes, action: Bytes, y: Bytes)
    requires |timing| == 24 && |created| == |reviewEnd| == |notBefore| == |expires| == 8
    requires y == timing + (created + (reviewEnd + (notBefore + (expires + action))))
    ensures |y| == 56 + |action| && y[..24] == timing && y[24..32] == created && y[32..40] == reviewEnd
    ensures y[40..48] == notBefore && y[48..56] == expires && y[56..] == action
  {
    var y1 := timing + created;
    var y2 := y1 + reviewEnd;
    var y3 := y2 + notBefore;
    Between(timing, created, reviewEnd + (notBefore + (expires + action)));
    Between(y1, reviewEnd, notBefore + (expires + action));
    Between(y2, notBefore, expires + action);
    Between(y3, expires, action);
  }

  /** What a proposal digest hashes, at fixed places of 410 bytes. */
  lemma ProposalLayout(spread: Digest, program: Digest, p: Proposal, x: Bytes)
    requires DigestInput(spread, program, p) == Some(x)
    ensures |x| == 410 && x[..29] == Ascii("AMOEBA_GOVERNANCE_PROPOSAL_V3")
    ensures x[29..73] == Ascii("EtWTRABZaYq6iMfeYKouRu166VU2xqa1wcaWoxPkrZBG")
    ensures x[73..105] == program && x[105..137] == p.config
    ensures U64At(x, 137) == p.id && U64At(x, 145) == p.councilEpoch && U64At(x, 153) == p.timingVersion
    ensures Timing(U64At(x, 161), U64At(x, 169), U64At(x, 177)) == p.timing
    ensures U64At(x, 185) == p.created && U64At(x, 193) == p.reviewEnd && U64At(x, 201) == p.notBefore
    ensures U64At(x, 209) == p.expires && EncodeAction(spread, p.action) == Some(x[217..])
  {
    assert EncodeAction(spread, p.action).Some?;
    hide LE, FromLE, Ascii, EncodeAction, ValidAction, DigestDomain, TimingBytes, CutTiming, ValidTiming, U64At;
    var action := EncodeAction(spread, p.action).value;
    var y: Bytes := TimingBytes(p.timing)
      + (LE(p.created, 8) + (LE(p.reviewEnd, 8) + (LE(p.notBefore, 8) + (LE(p.expires, 8) + action))));
    HeadPlaces(
      DigestDomain(), program, p.config, LE(p.id, 8), LE(p.councilEpoch, 8), LE(p.timingVersion, 8), y, x);
    hide Terms;
    DomainPlaces(x);
    TailLayout(p.timing, p.created, p.reviewEnd, p.notBefore, p.expires, action, x, y);
    NumberInBytes(x, 137, p.id);
    NumberInBytes(x, 145, p.councilEpoch);
    NumberInBytes(x, 153, p.timingVersion);
  }

  lemma TailLayout(
      t: Timing, created: nat, reviewEnd: nat, notBefore: nat, expires: nat, action: Bytes, x: Bytes, y: Bytes)
    requires ValidTiming(t) && U64(created) && U64(reviewEnd) && U64(notBefore) && U64(expires)
    requires |x| >= 161 && x[161..] == y
    requires y == TimingBytes(t)
      + (LE(created, 8) + (LE(reviewEnd, 8) + (LE(notBefore, 8) + (LE(expires, 8) + action))))
    ensures |x| == 217 + |action| && Timing(U64At(x, 161), U64At(x, 169), U64At(x, 177)) == t
    ensures U64At(x, 185) == created && U64At(x, 193) == reviewEnd && U64At(x, 201) == notBefore
    ensures U64At(x, 209) == expires && x[217..] == action
  {
    hide LE, FromLE, TimingBytes, CutTiming, ValidTiming, U64At;
    TailPlaces(TimingBytes(t), LE(created, 8), LE(reviewEnd, 8), LE(notBefore, 8), LE(expires, 8), action, y);
    TimingPlaces(x, t, y);
    SlotAt(x, y, 24, created);
    SlotAt(x, y, 32, reviewEnd);
    SlotAt(x, y, 40, notBefore);
    SlotAt(x, y, 48, expires);
    assert x[217..] == y[56..];
  }

  lemma TimingPlaces(x: Bytes, t: Timing, y: Bytes)
    requires ValidTiming(t) && |x| >= 185 && x[161..] == y && y[..24] == TimingBytes(t)
    ensures Timing(U64At(x, 161), U64At(x, 169), U64At(x, 177)) == t
  {
    hide LE, FromLE, TimingBytes, ValidTiming, CutTiming, U64At;
    ParseTiming(t, y[24..]);
    assert y == TimingBytes(t) + y[24..];
    TimingAt(x, 161);
  }

  lemma DomainPlaces(x: Bytes)
    requires |x| >= 73 && x[..73] == DigestDomain()
    ensures x[..29] == Ascii("AMOEBA_GOVERNANCE_PROPOSAL_V3")
    ensures x[29..73] == Ascii("EtWTRABZaYq6iMfeYKouRu166VU2xqa1wcaWoxPkrZBG")
  {
    hide Ascii;
    assert x[..29] == x[..73][..29] && x[29..73] == x[..73][29..];
  }

  lemma SlotAt(x: Bytes, y: Bytes, i: nat, n: nat)
    requires |x| >= 161 && x[161..] == y && i + 8 <= |y| && n < U64_LIMIT && y[i..i + 8] == LE(n, 8)
    ensures U64At(x, 161 + i) == n
  {
    hide LE, FromLE;
    assert x[161 + i..161 + i + 8] == y[i..i + 8];
    NumberInBytes(x, 161 + i, n);
  }

  lemma NumberInBytes(x: Bytes, i: nat, n: nat)
    requires i + 8 <= |x| && n < U64_LIMIT && x[i..i + 8] == LE(n, 8)
    ensures U64At(x, i) == n
  {
    hide LE, FromLE;
    Numbers();
  }
}
