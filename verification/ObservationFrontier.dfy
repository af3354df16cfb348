/** The ordered-frontier accumulator for raw ProgramData: a binary counter of subtree roots that
    must agree with the plain padded tree. */
module ObservationFrontier {
  import opened ByteStrings
  import opened MerkleTree
  import opened SiblingPaths

  const MIN_ACCOUNT_BYTES := 45
  const MAX_ACCOUNT_BYTES := 10_485_760
  const MAX_OBSERVED_CHUNKS: nat := 640
  const MAX_PADDED_CHUNKS: nat := 1024
  const MAX_DEPTH: nat := 10
  const SLOTS: nat := 11

  const ZERO: Digest := Zeros(32)

  predicate IsCandidate(chunkSize: int) {
    chunkSize == 16_384 || chunkSize == 32_768 || chunkSize == 65_536 || chunkSize == 131_072
  }

  // ---------- geometry ----------

  datatype Geometry = Geometry(rawLength: nat, chunkSize: nat, chunkCount: nat, paddedChunkCount: nat, treeDepth: nat)

  predicate Admitted(rawLength: int, chunkSize: int) {
    MIN_ACCOUNT_BYTES <= rawLength <= MAX_ACCOUNT_BYTES && IsCandidate(chunkSize)
  }

  function GeometryOf(rawLength: int, chunkSize: int): Option<Geometry> {
    if Admitted(rawLength, chunkSize) then
      var count := ChunkCount(rawLength, chunkSize);
      Some(Geometry(rawLength, chunkSize, count, Pow2(Depth(count)), Depth(count)))
    else None
  }

  lemma GeometryBounds(rawLength: nat, chunkSize: nat)
    requires Admitted(rawLength, chunkSize)
    ensures 0 < ChunkCount(rawLength, chunkSize) <= 640
    ensures Depth(ChunkCount(rawLength, chunkSize)) <= 10
    ensures Pow2(Depth(ChunkCount(rawLength, chunkSize))) <= 1024
  {
    CountBound(rawLength, chunkSize, MAX_OBSERVED_CHUNKS);
    Pow2Values();
    LeastExponent(ChunkCount(rawLength, chunkSize), MAX_DEPTH, Depth(ChunkCount(rawLength, chunkSize)));
    Pow2Monotone(Depth(ChunkCount(rawLength, chunkSize)), MAX_DEPTH);
  }

  /** The bounds checked on the count and the depth never reject an admitted length. */
  method ProgramDataObservationGeometry(rawLength: int, chunkSize: int) returns (r: Option<Geometry>)
    ensures r == GeometryOf(rawLength, chunkSize)
  {
    hide Pow2, Depth, ChunkCount;
    if !(MIN_ACCOUNT_BYTES <= rawLength <= MAX_ACCOUNT_BYTES) || !IsCandidate(chunkSize) { return None; }
    GeometryBounds(rawLength, chunkSize);
    var count := ChunkCount(rawLength, chunkSize);
    if count < 1 || count > MAX_OBSERVED_CHUNKS { return None; }
    var padded :- NextPowerOfTwo(count);
    DepthOfPow2(Depth(count));
    var depth := Depth(padded);
    if depth > MAX_DEPTH { return None; }
    r := Some(Geometry(rawLength, chunkSize, count, padded, depth));
  }

  // ---------- the frontier ----------

  datatype Frontier = Frontier(slots: seq<Bytes>, mask: int, nextIndex: int)

  function EmptyFrontier(): Frontier {
    Frontier(seq(SLOTS, _ => ZERO), 0, 0)
  }

  predicate Bit(mask: nat, k: nat) {
    Shr(mask, k) % 2 == 1
  }

  predicate ValidFrontier(f: Frontier) {
    && 0 <= f.nextIndex <= MAX_PADDED_CHUNKS && f.mask == f.nextIndex && |f.slots| == SLOTS
    && forall k :: 0 <= k < SLOTS ==> |f.slots[k]| == 32 && (!Bit(f.mask, k) ==> f.slots[k] == ZERO)
  }

  /** Nodes do not contain the subject, so any subject gives the same node inputs. */
  function NodeScheme(): Scheme {
    ObservationScheme(ZERO)
  }

  /** Carry-merge: while the counter's low bit is set, the slot is emptied and joined in front. */
  function Carry(h: HashFn, slots: seq<Digest>, n: nat, level: nat, current: Digest): (result: seq<Digest>)
    requires |slots| == SLOTS && level <= MAX_DEPTH && n + 1 <= Pow2(MAX_DEPTH - level)
    ensures |result| == SLOTS
    decreases n
  {
    if n % 2 == 1 then
      Carry(h, slots[level := ZERO], n / 2, level + 1, h(NodeInput(NodeScheme(), level + 1, slots[level], current)))
    else slots[level := current]
  }

  lemma CounterFits(n: nat)
    requires n < MAX_PADDED_CHUNKS
    ensures n + 1 <= Pow2(MAX_DEPTH - 0)
  {
    Pow2Values();
  }

  function AppendNode(h: HashFn, f: Frontier, node: Bytes): Option<Frontier> {
    if !ValidFrontier(f) || f.nextIndex >= MAX_PADDED_CHUNKS || |node| != 32 then None
    else
      CounterFits(f.nextIndex);
      Some(Frontier(Carry(h, f.slots, f.nextIndex, 0, node), f.mask + 1, f.nextIndex + 1))
  }

  lemma CarryArithmetic(n: nat, p: nat)
    requires n % 2 == 1
    ensures n * p - p == (n / 2) * (2 * p) && (n + 1) * p == (n / 2 + 1) * (2 * p)
  {
    var m := n / 2;
    assert n == 2 * m + 1;
  }

  /** The carry loop over a copied array of slots, a mask and a level.  The level never passes the
      last slot, and the mask ends as the old count plus one. */
  method AppendNodeV1(h: HashFn, f: Frontier, node: Bytes) returns (r: Option<Frontier>)
    ensures r == AppendNode(h, f, node)
  {
    hide NodeScheme, NodeInput, Pow2, Shr;
    if !ValidFrontier(f) || f.nextIndex >= MAX_PADDED_CHUNKS || |node| != 32 { return None; }
    CounterFits(f.nextIndex);
    var slots: seq<Digest> := f.slots;
    var frontier := new Digest[SLOTS](i requires 0 <= i < SLOTS => slots[i]);
    assert frontier[..] == slots;
    var current: Digest, level, mask := node, 0, f.mask;
    ghost var n: nat := f.nextIndex;
    assert Pow2(0) == 1 by { Pow2Zero(); }
    ShrOfMultiple(n, 0);
    while Bit(mask, level)
      invariant level <= MAX_DEPTH && n + 1 <= Pow2(MAX_DEPTH - level)
      invariant mask == n * Pow2(level) && Shr(mask, level) == n && f.mask + 1 == (n + 1) * Pow2(level)
      invariant Carry(h, frontier[..], n, level, current) == Carry(h, f.slots, f.nextIndex, 0, node)
      decreases n
    {
      CarryLevel(n, level);
      CarryArithmetic(n, Pow2(level));
      ghost var before := frontier[..];
      current := h(NodeInput(NodeScheme(), level + 1, frontier[level], current));
      frontier[level] := ZERO;
      assert frontier[..] == before[level := ZERO];
      mask := mask - Pow2(level);
      n := n / 2;
      level := level + 1;
      ShrOfMultiple(n, level);
    }
    ghost var before := frontier[..];
    frontier[level] := current;
    assert frontier[..] == before[level := current];
    assert mask + Pow2(level) == (n + 1) * Pow2(level);
    r := Some(Frontier(frontier[..], mask + Pow2(level), f.nextIndex + 1));
  }

  lemma Pow2Zero()
    ensures Pow2(0) == 1
  {
  }

  lemma CarryLevel(n: nat, level: nat)
    requires level <= MAX_DEPTH && n % 2 == 1 && n + 1 <= Pow2(MAX_DEPTH - level)
    ensures level < MAX_DEPTH && n / 2 + 1 <= Pow2(MAX_DEPTH - (level + 1)) && Pow2(level + 1) == 2 * Pow2(level)
  {
  }

  // ---------- what a frontier stands for ----------

  /** From level k on, the slots hold the last node of every level that has an odd number of them,
      and zero elsewhere; each level pairs up the one below. */
  ghost predicate HoldsFrom(h: HashFn, slots: seq<Digest>, k: nat, nodes: seq<Digest>)
    requires |slots| == SLOTS && k <= SLOTS
    decreases SLOTS - k
  {
    k < SLOTS ==>
      && slots[k] == (if |nodes| % 2 == 1 then nodes[|nodes| - 1] else ZERO)
      && HoldsFrom(h, slots, k + 1, Pairs(h, NodeScheme(), k + 1, nodes))
  }

  ghost predicate Represents(h: HashFn, f: Frontier, leaves: seq<Digest>) {
    ValidFrontier(f) && f.nextIndex == |leaves| && HoldsFrom(h, f.slots, 0, leaves)
  }

  lemma {:induction false} PairsAppend(h: HashFn, s: Scheme, k: nat, nodes: seq<Digest>, last: Digest)
    ensures Pairs(h, s, k, nodes + [last]) ==
      if |nodes| % 2 == 0 then Pairs(h, s, k, nodes)
      else Pairs(h, s, k, nodes) + [h(NodeInput(s, k, nodes[|nodes| - 1], last))]
  {
    hide NodeInput;
    var all := nodes + [last];
    if |nodes| >= 2 {
      var tail, first := nodes[2..], h(NodeInput(s, k, nodes[0], nodes[1]));
      PairsAppend(h, s, k, tail, last);
      assert all[2..] == tail + [last] && all[0] == nodes[0] && all[1] == nodes[1];
      assert Pairs(h, s, k, nodes) == [first] + Pairs(h, s, k, tail);
      assert Pairs(h, s, k, all) == [first] + Pairs(h, s, k, tail + [last]);
      hide Pairs;
      assert |nodes| % 2 == 1 ==> tail[|tail| - 1] == nodes[|nodes| - 1];
    } else {
      PairsOfTwo(h, s, k, all);
    }
  }

  lemma PairsOfTwo(h: HashFn, s: Scheme, k: nat, nodes: seq<Digest>)
    requires 1 <= |nodes| <= 2
    ensures Pairs(h, s, k, nodes) == if |nodes| == 1 then [] else [h(NodeInput(s, k, nodes[0], nodes[1]))]
  {
    hide NodeInput;
    if |nodes| == 2 {
      assert Pairs(h, s, k, nodes[2..]) == [];
    }
  }

  lemma {:induction false} HoldsFrame(h: HashFn, slots: seq<Digest>, other: seq<Digest>, k: nat, nodes: seq<Digest>)
    requires |slots| == |other| == SLOTS && k <= SLOTS && slots[k..] == other[k..]
    requires HoldsFrom(h, slots, k, nodes)
    ensures HoldsFrom(h, other, k, nodes)
    decreases SLOTS - k
  {
    hide NodeScheme, Pairs;
    if k < SLOTS {
      assert slots[k] == slots[k..][0] == other[k];
      assert slots[k + 1..] == slots[k..][1..] == other[k + 1..];
      HoldsFrame(h, slots, other, k + 1, Pairs(h, NodeScheme(), k + 1, nodes));
    }
  }

  /** Carry-merge on the slots is appending to the sequence they stand for. */
  lemma {:induction false} CarryHolds(h: HashFn, slots: seq<Digest>, k: nat, nodes: seq<Digest>, current: Digest)
    requires |slots| == SLOTS && k <= MAX_DEPTH && |nodes| + 1 <= Pow2(MAX_DEPTH - k)
    requires HoldsFrom(h, slots, k, nodes)
    ensures HoldsFrom(h, Carry(h, slots, |nodes|, k, current), k, nodes + [current])
    ensures Carry(h, slots, |nodes|, k, current)[..k] == slots[..k]
    decreases SLOTS - k
  {
    hide NodeScheme, NodeInput, Pairs, Pow2;
    var s := NodeScheme();
    var up := Pairs(h, s, k + 1, nodes);
    PairsAppend(h, s, k + 1, nodes, current);
    if |nodes| % 2 == 0 {
      HoldsFrame(h, slots, slots[k := current], k + 1, up);
    } else {
      CarryLevel(|nodes|, k);
      var merged := h(NodeInput(s, k + 1, slots[k], current));
      HoldsFrame(h, slots, slots[k := ZERO], k + 1, up);
      CarryHolds(h, slots[k := ZERO], k + 1, up, merged);
      var result := Carry(h, slots, |nodes|, k, current);
      assert result[k] == result[..k + 1][k] == ZERO;
      assert result[..k] == result[..k + 1][..k] == slots[..k];
    }
  }

  /** Every slot holds the last node of its level when the level is odd, and zero otherwise. */
  lemma {:induction false} SlotIsLast(h: HashFn, slots: seq<Digest>, leaves: seq<Digest>, k: nat)
    requires |slots| == SLOTS && k < SLOTS && HoldsFrom(h, slots, 0, leaves)
    ensures var nodes := Level(h, NodeScheme(), leaves, k);
      HoldsFrom(h, slots, k, nodes)
      && slots[k] == (if |nodes| % 2 == 1 then nodes[|nodes| - 1] else ZERO)
    decreases k
  {
    hide NodeScheme, Pairs;
    if k > 0 { SlotIsLast(h, slots, leaves, k - 1); }
  }

  lemma HoldsIsValid(h: HashFn, f: Frontier, leaves: seq<Digest>)
    requires |f.slots| == SLOTS && (forall k :: 0 <= k < SLOTS ==> |f.slots[k]| == 32)
    requires f.mask == f.nextIndex == |leaves| <= MAX_PADDED_CHUNKS && HoldsFrom(h, f.slots, 0, leaves)
    ensures Represents(h, f, leaves)
  {
    hide NodeScheme, Level, HoldsFrom;
    forall k | 0 <= k < SLOTS ensures !Bit(f.mask, k) ==> f.slots[k] == ZERO {
      SlotIsLast(h, f.slots, leaves, k);
      LevelSize(h, NodeScheme(), leaves, k);
    }
  }

  lemma EmptyHolds(h: HashFn, k: nat)
    requires k <= SLOTS
    ensures HoldsFrom(h, EmptyFrontier().slots, k, [])
    decreases SLOTS - k
  {
    if k < SLOTS { EmptyHolds(h, k + 1); }
  }

  lemma EmptyRepresents(h: HashFn)
    ensures Represents(h, EmptyFrontier(), [])
  {
    EmptyHolds(h, 0);
    HoldsIsValid(h, EmptyFrontier(), []);
  }

  /** Appending a node appends a leaf; only a full frontier refuses. */
  lemma AppendRepresents(h: HashFn, f: Frontier, leaves: seq<Digest>, node: Digest)
    requires Represents(h, f, leaves)
    ensures |leaves| < 1024 ==>
      AppendNode(h, f, node).Some? && Represents(h, AppendNode(h, f, node).value, leaves + [node])
    ensures |leaves| >= 1024 ==> AppendNode(h, f, node).None?
  {
    hide NodeScheme, Carry, HoldsFrom, Pow2, Shr;
    if |leaves| < MAX_PADDED_CHUNKS {
      CounterFits(|leaves|);
      CarryHolds(h, f.slots, 0, leaves, node);
      HoldsIsValid(h, AppendNode(h, f, node).value, leaves + [node]);
    }
  }

  // ---------- every run ----------

  function AppendAll(h: HashFn, nodes: seq<Digest>): Option<Frontier> {
    if nodes == [] then Some(EmptyFrontier())
    else
      var before := AppendAll(h, nodes[..|nodes| - 1]);
      if before.None? then None else AppendNode(h, before.value, nodes[|nodes| - 1])
  }

  /** For every sequence of appends: it succeeds exactly while it fits, the mask and the counter both
      equal its length, and the frontier stands for exactly the nodes appended, in order. */
  lemma {:induction false} EveryRun(h: HashFn, nodes: seq<Digest>)
    ensures AppendAll(h, nodes).Some? <==> |nodes| <= 1024
    ensures AppendAll(h, nodes).Some? ==> Represents(h, AppendAll(h, nodes).value, nodes)
  {
    if nodes == [] {
      EmptyRepresents(h);
    } else {
      var before := nodes[..|nodes| - 1];
      EveryRun(h, before);
      assert nodes == before + [nodes[|nodes| - 1]];
      if AppendAll(h, before).Some? {
        AppendRepresents(h, AppendAll(h, before).value, before, nodes[|nodes| - 1]);
      }
    }
  }

  lemma {:induction false} ShrFloor(n: nat, k: nat)
    ensures Shr(n, k) * Pow2(k) <= n
  {
    if k > 0 {
      ShrFloor(n, k - 1);
      BlockArithmetic(Shr(n, k), Pow2(k - 1));
      MulMonotone(2 * Shr(n, k), Shr(n, k - 1), Pow2(k - 1));
    }
  }

  lemma MulMonotone(a: nat, b: nat, p: nat)
    requires a <= b
    ensures a * p <= b * p
  {
  }

  /** In a frontier that stands for n leaves, as every run's does, each set bit k of the mask holds
      the root of the aligned block of 2^k consecutive leaves it counts, the last complete one, and
      each unset bit holds zero. */
  lemma SlotsAreBlockRoots(h: HashFn, f: Frontier, leaves: seq<Digest>, k: nat)
    requires Represents(h, f, leaves) && k < SLOTS
    ensures f.mask == |leaves|
    ensures Bit(f.mask, k) ==>
      && (Shr(f.mask, k) - 1 + 1) * Pow2(k) <= |leaves|
      && f.slots[k] == Root(h, NodeScheme(), k, Block(leaves, k, Shr(f.mask, k) - 1))
    ensures !Bit(f.mask, k) ==> f.slots[k] == ZERO
  {
    hide NodeScheme, Root, Level, Block, HoldsFrom, Pow2, Shr;
    if Bit(f.mask, k) {
      SlotIsLast(h, f.slots, leaves, k);
      LevelSize(h, NodeScheme(), leaves, k);
      ShrFloor(|leaves|, k);
      LevelIsRoot(h, NodeScheme(), leaves, k, Shr(|leaves|, k) - 1);
    }
  }

  // ---------- chunks, padding and the root ----------

  function AppendChunk(
      h: HashFn, f: Frontier, subject: Bytes, rawLength: int, chunkSize: int, index: int, chunk: Bytes
      ): Option<Frontier>
  {
    var geometry := GeometryOf(rawLength, chunkSize);
    if geometry.None? || !(0 <= index < geometry.value.chunkCount) || !ValidFrontier(f) || f.nextIndex != index
       || |chunk| != Min(chunkSize, rawLength - index * chunkSize) || |subject| != 32 then None
    else AppendNode(h, f, h(LeafInput(ObservationScheme(subject), index, chunk)))
  }

  /** Empty leaves from index `i` up to `padded`. */
  function AppendPadding(h: HashFn, f: Frontier, subject: Digest, i: nat, padded: nat): Option<Frontier>
    decreases padded - i
  {
    if i >= padded then Some(f)
    else
      var next := AppendNode(h, f, h(EmptyInput(ObservationScheme(subject), i)));
      if next.None? then None else AppendPadding(h, next.value, subject, i + 1, padded)
  }

  lemma {:induction false} PaddingRepresents(h: HashFn, f: Frontier, subject: Digest, i: nat, leaves: seq<Digest>)
    requires |leaves| <= MAX_PADDED_CHUNKS && i <= |leaves| && Represents(h, f, leaves[..i])
    requires forall j :: i <= j < |leaves| ==> leaves[j] == h(EmptyInput(ObservationScheme(subject), j))
    ensures AppendPadding(h, f, subject, i, |leaves|).Some?
    ensures Represents(h, AppendPadding(h, f, subject, i, |leaves|).value, leaves)
    decreases |leaves| - i
  {
    hide ObservationScheme, EmptyInput, NodeScheme, Represents, AppendNode;
    if i < |leaves| {
      assert Represents(h, f, leaves[..i]);
      AppendRepresents(h, f, leaves[..i], leaves[i]);
      assert leaves[..i + 1] == leaves[..i] + [leaves[i]];
      PaddingRepresents(h, AppendNode(h, f, leaves[i]).value, subject, i + 1, leaves);
    } else {
      assert leaves[..i] == leaves;
    }
  }

  /** A frontier over a full tree has one slot: the root. */
  lemma FullTree(h: HashFn, f: Frontier, subject: Digest, d: nat, leaves: seq<Digest>)
    requires d < SLOTS && |leaves| == Pow2(d) && Represents(h, f, leaves)
    ensures f.nextIndex == Pow2(d) && f.mask == Pow2(d)
    ensures f.slots[d] == Root(h, ObservationScheme(subject), d, leaves)
  {
    SubjectFree(h, subject, leaves, d);
    LastLevelIsRoot(h, ObservationScheme(subject), leaves, d);
    hide NodeScheme, ObservationScheme, Root, Level, HoldsFrom, Pow2, Shr;
    SlotIsLast(h, f.slots, leaves, d);
  }

  lemma {:induction false} SubjectFreePairs(h: HashFn, subject: Digest, k: nat, nodes: seq<Digest>)
    ensures Pairs(h, NodeScheme(), k, nodes) == Pairs(h, ObservationScheme(subject), k, nodes)
  {
    if |nodes| >= 2 {
      SubjectFreePairs(h, subject, k, nodes[2..]);
      assert NodeInput(NodeScheme(), k, nodes[0], nodes[1])
        == NodeInput(ObservationScheme(subject), k, nodes[0], nodes[1]) by {
        ObservationSchemeSeparated(ZERO, subject);
        hide ObservationScheme;
      }
      hide NodeScheme, ObservationScheme, NodeInput;
    }
  }

  lemma {:induction false} SubjectFree(h: HashFn, subject: Digest, leaves: seq<Digest>, k: nat)
    ensures Level(h, NodeScheme(), leaves, k) == Level(h, ObservationScheme(subject), leaves, k)
  {
    hide NodeScheme, ObservationScheme, Pairs;
    if k > 0 {
      SubjectFree(h, subject, leaves, k - 1);
      SubjectFreePairs(h, subject, k, Level(h, NodeScheme(), leaves, k - 1));
    }
  }

  /** The root over the exact raw bytes, as the plain padded tree defines it. */
  function ObservationRoot(h: HashFn, raw: Bytes, subject: Bytes, chunkSize: int): Option<Digest> {
    if Admitted(|raw|, chunkSize) && |subject| == 32
    then Some(ChunkRoot(h, ObservationScheme(subject), Chunks(raw, chunkSize))) else None
  }

  function FinalizeFrontier(h: HashFn, f: Frontier, subject: Bytes, rawLength: int, chunkSize: int): Option<Digest> {
    var geometry := GeometryOf(rawLength, chunkSize);
    if geometry.None? || !ValidFrontier(f) || f.nextIndex != geometry.value.chunkCount then None
    else if |subject| != 32 then
      if geometry.value.chunkCount < geometry.value.paddedChunkCount then None
      else Slot(f, geometry.value.treeDepth)
    else
      var padded := AppendPadding(h, f, subject, geometry.value.chunkCount, geometry.value.paddedChunkCount);
      if padded.None? then None else Slot(padded.value, geometry.value.treeDepth)
  }

  function Slot(f: Frontier, k: nat): Option<Digest> {
    if k < |f.slots| && |f.slots[k]| == 32 then Some(f.slots[k]) else None
  }

  // ---------- appending keeps a frontier valid, whatever its slots hold ----------

  predicate ZeroFrom(slots: seq<Digest>, level: nat, n: nat)
    requires |slots| == SLOTS && level <= SLOTS
    decreases SLOTS - level
  {
    level < SLOTS ==> (n % 2 == 0 ==> slots[level] == ZERO) && ZeroFrom(slots, level + 1, n / 2)
  }

  lemma {:induction false} ZeroFromValid(slots: seq<Digest>, n: nat, level: nat)
    requires |slots| == SLOTS && level <= SLOTS && forall k :: 0 <= k < SLOTS ==> Bit(n, k) || slots[k] == ZERO
    ensures ZeroFrom(slots, level, Shr(n, level))
    decreases SLOTS - level
  {
    if level < SLOTS { ZeroFromValid(slots, n, level + 1); }
  }

  lemma {:induction false} ValidFromZero(slots: seq<Digest>, n: nat, k: nat)
    requires |slots| == SLOTS && k < SLOTS && ZeroFrom(slots, 0, n)
    ensures ZeroFrom(slots, k, Shr(n, k)) && (Bit(n, k) || slots[k] == ZERO)
    decreases k
  {
    if k > 0 { ValidFromZero(slots, n, k - 1); }
  }

  lemma {:induction false} ZeroFrame(slots: seq<Digest>, other: seq<Digest>, level: nat, n: nat)
    requires |slots| == |other| == SLOTS && level <= SLOTS && slots[level..] == other[level..]
      && ZeroFrom(slots, level, n)
    ensures ZeroFrom(other, level, n)
    decreases SLOTS - level
  {
    if level < SLOTS {
      assert slots[level] == slots[level..][0] == other[level];
      assert slots[level + 1..] == slots[level..][1..] == other[level + 1..];
      ZeroFrame(slots, other, level + 1, n / 2);
    }
  }

  lemma {:induction false} CarryZero(h: HashFn, slots: seq<Digest>, n: nat, level: nat, current: Digest)
    requires |slots| == SLOTS && level <= MAX_DEPTH && n + 1 <= Pow2(MAX_DEPTH - level) && ZeroFrom(slots, level, n)
    ensures ZeroFrom(Carry(h, slots, n, level, current), level, n + 1)
    ensures Carry(h, slots, n, level, current)[..level] == slots[..level]
    decreases n
  {
    hide NodeScheme, NodeInput, Pow2, ZeroFrom, Carry;
    ZeroStep(slots, level, n);
    if n % 2 == 0 {
      var stored := slots[level := current];
      CarryEven(h, slots, n, level, current);
      ZeroFrame(slots, stored, level + 1, n / 2);
      ZeroStep(stored, level, n + 1);
    } else {
      CarryLevel(n, level);
      var cleared := slots[level := ZERO];
      ZeroFrame(slots, cleared, level + 1, n / 2);
      var merged := h(NodeInput(NodeScheme(), level + 1, slots[level], current));
      CarryZero(h, cleared, n / 2, level + 1, merged);
      CarryOdd(h, slots, n, level, current);
      var result := Carry(h, cleared, n / 2, level + 1, merged);
      PrefixFrame(result, cleared, level);
      ZeroStep(result, level, n + 1);
    }
  }

  lemma ZeroStep(slots: seq<Digest>, level: nat, n: nat)
    requires |slots| == SLOTS && level < SLOTS
    ensures ZeroFrom(slots, level, n) <==> (n % 2 == 0 ==> slots[level] == ZERO) && ZeroFrom(slots, level + 1, n / 2)
  {
  }

  lemma CarryEven(h: HashFn, slots: seq<Digest>, n: nat, level: nat, current: Digest)
    requires |slots| == SLOTS && level <= MAX_DEPTH && n + 1 <= Pow2(MAX_DEPTH - level) && n % 2 == 0
    ensures Carry(h, slots, n, level, current) == slots[level := current]
  {
  }

  lemma CarryOdd(h: HashFn, slots: seq<Digest>, n: nat, level: nat, current: Digest)
    requires |slots| == SLOTS && level <= MAX_DEPTH && n + 1 <= Pow2(MAX_DEPTH - level) && n % 2 == 1
    ensures level < MAX_DEPTH && n / 2 + 1 <= Pow2(MAX_DEPTH - (level + 1))
    ensures Carry(h, slots, n, level, current)
         == Carry(h, slots[level := ZERO], n / 2, level + 1,
           h(NodeInput(NodeScheme(), level + 1, slots[level], current)))
  {
    hide NodeScheme, NodeInput;
    CarryLevel(n, level);
  }

  lemma PrefixFrame(result: seq<Digest>, slots: seq<Digest>, level: nat)
    requires level < |slots| && |result| == |slots| && result[..level + 1] == slots[..level + 1]
    ensures result[level] == slots[level] && result[..level] == slots[..level]
  {
    assert result[level] == result[..level + 1][level];
    assert result[..level] == result[..level + 1][..level];
  }

  /** Whatever a valid frontier holds, an accepted append gives a valid frontier with one more leaf. */
  lemma AppendKeepsValid(h: HashFn, f: Frontier, node: Bytes)
    requires AppendNode(h, f, node).Some?
    ensures ValidFrontier(AppendNode(h, f, node).value) && AppendNode(h, f, node).value.nextIndex == f.nextIndex + 1
  {
    hide Carry, ZeroFrom, Bit, Pow2;
    var n: nat := f.nextIndex;
    CounterFits(n);
    ZeroFromValid(f.slots, n, 0);
    assert Shr(n, 0) == n;
    var result := Carry(h, f.slots, n, 0, node);
    CarryZero(h, f.slots, n, 0, node);
    assert AppendNode(h, f, node) == Some(Frontier(result, n + 1, n + 1));
    hide *;
    AllZeroBits(result, n + 1);
  }

  lemma AllZeroBits(slots: seq<Digest>, n: nat)
    requires |slots| == SLOTS && n <= MAX_PADDED_CHUNKS && ZeroFrom(slots, 0, n)
    ensures ValidFrontier(Frontier(slots, n, n))
  {
    hide ZeroFrom, Bit;
    forall k | 0 <= k < SLOTS ensures Bit(n, k) || slots[k] == ZERO { ValidFromZero(slots, n, k); }
  }

  /** Padding any valid frontier up to the capacity succeeds and keeps it valid. */
  lemma {:induction false} PaddingKeepsValid(h: HashFn, f: Frontier, subject: Digest, i: nat, padded: nat)
    requires ValidFrontier(f) && f.nextIndex == i <= padded <= MAX_PADDED_CHUNKS
    ensures AppendPadding(h, f, subject, i, padded).Some?
    ensures ValidFrontier(AppendPadding(h, f, subject, i, padded).value)
    ensures AppendPadding(h, f, subject, i, padded).value.nextIndex == padded
    decreases padded - i
  {
    hide ObservationScheme, EmptyInput, Carry, Pow2, Bit;
    if i < padded {
      var node := h(EmptyInput(ObservationScheme(subject), i));
      AppendKeepsValid(h, f, node);
      PaddingKeepsValid(h, AppendNode(h, f, node).value, subject, i + 1, padded);
    }
  }

  /** Exactly when finalizing gives a root.  The subject's length matters only if there is padding to append:
      with a chunk count that is a power of two, a subject of any length is let through. */
  lemma FinalizeDefinedIff(h: HashFn, f: Frontier, subject: Bytes, rawLength: int, chunkSize: int)
    ensures FinalizeFrontier(h, f, subject, rawLength, chunkSize).Some?
      <==> && Admitted(rawLength, chunkSize) && ValidFrontier(f) && f.nextIndex == ChunkCount(rawLength, chunkSize)
           && (|subject| == 32 || IsPowerOfTwo(ChunkCount(rawLength, chunkSize)))
  {
    hide Depth, Pow2, Bit, ChunkCount, AppendPadding;
    if Admitted(rawLength, chunkSize) && ValidFrontier(f) && f.nextIndex == ChunkCount(rawLength, chunkSize) {
      GeometryBounds(rawLength, chunkSize);
      PaddedCount(ChunkCount(rawLength, chunkSize));
      if |subject| == 32 {
        PaddingKeepsValid(h, f, subject, f.nextIndex, Pow2(Depth(f.nextIndex)));
      }
    }
  }

  lemma PaddedCount(count: nat)
    ensures count <= Pow2(Depth(count))
  {
  }

  /** A complete frontier over one chunk is finalized under an empty subject, with no error. */
  lemma EmptySubjectIsFinalized(h: HashFn, node: Digest)
    ensures var f := AppendNode(h, EmptyFrontier(), node);
      f.Some? && FinalizeFrontier(h, f.value, [], MIN_ACCOUNT_BYTES, 16_384) == Some(node)
  {
    EmptyRepresents(h);
    RepresentsIsValid(h, EmptyFrontier(), []);
    AppendKeepsValid(h, EmptyFrontier(), node);
    assert ChunkCount(MIN_ACCOUNT_BYTES, 16_384) == 1 && Depth(1) == 0 && Pow2(0) == 1;
  }

  // ---------- the loops ----------

  /** Pads a complete frontier and returns its one slot.  The checks after the loop cannot fail. */
  method FinalizeFrontierV1(
      h: HashFn, f: Frontier, subject: Bytes, rawLength: int, chunkSize: int) returns (r: Option<Digest>)
    ensures r == FinalizeFrontier(h, f, subject, rawLength, chunkSize)
  {
    hide ObservationScheme, EmptyInput, AppendNode, Pow2, Depth, ChunkCount, Bit;
    var found := ProgramDataObservationGeometry(rawLength, chunkSize);
    if found.None? || !ValidFrontier(f) || f.nextIndex != found.value.chunkCount { return None; }
    var geometry := found.value;
    GeometryBounds(rawLength, chunkSize);
    var state := f;
    for i := geometry.chunkCount to geometry.paddedChunkCount
      invariant ValidFrontier(state) && state.nextIndex == i
      invariant |subject| != 32 ==> i == geometry.chunkCount && state == f
      invariant |subject| == 32 ==> (AppendPadding(h, state, subject, i, geometry.paddedChunkCount)
                                     == AppendPadding(h, f, subject, geometry.chunkCount, geometry.paddedChunkCount))
    {
      if |subject| != 32 { return None; }
      var node := h(EmptyInput(ObservationScheme(subject), i));
      var next := AppendNodeV1(h, state, node);
      if next.None? { return None; }
      AppendKeepsValid(h, state, node);
      state := next.value;
    }
    if !ValidFrontier(state) { return None; }
    if state.nextIndex != geometry.paddedChunkCount || state.mask != Pow2(geometry.treeDepth) { return None; }
    r := Some(state.slots[geometry.treeDepth]);
  }

  lemma LeafAt(h: HashFn, s: Scheme, chunks: seq<Bytes>, i: nat)
    requires i < Pow2(Depth(|chunks|))
    ensures ChunkLeaves(h, s, chunks)[i] == h(if i < |chunks| then LeafInput(s, i, chunks[i]) else EmptyInput(s, i))
  {
    hide LeafInput, EmptyInput, Pow2, Depth;
    assert ChunkLeaves(h, s, chunks)[i] == h(LeafInputs(s, chunks)[i]);
  }

  /** Finalizing the frontier over every chunk's leaf gives the plain tree's root. */
  lemma FinalizeIsRoot(h: HashFn, f: Frontier, subject: Digest, raw: Bytes, chunkSize: nat)
    requires Admitted(|raw|, chunkSize)
    requires var count := ChunkCount(|raw|, chunkSize);
      count <= Pow2(Depth(count)) && |Chunks(raw, chunkSize)| == count
      && Represents(h, f, ChunkLeaves(h, ObservationScheme(subject), Chunks(raw, chunkSize))[..count])
    ensures FinalizeFrontier(h, f, subject, |raw|, chunkSize) == ObservationRoot(h, raw, subject, chunkSize)
  {
    hide ObservationScheme, EmptyInput, LeafInput, ChunkLeaves, Chunks, ChunkCount, Depth, Pow2, AppendPadding, Root,
      Represents;
    var s, chunks, count := ObservationScheme(subject), Chunks(raw, chunkSize), ChunkCount(|raw|, chunkSize);
    var leaves, d := ChunkLeaves(h, s, chunks), Depth(count);
    GeometryBounds(|raw|, chunkSize);
    PaddingLeaves(h, s, chunks);
    PaddingRepresents(h, f, subject, count, leaves);
    FinalSlot(h, AppendPadding(h, f, subject, count, |leaves|).value, subject, d, leaves);
    assert Represents(h, f, leaves[..count]);
    RepresentsIsValid(h, f, leaves[..count]);
  }

  lemma RepresentsIsValid(h: HashFn, f: Frontier, leaves: seq<Digest>)
    requires Represents(h, f, leaves)
    ensures ValidFrontier(f) && f.nextIndex == |leaves|
  {
  }

  lemma FinalSlot(h: HashFn, f: Frontier, subject: Digest, d: nat, leaves: seq<Digest>)
    requires d < SLOTS && |leaves| == Pow2(d) && Represents(h, f, leaves)
    ensures Slot(f, d) == Some(Root(h, ObservationScheme(subject), d, leaves))
  {
    hide Root, HoldsFrom, Pow2;
    FullTree(h, f, subject, d, leaves);
  }

  /** Appending the next chunk, when the frontier stands for the chunks before it, succeeds and
      stands for one chunk more. */
  lemma AppendChunkRepresents(h: HashFn, f: Frontier, subject: Digest, raw: Bytes, chunkSize: nat, i: nat)
    requires Admitted(|raw|, chunkSize) && i < |Chunks(raw, chunkSize)| <= MAX_OBSERVED_CHUNKS
    requires Represents(h, f, ChunkLeaves(h, ObservationScheme(subject), Chunks(raw, chunkSize))[..i])
    ensures var next := AppendChunk(h, f, subject, |raw|, chunkSize, i, Chunks(raw, chunkSize)[i]);
      next.Some? && Represents(h, next.value,
        ChunkLeaves(h, ObservationScheme(subject), Chunks(raw, chunkSize))[..i + 1])
  {
    hide ObservationScheme, LeafInput, ChunkLeaves, Chunks, ChunkCount, HoldsFrom, Shr, AppendNode, Pow2, Depth,
      ValidFrontier;
    var s, chunks := ObservationScheme(subject), Chunks(raw, chunkSize);
    var leaves := ChunkLeaves(h, s, chunks);
    ChunksHaveRightSizes(raw, chunkSize);
    ChunksCount(raw, chunkSize);
    LeafAt(h, s, chunks, i);
    assert leaves[..i + 1] == leaves[..i] + [leaves[i]];
    AppendRepresents(h, f, leaves[..i], leaves[i]);
  }

  /** The incremental form computes the plain tree: appending every chunk in order and finalizing
      gives the root of the recursive tree over the padded leaves, for every raw byte string and
      every candidate chunk size. */
  method ProgramDataObservationMerkleRoot(
      h: HashFn, raw: Bytes, subject: Bytes, chunkSize: int) returns (r: Option<Digest>)
    ensures r == ObservationRoot(h, raw, subject, chunkSize)
  {
    hide ObservationScheme, LeafInput, ChunkLeaves, ChunkRoot, Chunks, HoldsFrom, Shr, AppendNode, Pow2, Depth,
      ValidFrontier, FinalizeFrontier;
    var found := ProgramDataObservationGeometry(|raw|, chunkSize);
    if found.None? { return None; }
    var geometry := found.value;
    GeometryBounds(|raw|, chunkSize);
    ChunksCount(raw, chunkSize);
    var state := EmptyFrontier();
    EmptyRepresents(h);
    ghost var chunks := Chunks(raw, chunkSize);
    ghost var leaves := if |subject| == 32 then ChunkLeaves(h, ObservationScheme(subject), chunks) else [];
    assert |subject| == 32 ==> leaves[..0] == [];
    for index := 0 to geometry.chunkCount
      invariant |subject| != 32 ==> index == 0
      invariant |subject| == 32 ==> Represents(h, state, leaves[..index])
    {
      ChunkAt(raw, chunkSize, index);
      var start := index * chunkSize;
      var next := AppendChunk(h, state, subject, |raw|, chunkSize, index, raw[start..Min(start + chunkSize, |raw|)]);
      if next.None? {
        if |subject| == 32 { AppendChunkRepresents(h, state, subject, raw, chunkSize, index); }
        return None;
      }
      AppendChunkRepresents(h, state, subject, raw, chunkSize, index);
      state := next.value;
    }
    FinalizeIsRoot(h, state, subject, raw, chunkSize);
    r := FinalizeFrontierV1(h, state, subject, |raw|, chunkSize);
  }

  // ---------- the root of small accounts, written out ----------

  function LeafBytes(subject: Digest, index: nat, chunk: Bytes): Bytes {
    Ascii("AMOEBA_PROGRAMDATA_OBSERVATION_CHUNK_V1") + subject + LE(index, 4) + LE(|chunk|, 4) + chunk
  }

  function EmptyBytes(subject: Digest, index: nat): Bytes {
    Ascii("AMOEBA_PROGRAMDATA_OBSERVATION_EMPTY_V1") + subject + LE(index, 4)
  }

  function NodeBytes(level: Byte, left: Digest, right: Digest): Bytes {
    Ascii("AMOEBA_PROGRAMDATA_OBSERVATION_NODE_V1") + [level] + left + right
  }

  lemma InputsWrittenOut(subject: Digest, level: nat, index: nat, chunk: Bytes, left: Digest, right: Digest)
    requires level < 256
    ensures LeafInput(ObservationScheme(subject), index, chunk) == LeafBytes(subject, index, chunk)
    ensures EmptyInput(ObservationScheme(subject), index) == EmptyBytes(subject, index)
    ensures NodeInput(ObservationScheme(subject), level, left, right) == NodeBytes(level, left, right)
  {
    hide LeafInput, EmptyInput, NodeInput, ObservationScheme, Ascii, LE;
    ObservationLeafBytes(subject, index, chunk);
    ObservationEmptyBytes(subject, index);
    ObservationNodeBytes(subject, level, left, right);
    var s := ObservationScheme(subject);
    var x, y, z := LeafInput(s, index, chunk), EmptyInput(s, index), NodeInput(s, level, left, right);
    assert x == x[..39] + x[39..71] + x[71..75] + x[75..79] + x[79..];
    assert y == y[..39] + y[39..71] + y[71..];
    assert z == z[..38] + [z[38]] + z[39..71] + z[71..];
  }

  /** An account of two chunks: its root carries level one, the first leaf and the second leaf. */
  lemma TwoChunkRoot(h: HashFn, raw: Bytes, subject: Digest, size: nat)
    requires Admitted(|raw|, size) && size < |raw| <= 2 * size
    ensures ObservationRoot(h, raw, subject, size)
         == Some(h(NodeBytes(1, h(LeafBytes(subject, 0, raw[..size])), h(LeafBytes(subject, 1, raw[size..])))))
  {
    hide LeafInput, EmptyInput, NodeInput, ObservationScheme, LeafBytes, NodeBytes, EmptyBytes, Chunks, ChunkRoot;
    var a, b := raw[..size], raw[size..];
    TwoChunks(raw, size);
    TwoChunkTree(h, ObservationScheme(subject), a, b);
    InputsWrittenOut(subject, 1, 0, a, Zeros(32), Zeros(32));
    InputsWrittenOut(subject, 1, 1, b, h(LeafBytes(subject, 0, a)), h(LeafBytes(subject, 1, b)));
  }

  /** An account of three chunks: level one below level two, with the padding leaf of index three. */
  lemma ThreeChunkRoot(h: HashFn, raw: Bytes, subject: Digest, size: nat)
    requires Admitted(|raw|, size) && 2 * size < |raw| <= 3 * size
    ensures
      var left := h(NodeBytes(1, h(LeafBytes(subject, 0, raw[..size])), h(LeafBytes(subject, 1, raw[size..2 * size]))));
      var right := h(NodeBytes(1, h(LeafBytes(subject, 2, raw[2 * size..])), h(EmptyBytes(subject, 3))));
      ObservationRoot(h, raw, subject, size) == Some(h(NodeBytes(2, left, right)))
  {
    hide LeafInput, EmptyInput, NodeInput, ObservationScheme, LeafBytes, NodeBytes, EmptyBytes, Chunks, ChunkRoot;
    var a, b, c := raw[..size], raw[size..2 * size], raw[2 * size..];
    ThreeChunks(raw, size);
    ThreeChunkTree(h, ObservationScheme(subject), a, b, c);
    var left := h(NodeBytes(1, h(LeafBytes(subject, 0, a)), h(LeafBytes(subject, 1, b))));
    var right := h(NodeBytes(1, h(LeafBytes(subject, 2, c)), h(EmptyBytes(subject, 3))));
    InputsWrittenOut(subject, 1, 0, a, h(LeafBytes(subject, 0, a)), h(LeafBytes(subject, 1, b)));
    InputsWrittenOut(subject, 1, 1, b, h(LeafBytes(subject, 2, c)), h(EmptyBytes(subject, 3)));
    InputsWrittenOut(subject, 2, 2, c, left, right);
    InputsWrittenOut(subject, 2, 3, c, left, right);
  }

  /** What appending a chunk refuses, and the leaf it appends. */
  lemma AppendChunkDefinedIff(
    h: HashFn, f: Frontier, subject: Bytes, rawLength: int, chunkSize: int, index: int, chunk: Bytes)
    ensures AppendChunk(h, f, subject, rawLength, chunkSize, index, chunk).Some?
      <==> && 45 <= rawLength <= 10_485_760 && chunkSize in {16_384, 32_768, 65_536, 131_072}
           && 0 <= index && index * chunkSize < rawLength && ValidFrontier(f) && f.nextIndex == index
           && |chunk| == Min(chunkSize, rawLength - index * chunkSize) && |subject| == 32
    ensures var r := AppendChunk(h, f, subject, rawLength, chunkSize, index, chunk);
      r.Some? ==> r == AppendNode(h, f, h(LeafBytes(subject, index, chunk)))
  {
    hide LeafInput, ObservationScheme, LeafBytes, Carry, Bit, ChunkCount;
    if Admitted(rawLength, chunkSize) {
      GeometryBounds(rawLength, chunkSize);
      if 0 <= index { IndexInCount(rawLength, chunkSize, index); }
    }
    if |subject| == 32 && 0 <= index { InputsWrittenOut(subject, 0, index, chunk, Zeros(32), Zeros(32)); }
  }

  lemma IndexInCount(length: nat, size: nat, index: nat)
    requires size > 0
    ensures index < ChunkCount(length, size) <==> index * size < length
  {
    var c := ChunkCount(length, size);
    var r := (length + size - 1) % size;
    assert length + size - 1 == c * size + r;
    if index < c {
      assert (index + 1) * size <= c * size;
    } else {
      assert c * size <= index * size;
    }
  }

  lemma RawRootBinds(h: HashFn, s: Scheme, raw: Bytes, size: nat, t: Scheme, raw': Bytes, size': nat)
    requires SameKind(s, t) && 0 < size && 0 < size' && 0 < |raw| && 0 < |raw'|
    requires ChunkCount(|raw|, size) <= MAX_OBSERVED_CHUNKS && ChunkCount(|raw'|, size') <= MAX_OBSERVED_CHUNKS
    requires ChunkRoot(h, s, Chunks(raw, size)) == ChunkRoot(h, t, Chunks(raw', size'))
    requires CollisionFree(h, TreeInputs(h, s, Chunks(raw, size)) + TreeInputs(h, t, Chunks(raw', size')))
    ensures s == t && raw == raw' && (size == size' || |raw| <= Min(size, size'))
  {
    hide TreeInputs, ChunkRoot, Chunks, Join, ChunkCount;
    ChunksCount(raw, size);
    ChunksCount(raw', size');
    ChunkRootBinds(h, s, Chunks(raw, size), t, Chunks(raw', size'));
    JoinOfChunks(raw, size);
    JoinOfChunks(raw', size');
    assert Chunks(raw, size) != [] by { JoinOfNothing(); }
    ChunkAt(raw, size, 0);
    ChunkAt(raw', size', 0);
  }

  lemma JoinOfNothing()
    ensures Join([]) == []
  {
  }

  /** The observation root binds the subject and the raw bytes: equal roots under any subjects,
      lengths and candidate chunk sizes force both to be equal, and the chunk size too unless the
      account fits in one chunk of either size. */
  lemma ObservationRootBinds(
      h: HashFn, raw: Bytes, subject: Digest, size: nat, raw': Bytes, subject': Digest, size': nat)
    requires Admitted(|raw|, size) && Admitted(|raw'|, size')
    requires ObservationRoot(h, raw, subject, size) == ObservationRoot(h, raw', subject', size')
    requires CollisionFree(h, ObservationInputs(h, raw, subject, size) + ObservationInputs(h, raw', subject', size'))
    ensures subject == subject' && raw == raw'
    ensures size == size' || |raw| <= Min(size, size')
  {
    hide ObservationScheme, TreeInputs, ChunkRoot, Chunks, ChunkCount;
    GeometryBounds(|raw|, size);
    GeometryBounds(|raw'|, size');
    ObservationSchemeSeparated(subject, subject');
    RawRootBinds(h, ObservationScheme(subject), raw, size, ObservationScheme(subject'), raw', size');
  }

  /** A byte string of at most one chunk's size is its own single chunk. */
  lemma OneChunk(raw: Bytes, size: nat)
    requires 0 < |raw| <= size
    ensures Chunks(raw, size) == [raw]
  {
    assert Min(size, |raw|) == |raw| && raw[..|raw|] == raw && raw[|raw|..] == [];
    assert Chunks([], size) == [];
  }

  /** An account that fits in one chunk of either size is one leaf in both trees. */
  lemma OneChunkRootsAgree(h: HashFn, raw: Bytes, subject: Digest, size: nat, size': nat)
    requires Admitted(|raw|, size) && Admitted(|raw|, size') && |raw| <= Min(size, size')
    ensures ObservationRoot(h, raw, subject, size) == ObservationRoot(h, raw, subject, size')
  {
    hide ObservationScheme, ChunkRoot, Chunks;
    OneChunk(raw, size);
    OneChunk(raw, size');
  }

  /** Exactly when two observation roots are equal. */
  lemma ObservationRootsEqualIff(
      h: HashFn, raw: Bytes, subject: Digest, size: nat, raw': Bytes, subject': Digest, size': nat)
    requires Admitted(|raw|, size) && Admitted(|raw'|, size')
    requires CollisionFree(h, ObservationInputs(h, raw, subject, size) + ObservationInputs(h, raw', subject', size'))
    ensures ObservationRoot(h, raw, subject, size) == ObservationRoot(h, raw', subject', size')
      <==> subject == subject' && raw == raw' && (size == size' || |raw| <= Min(size, size'))
  {
    hide ObservationRoot, ObservationInputs;
    if ObservationRoot(h, raw, subject, size) == ObservationRoot(h, raw', subject', size') {
      ObservationRootBinds(h, raw, subject, size, raw', subject', size');
    } else if subject == subject' && raw == raw' && |raw| <= Min(size, size') {
      OneChunkRootsAgree(h, raw, subject, size, size');
    }
  }

  /** The smallest account has one root under two chunk sizes. */
  lemma SizesShareARoot(h: HashFn, subject: Digest)
    ensures ObservationRoot(h, Zeros(MIN_ACCOUNT_BYTES), subject, 16_384).Some?
    ensures ObservationRoot(h, Zeros(MIN_ACCOUNT_BYTES), subject, 16_384)
         == ObservationRoot(h, Zeros(MIN_ACCOUNT_BYTES), subject, 32_768)
  {
    hide ObservationScheme, ChunkRoot, Chunks;
    OneChunkRootsAgree(h, Zeros(MIN_ACCOUNT_BYTES), subject, 16_384, 32_768);
  }

  ghost function ObservationInputs(h: HashFn, raw: Bytes, subject: Digest, size: nat): set<Bytes>
    requires size > 0
  {
    TreeInputs(h, ObservationScheme(subject), Chunks(raw, size))
  }
}
