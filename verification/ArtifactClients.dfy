/** The two list-building clients of the artifact tree: the Release 1 client, with its own proof verifier,
    and the V3 client.  Each is proved to compute what the controller computes. */
module ArtifactClients {
  import opened ByteStrings
  import opened MerkleTree
  import opened SiblingPaths
  import opened ArtifactTree

  const RELEASE1_MAX_ARTIFACT_BYTES: nat := 1_572_864
  const RELEASE1_MAX_CHUNKS: nat := 96

  function Release1ChunkCount(length: nat, chunkSize: int): Option<nat> {
    if 0 < length <= RELEASE1_MAX_ARTIFACT_BYTES && chunkSize == CHUNK then Some(ChunkCount(length, CHUNK)) else None
  }

  function Release1LeafHash(h: HashFn, index: nat, chunk: Bytes): Option<Digest> {
    if index < RELEASE1_MAX_CHUNKS && 0 < |chunk| <= CHUNK then Some(h(LeafInput(ArtifactScheme(), index, chunk)))
      else None
  }

  function Release1Root(h: HashFn, artifact: Bytes, chunkSize: int): Option<Digest> {
    if 0 < |artifact| <= RELEASE1_MAX_ARTIFACT_BYTES && chunkSize == CHUNK
    then Some(ChunkRoot(h, ArtifactScheme(), Chunks(artifact, CHUNK))) else None
  }

  function Release1Proof(h: HashFn, artifact: Bytes, index: int, chunkSize: int): Option<seq<Digest>> {
    if Release1Root(h, artifact, chunkSize).Some? && 0 <= index then ArtifactProof(h, artifact, index) else None
  }

  /** Building the next level as a list until one entry is left. */
  method ReduceList(h: HashFn, initial: seq<Digest>) returns (r: Option<Digest>)
    ensures r == if IsPowerOfTwo(|initial|)
                 then Some(Root(h, ArtifactScheme(), Depth(|initial|), initial)) else None
  {
    hide ArtifactScheme, Root, NodeInput, Pairs, Depth;
    ZeroIsNoPower();
    if |initial| == 0 || !IsPowerOfTwo(|initial|) {
      return None;
    }
    var level := initial;
    ghost var s, d, k := ArtifactScheme(), Depth(|initial|), 0;
    while |level| > 1
      invariant k <= d && |level| == Pow2(d - k)
      invariant level == Level(h, s, initial, k)
      decreases |level|
    {
      assert d - k > 0;
      level := NextLevel(h, level, k + 1);
      k := k + 1;
    }
    LastLevelIsRoot(h, s, initial, d);
    r := Some(level[0]);
  }

  // ---------- the leaves ----------

  /** The Release 1 leaves, over slices taken by index. */
  method InitialMerkleLevel(h: HashFn, artifact: Bytes, chunkSize: int) returns (r: Option<seq<Digest>>)
    ensures r == if Release1ChunkCount(|artifact|, chunkSize).Some?
                 then Some(ChunkLeaves(h, ArtifactScheme(), Chunks(artifact, CHUNK))) else None
  {
    hide ArtifactScheme, LeafInput, Chunks, ChunkLeaves, Pow2;
    var counted := Release1ChunkCount(|artifact|, chunkSize);
    if counted.None? { return None; }
    var count := counted.value;
    Geometry(|artifact|);
    ghost var chunks := Chunks(artifact, CHUNK);
    ChunksHaveRightSizes(artifact, CHUNK);
    var level: seq<Digest> := [];
    for index := 0 to count
      invariant |level| == index
      invariant forall j :: 0 <= j < index ==> level[j] == h(LeafInput(ArtifactScheme(), j, chunks[j]))
    {
      ChunkAt(artifact, CHUNK, index);
      var start := index * chunkSize;
      var leaf := Release1LeafHash(h, index, artifact[start..Min(start + chunkSize, |artifact|)]);
      if leaf.None? { return None; }
      level := level + [leaf.value];
    }
    var width :- NextPowerOfTwo(count);
    r := PadLevel(h, chunks, level, count, width);
  }

  /** The V3 leaves: `subarray` clamps the end of the last slice. */
  method ArtifactLevelV3(h: HashFn, artifact: Bytes) returns (r: Option<seq<Digest>>)
    ensures r == if 0 < |artifact| <= MAX_ARTIFACT_BYTES
                 then Some(ChunkLeaves(h, ArtifactScheme(), Chunks(artifact, CHUNK))) else None
  {
    hide ArtifactScheme, LeafInput, Chunks, ChunkLeaves, Pow2;
    var counted := ArtifactChunkCount(|artifact|);
    if counted.None? { return None; }
    var count := counted.value;
    Geometry(|artifact|);
    ghost var chunks := Chunks(artifact, CHUNK);
    ChunksHaveRightSizes(artifact, CHUNK);
    var level: seq<Digest> := [];
    for i := 0 to count
      invariant |level| == i
      invariant forall j :: 0 <= j < i ==> level[j] == h(LeafInput(ArtifactScheme(), j, chunks[j]))
    {
      ChunkAt(artifact, CHUNK, i);
      var leaf := LeafHash(h, i, artifact[i * CHUNK..Min((i + 1) * CHUNK, |artifact|)]);
      if leaf.None? { return None; }
      level := level + [leaf.value];
    }
    var width :- NextPowerOfTwo(count);
    r := PadLevel(h, chunks, level, count, width);
  }

  // ---------- roots and proofs ----------

  method ArtifactMerkleRootRelease1(h: HashFn, artifact: Bytes, chunkSize: int) returns (r: Option<Digest>)
    ensures r == Release1Root(h, artifact, chunkSize)
  {
    hide ArtifactScheme, Root, Chunks, ChunkLeaves;
    var level := InitialMerkleLevel(h, artifact, chunkSize);
    if level.None? { return None; }
    DepthOfPow2(Depth(|Chunks(artifact, CHUNK)|));
    r := ReduceList(h, level.value);
  }

  method ArtifactMerkleRootV3(h: HashFn, artifact: Bytes) returns (r: Option<Digest>)
    ensures r == ArtifactRoot(h, artifact)
  {
    hide ArtifactScheme, Root, Chunks, ChunkLeaves;
    var level := ArtifactLevelV3(h, artifact);
    if level.None? { return None; }
    DepthOfPow2(Depth(|Chunks(artifact, CHUNK)|));
    r := ReduceList(h, level.value);
  }

  method ArtifactMerkleProofRelease1(
      h: HashFn, artifact: Bytes, chunkIndex: int, chunkSize: int) returns (r: Option<seq<Digest>>)
    ensures r == Release1Proof(h, artifact, chunkIndex, chunkSize)
  {
    hide ArtifactScheme, Root, Chunks, ChunkLeaves, ProofOf;
    ChunksCount(artifact, CHUNK);
    var count := Release1ChunkCount(|artifact|, chunkSize);
    if count.None? || chunkIndex < 0 || chunkIndex >= count.value { return None; }
    var level := InitialMerkleLevel(h, artifact, chunkSize);
    if level.None? { return None; }
    var proof := SiblingPath(h, level.value, chunkIndex, Depth(count.value));
    r := Some(proof);
  }

  method ArtifactMerkleProofV3(h: HashFn, artifact: Bytes, index: int) returns (r: Option<seq<Digest>>)
    ensures r == if 0 <= index then ArtifactProof(h, artifact, index) else None
  {
    hide ArtifactScheme, Chunks, ChunkLeaves, ProofOf;
    var level := ArtifactLevelV3(h, artifact);
    if level.None? { return None; }
    ChunksCount(artifact, CHUNK);
    if index < 0 || index >= ChunkCount(|artifact|, CHUNK) { return None; }
    var proof := SiblingPath(h, level.value, index, Depth(ChunkCount(|artifact|, CHUNK)));
    r := Some(proof);
  }

  /** Up to the Release 1 ceiling of 1,572,864 bytes all three implementations give one root and one proof
      for each chunk; beyond it Release 1 gives none, and the two V3 implementations still agree. */
  method AllRoots(
      h: HashFn, artifact: Bytes) returns (controller: Option<Digest>, release1: Option<Digest>, v3: Option<Digest>)
    ensures controller == v3
    ensures release1 == if |artifact| <= 1_572_864 then v3 else None
    ensures v3.None? <==> |artifact| == 0 || |artifact| > 2_097_152
  {
    hide ChunkRoot;
    controller := MerkleRoot(h, artifact);
    release1 := ArtifactMerkleRootRelease1(h, artifact, CHUNK);
    v3 := ArtifactMerkleRootV3(h, artifact);
  }

  // ---------- the Release 1 proof verifier ----------

  method EmptyLeaves(h: HashFn, start: nat, width: nat) returns (r: Option<seq<Digest>>)
    requires start + width <= MAX_CHUNKS
    ensures r == Some(Hashes(h, EmptyInputs(ArtifactScheme(), start, width)))
  {
    hide ArtifactScheme, EmptyInput;
    var level: seq<Digest> := [];
    for index := start to start + width
      invariant |level| == index - start
      invariant forall j :: 0 <= j < index - start ==> level[j] == h(EmptyInput(ArtifactScheme(), start + j))
    {
      var empty := EmptyHash(h, index);
      if empty.None? { return None; }
      level := level + [empty.value];
    }
    assert level == Hashes(h, EmptyInputs(ArtifactScheme(), start, width));
    r := Some(level);
  }

  /** The canonical hash of an aligned run of padding leaves, reduced as a list. */
  method ArtifactPaddingSubtreeHash(h: HashFn, start: nat, width: nat) returns (r: Option<Digest>)
    ensures r == if IsPowerOfTwo(width) && start % width == 0 && start + width <= 128
                 then Some(PaddingRoot(h, ArtifactScheme(), start, Depth(width))) else None
  {
    hide ArtifactScheme, EmptyInput, Root, Pow2;
    ZeroIsNoPower();
    if width == 0 || !IsPowerOfTwo(width) || start % width != 0 || start + width > MAX_CHUNKS {
      return None;
    }
    var level := EmptyLeaves(h, start, width);
    if level.None? { return None; }
    r := ReduceList(h, level.value);
  }

  lemma ZeroIsNoPower()
    ensures !IsPowerOfTwo(0)
  {
  }

  /** True for a sibling that covers a real chunk or is the canonical padding subtree, at any node and level:
      false outside the proof depth or the padded tree, an error where the padding would pass 128 leaves. */
  method IsCanonicalPaddingSibling(
    h: HashFn, sibling: Digest, nodeIndex: nat, proofLevel: int, chunkCount: nat, paddedCount: nat)
    returns (r: Option<bool>)
    ensures r ==
      if !(0 <= proofLevel < MAX_PROOF_DEPTH) then Some(false)
      else if (Sibling(nodeIndex) + 1) * Pow2(proofLevel) > paddedCount then Some(false)
      else if Sibling(nodeIndex) * Pow2(proofLevel) < chunkCount then Some(true)
      else if (Sibling(nodeIndex) + 1) * Pow2(proofLevel) > MAX_CHUNKS then None
      else Some(sibling == PaddingRoot(h, ArtifactScheme(), Sibling(nodeIndex) * Pow2(proofLevel), proofLevel))
  {
    hide ArtifactScheme, Root, Pow2, Depth, PaddingRoot;
    if !(0 <= proofLevel < MAX_PROOF_DEPTH) { return Some(false); }
    var siblingLeafCount := Pow2(proofLevel);
    var siblingStart := Sibling(nodeIndex) * siblingLeafCount;
    NextMultiple(Sibling(nodeIndex), siblingLeafCount);
    DepthOfPow2(proofLevel);
    if siblingStart + siblingLeafCount > paddedCount { return Some(false); }
    if siblingStart < chunkCount { return Some(true); }
    var padding :- ArtifactPaddingSubtreeHash(h, siblingStart, siblingLeafCount);
    r := Some(sibling == padding);
  }

  lemma NextMultiple(m: nat, width: nat)
    requires width > 0
    ensures (m + 1) * width == m * width + width && m * width % width == 0
  {
    MultipleBelow(m, m + 1, width);
  }

  /** On the path of a real chunk the range is never left, and what remains is the padding check. */
  lemma PaddingOnPath(h: HashFn, index: nat, count: nat, proof: seq<Digest>, k: nat)
    requires index < count && k < |proof| == Depth(count) <= MAX_PROOF_DEPTH && Pow2(Depth(count)) <= MAX_CHUNKS
    ensures (Sibling(Shr(index, k)) + 1) * Pow2(k) <= Pow2(Depth(count))
    ensures PaddingOk(h, ArtifactScheme(), count, index, proof, k)
      <==> (Sibling(Shr(index, k)) * Pow2(k) < count
            || proof[k] == PaddingRoot(h, ArtifactScheme(), Sibling(Shr(index, k)) * Pow2(k), k))
  {
    hide ArtifactScheme, PaddingRoot, Pow2, Shr, Depth;
    SiblingInRange(index, count, k);
  }

  /** The byte strings of a proof as hashes; any of another length is rejected before it is used. */
  ghost function AsHashes(proof: seq<Bytes>): (hashes: seq<Digest>)
    ensures |hashes| == |proof| && forall k :: 0 <= k < |proof| && |proof[k]| == 32 ==> hashes[k] == proof[k]
  {
    seq<Digest>(|proof|, k requires 0 <= k < |proof| => if |proof[k]| == 32 then proof[k] else Zeros(32))
  }

  ghost predicate Release1Accepts(
    h: HashFn, expectedRoot: Bytes, length: nat, chunkSize: int, chunkIndex: int, chunk: Bytes, proof: seq<Bytes>)
  {
    && Release1ChunkCount(length, chunkSize).Some? && 0 <= chunkIndex && |expectedRoot| == 32
    && (forall k :: 0 <= k < |proof| ==> |proof[k]| == 32)
    && Accepts(h, expectedRoot, length, chunkIndex, chunk, AsHashes(proof))
  }

  /** The client's verifier accepts what the controller's verifier accepts, for every Release 1 length:
      the thrown errors all mean rejection. */
  method VerifyArtifactChunkProof(
    h: HashFn, expectedRoot: Bytes, length: nat, chunkSize: int, chunkIndex: int, exactChunk: Bytes, proof: seq<Bytes>)
    returns (ok: bool)
    ensures ok <==> Release1Accepts(h, expectedRoot, length, chunkSize, chunkIndex, exactChunk, proof)
  {
    hide ArtifactScheme, NodeInput, LeafInput, Root, Pow2, Shr, NodeHash, ChunkCount, PaddingOk, PaddingRoot, StepInput,
      Depth, AsHashes;
    var counted := Release1ChunkCount(length, chunkSize);
    if counted.None? { return false; }
    var chunkCount := counted.value;
    Geometry(length);
    if chunkIndex < 0 || chunkIndex >= chunkCount { return false; }
    PathStart(chunkIndex);
    ChunkStart(length, chunkIndex);
    if |exactChunk| != Min(length - chunkIndex * chunkSize, chunkSize) { return false; }
    var padded := NextPowerOfTwo(chunkCount);
    if padded.None? { return false; }
    var paddedCount := padded.value;
    if |proof| != Depth(chunkCount) || |proof| > MAX_PROOF_DEPTH { return false; }
    var leaf := Release1LeafHash(h, chunkIndex, exactChunk);
    if leaf.None? { return false; }
    ghost var s, hashes := ArtifactScheme(), AsHashes(proof);
    var current := leaf.value;
    var index := chunkIndex;
    for proofLevel := 0 to |proof|
      invariant index == Shr(chunkIndex, proofLevel)
      invariant current == Climb(h, s, leaf.value, chunkIndex, hashes, proofLevel)
      invariant forall k :: 0 <= k < proofLevel ==>
        |proof[k]| == 32 && PaddingOk(h, s, chunkCount, chunkIndex, hashes, k)
    {
      var siblingBytes := proof[proofLevel];
      if |siblingBytes| != 32 { return false; }
      var sibling: Digest := siblingBytes;
      PaddingOnPath(h, chunkIndex, chunkCount, hashes, proofLevel);
      var canonical := IsCanonicalPaddingSibling(h, sibling, index, proofLevel, chunkCount, paddedCount);
      if canonical != Some(true) { return false; }
      JoinIsStep(h, proofLevel + 1, index, current, sibling);
      current := if index % 2 == 0 then NodeHash(h, current, sibling) else NodeHash(h, sibling, current);
      ShrStep(chunkIndex, proofLevel);
      index := index / 2;
    }
    ok := |expectedRoot| == 32 && current == expectedRoot;
  }

  lemma JoinIsStep(h: HashFn, k: nat, node: nat, current: Digest, sibling: Digest)
    ensures (if node % 2 == 0 then NodeHash(h, current, sibling) else NodeHash(h, sibling, current))
         == h(StepInput(ArtifactScheme(), k, node, current, sibling))
  {
    hide ArtifactScheme, NodeInput, NodeHash;
    NodeHashAnyLevel(h, k, current, sibling);
    NodeHashAnyLevel(h, k, sibling, current);
  }
}
