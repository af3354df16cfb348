/** The artifact tree: the V3 controller's in-place implementation and proof verifier, and what the root and the
    accepted chunks determine. */
module ArtifactTree {
  import opened ByteStrings
  import opened MerkleTree
  import opened SiblingPaths

  const CHUNK: nat := 16_384
  const MAX_ARTIFACT_BYTES: nat := 2_097_152
  const MAX_CHUNKS: nat := 128
  const MAX_PROOF_DEPTH: nat := 7

  // ---------- geometry ----------

  function ArtifactChunkCount(length: nat): Option<nat> {
    if 0 < length <= MAX_ARTIFACT_BYTES then Some(ChunkCount(length, CHUNK)) else None
  }

  /** Every admitted artifact has at most 128 chunks, its tree at most seven levels; Release 1
      artifacts have at most 96 chunks. */
  lemma Geometry(length: nat)
    requires 0 < length <= 2_097_152
    ensures 0 < ChunkCount(length, 16_384) <= 128
    ensures length <= 1_572_864 ==> ChunkCount(length, 16_384) <= 96
    ensures Depth(ChunkCount(length, 16_384)) <= 7
    ensures Pow2(Depth(ChunkCount(length, 16_384))) <= 128
  {
    CountBound(length, CHUNK, MAX_CHUNKS);
    Pow2Values();
    DepthUnique(MAX_CHUNKS, MAX_PROOF_DEPTH);
    DepthMonotone(ChunkCount(length, CHUNK), MAX_CHUNKS);
    Pow2Monotone(Depth(ChunkCount(length, CHUNK)), MAX_PROOF_DEPTH);
  }

  // ---------- hashes ----------

  function LeafHash(h: HashFn, index: nat, chunk: Bytes): Option<Digest> {
    if index < MAX_CHUNKS && 0 < |chunk| <= CHUNK then Some(h(LeafInput(ArtifactScheme(), index, chunk))) else None
  }

  function EmptyHash(h: HashFn, index: nat): Option<Digest> {
    if index < MAX_CHUNKS then Some(h(EmptyInput(ArtifactScheme(), index))) else None
  }

  function NodeHash(h: HashFn, left: Digest, right: Digest): Digest {
    h(NodeInput(ArtifactScheme(), 0, left, right))
  }

  /** Artifact nodes carry no level. */
  lemma NodeHashAnyLevel(h: HashFn, k: nat, left: Digest, right: Digest)
    ensures NodeHash(h, left, right) == h(NodeInput(ArtifactScheme(), k, left, right))
  {
    ArtifactSchemeSeparated();
    hide ArtifactScheme;
  }

  // ---------- what the implementations compute ----------

  function ArtifactRoot(h: HashFn, artifact: Bytes): Option<Digest> {
    if 0 < |artifact| <= MAX_ARTIFACT_BYTES then Some(ChunkRoot(h, ArtifactScheme(), Chunks(artifact, CHUNK))) else None
  }

  function ArtifactProof(h: HashFn, artifact: Bytes, index: nat): Option<seq<Digest>> {
    if 0 < |artifact| <= MAX_ARTIFACT_BYTES && index < |Chunks(artifact, CHUNK)|
    then Some(ChunkProof(h, ArtifactScheme(), Chunks(artifact, CHUNK), index)) else None
  }

  /** The verifier's verdict, without the two guards that never fail. */
  predicate Accepts(h: HashFn, root: Digest, length: nat, index: nat, chunk: Bytes, proof: seq<Digest>) {
    && 0 < length <= MAX_ARTIFACT_BYTES
    && index < ChunkCount(length, CHUNK)
    && |chunk| == Min(length - index * CHUNK, CHUNK)
    && Verified(h, ArtifactScheme(), root, ChunkCount(length, CHUNK), index, chunk, proof)
  }

  /** There is a root exactly for artifacts of 1 to 2,097,152 bytes. */
  lemma RootDefinedIff(h: HashFn, artifact: Bytes)
    ensures ArtifactRoot(h, artifact).Some? <==> 1 <= |artifact| <= 2_097_152
  {
    hide ChunkRoot;
  }

  // ---------- in-place reduction ----------

  /** The inner loop of `reduce`: overwrites slot i with the hash of slots 2i and 2i + 1. */
  method JoinNeighbours(h: HashFn, level: array<Digest>, half: nat, ghost k: nat)
    requires 2 * half <= level.Length
    modifies level
    ensures level[..half] == Pairs(h, ArtifactScheme(), k, old(level[..2 * half]))
  {
    hide ArtifactScheme, NodeInput, NodeHash;
    ghost var s, before := ArtifactScheme(), level[..2 * half];
    for i := 0 to half
      invariant forall j :: 0 <= j < i ==> level[j] == Pairs(h, s, k, before)[j]
      invariant forall j :: i <= j < 2 * half ==> level[j] == before[j]
    {
      NodeHashAnyLevel(h, k, level[2 * i], level[2 * i + 1]);
      PairsAt(h, s, k, before, i);
      level[i] := NodeHash(h, level[2 * i], level[2 * i + 1]);
    }
  }

  /** Joins neighbours in place and keeps the lower half, until one slot is left.  Its value is the
      root of the recursive tree. */
  method Reduce(h: HashFn, level: array<Digest>) returns (r: Option<Digest>)
    modifies level
    ensures r == if IsPowerOfTwo(level.Length)
                 then Some(Root(h, ArtifactScheme(), Depth(level.Length), old(level[..]))) else None
  {
    hide ArtifactScheme, NodeInput, NodeHash, Root, Pairs;
    if level.Length == 0 || !IsPowerOfTwo(level.Length) {
      assert Pow2(0) == 1;
      return None;
    }
    var len := level.Length;
    ghost var s, d, k, leaves := ArtifactScheme(), Depth(len), 0, level[..];
    while len > 1
      invariant k <= d && len == Pow2(d - k) <= level.Length
      invariant level[..len] == Level(h, s, leaves, k)
      decreases len
    {
      assert d - k > 0;
      JoinNeighbours(h, level, len / 2, k + 1);
      len := len / 2;
      k := k + 1;
    }
    LastLevelIsRoot(h, s, leaves, d);
    assert level[0] == level[..len][0];
    r := Some(level[0]);
  }

  method EmptyLevel(h: HashFn, start: nat, width: nat) returns (ok: bool, level: array<Digest>)
    requires start + width <= MAX_CHUNKS
    ensures ok && fresh(level) && level[..] == Hashes(h, EmptyInputs(ArtifactScheme(), start, width))
  {
    hide ArtifactScheme, EmptyInput;
    level := new Digest[width];
    for index := start to start + width
      invariant forall j :: 0 <= j < index - start ==> level[j] == h(EmptyInput(ArtifactScheme(), start + j))
    {
      var empty := EmptyHash(h, index);
      if empty.None? { return false, level; }
      level[index - start] := empty.value;
    }
    assert level[..] == Hashes(h, EmptyInputs(ArtifactScheme(), start, width));
    ok := true;
  }

  /** The canonical hash of an aligned run of empty leaves. */
  method PaddingHash(h: HashFn, start: nat, width: nat) returns (r: Option<Digest>)
    ensures r == if IsPowerOfTwo(width) && start % width == 0 && start + width <= 128
                 then Some(PaddingRoot(h, ArtifactScheme(), start, Depth(width))) else None
  {
    hide ArtifactScheme, EmptyInput, Root;
    if !(width > 0 && IsPowerOfTwo(width) && start % width == 0 && start + width <= MAX_CHUNKS) {
      assert !IsPowerOfTwo(0) by { assert Pow2(0) == 1; }
      return None;
    }
    var ok, level := EmptyLevel(h, start, width);
    if !ok { return None; }
    r := Reduce(h, level);
  }

  // ---------- the proof verifier ----------

  lemma PathStart(index: nat)
    ensures Shr(index, 0) == index
  {
  }

  /** Verifies one exact chunk against a root.  The range guard in the loop and the alignment and
      bound requirements of `PaddingHash` are evaluated, and never change the verdict. */
  method VerifyChunk(
      h: HashFn, root: Digest, length: nat, index: nat, chunk: Bytes, proof: seq<Digest>) returns (ok: bool)
    ensures ok <==> Accepts(h, root, length, index, chunk, proof)
  {
    hide ArtifactScheme, NodeInput, LeafInput, Root, Pow2, Shr, NodeHash, ChunkCount, PaddingOk, StepInput, Depth;
    PathStart(index);
    ChunkStart(length, index);
    ghost var s := ArtifactScheme();
    var counted := ArtifactChunkCount(length);
    if counted.None? { return false; }
    var count := counted.value;
    Geometry(length);
    if index >= count { return false; }
    var start := index * CHUNK;
    if |chunk| != Min(length - start, CHUNK) { return false; }
    var padded := Pow2(Depth(count));
    if |proof| != Depth(count) || |proof| > MAX_PROOF_DEPTH { return false; }
    var leaf := LeafHash(h, index, chunk);
    if leaf.None? { return false; }
    var current := leaf.value;
    var node := index;
    for level := 0 to |proof|
      invariant node == Shr(index, level)
      invariant current == Climb(h, s, leaf.value, index, proof, level)
      invariant forall k :: 0 <= k < level ==> PaddingOk(h, s, count, index, proof, k)
    {
      ok, current, node := VerifyStep(h, count, padded, index, proof, level, current, node);
      if !ok { return false; }
    }
    ok := current == root;
  }

  /** One iteration of the verifier's loop. */
  method VerifyStep(
      h: HashFn, count: nat, padded: nat, index: nat, proof: seq<Digest>, level: nat, current: Digest, node: nat)
    returns (ok: bool, next: Digest, parent: nat)
    requires index < count && level < |proof| == Depth(count) && padded == Pow2(Depth(count)) <= MAX_CHUNKS
    requires node == Shr(index, level)
    ensures ok <==> PaddingOk(h, ArtifactScheme(), count, index, proof, level)
    ensures ok ==> next == h(StepInput(ArtifactScheme(), level + 1, node, current, proof[level]))
    ensures ok ==> parent == Shr(index, level + 1)
  {
    hide ArtifactScheme, NodeInput, Root, Pow2, Shr, NodeHash, Depth;
    next, parent := current, node;
    var sibling := proof[level];
    var width := Pow2(level);
    var siblingStart := Sibling(node) * width;
    SiblingInRange(index, count, level);
    DepthOfPow2(level);
    if siblingStart + width > padded { return false, next, parent; }
    if siblingStart >= count {
      var padding := PaddingHash(h, siblingStart, width);
      if padding.None? || sibling != padding.value { return false, next, parent; }
    }
    NodeHashAnyLevel(h, level + 1, current, sibling);
    NodeHashAnyLevel(h, level + 1, sibling, current);
    next := if node % 2 == 0 then NodeHash(h, current, sibling) else NodeHash(h, sibling, current);
    parent := node / 2;
    ShrStep(index, level);
    ok := true;
  }

  lemma ChunkStart(length: nat, index: nat)
    ensures index < ChunkCount(length, CHUNK) ==> index * CHUNK < length
  {
  }

  lemma ShrStep(index: nat, k: nat)
    ensures Shr(index, k + 1) == Shr(index, k) / 2
  {
  }

  // ---------- the controller's off-chain builder ----------

  /** The leaf hashes of every chunk, in order. */
  method Leaves(h: HashFn, artifact: Bytes) returns (r: Option<seq<Digest>>)
    ensures r == if 0 < |artifact| <= MAX_ARTIFACT_BYTES
                 then Some(ChunkLeaves(h, ArtifactScheme(), Chunks(artifact, CHUNK))) else None
  {
    hide ArtifactScheme, LeafInput, EmptyInput, Pow2, Chunks;
    var counted := ArtifactChunkCount(|artifact|);
    if counted.None? { return None; }
    var count := counted.value;
    Geometry(|artifact|);
    var chunks := Chunks(artifact, CHUNK);
    ChunksHaveRightSizes(artifact, CHUNK);
    var level: seq<Digest> := [];
    for i := 0 to |chunks|
      invariant |level| == i
      invariant forall j :: 0 <= j < i ==> level[j] == h(LeafInput(ArtifactScheme(), j, chunks[j]))
    {
      var leaf := LeafHash(h, i, chunks[i]);
      if leaf.None? { return None; }
      level := level + [leaf.value];
    }
    r := PadLevel(h, chunks, level, count, Pow2(Depth(count)));
  }

  /** The padding loop shared by the three builders. */
  method PadLevel(h: HashFn, ghost chunks: seq<Bytes>, leaves: seq<Digest>, count: nat, padded: nat)
    returns (r: Option<seq<Digest>>)
    requires |chunks| == |leaves| == count && padded == Pow2(Depth(count)) <= MAX_CHUNKS
    requires forall j :: 0 <= j < count ==> leaves[j] == h(LeafInput(ArtifactScheme(), j, chunks[j]))
    ensures r == Some(ChunkLeaves(h, ArtifactScheme(), chunks))
  {
    hide ArtifactScheme, LeafInput, EmptyInput, Pow2;
    var level := leaves;
    for i := count to padded
      invariant |level| == i && level[..count] == leaves
      invariant forall j :: count <= j < i ==> level[j] == h(EmptyInput(ArtifactScheme(), j))
    {
      var empty := EmptyHash(h, i);
      if empty.None? { return None; }
      level := level + [empty.value];
    }
    assert forall j :: 0 <= j < count ==> level[j] == level[..count][j];
    assert level == ChunkLeaves(h, ArtifactScheme(), chunks);
    r := Some(level);
  }

  method MerkleRoot(h: HashFn, artifact: Bytes) returns (r: Option<Digest>)
    ensures r == ArtifactRoot(h, artifact)
  {
    hide ArtifactScheme, Root, Chunks, ChunkLeaves;
    var leaves := Leaves(h, artifact);
    if leaves.None? { return None; }
    DepthOfPow2(Depth(|Chunks(artifact, CHUNK)|));
    var level := new Digest[|leaves.value|](i requires 0 <= i < |leaves.value| => leaves.value[i]);
    assert level[..] == leaves.value;
    r := Reduce(h, level);
  }

  /** Pairing a level list by list, as `chunks_exact(2)` and the clients' loops do. */
  method NextLevel(h: HashFn, level: seq<Digest>, ghost k: nat) returns (next: seq<Digest>)
    requires |level| % 2 == 0
    ensures next == Pairs(h, ArtifactScheme(), k, level)
  {
    hide ArtifactScheme, NodeInput, NodeHash;
    next := [];
    var i := 0;
    while i < |level|
      invariant 0 <= i <= |level| && i % 2 == 0 && |next| == i / 2
      invariant forall j :: 0 <= j < |next| ==> next[j] == Pairs(h, ArtifactScheme(), k, level)[j]
    {
      NodeHashAnyLevel(h, k, level[i], level[i + 1]);
      PairsAt(h, ArtifactScheme(), k, level, i / 2);
      next := next + [NodeHash(h, level[i], level[i + 1])];
      i := i + 2;
    }
  }

  /** The siblings met while the levels above `initial` are built one by one. */
  method SiblingPath(h: HashFn, initial: seq<Digest>, index: nat, ghost d: nat) returns (proof: seq<Digest>)
    requires |initial| == Pow2(d) && index < |initial|
    ensures proof == ProofOf(h, ArtifactScheme(), initial, index, d, d)
  {
    hide ArtifactScheme, NodeInput, Pairs, Shr;
    var level, node := initial, index;
    ghost var s, k := ArtifactScheme(), 0;
    proof := [];
    PathStart(index);
    while |level| > 1
      invariant k <= d && |level| == Pow2(d - k) && node == Shr(index, k)
      invariant level == Level(h, s, initial, k)
      invariant proof == ProofOf(h, s, initial, index, d, k)
      decreases |level|
    {
      assert d - k > 0;
      ShrBelow(index, d, k);
      proof := proof + [level[Sibling(node)]];
      level := NextLevel(h, level, k + 1);
      ShrStep(index, k);
      node := node / 2;
      k := k + 1;
    }
    assert k == d;
  }

  /** The siblings on the way from chunk `index` to the root. */
  method MerkleProof(h: HashFn, artifact: Bytes, index: nat) returns (r: Option<seq<Digest>>)
    ensures r == ArtifactProof(h, artifact, index)
  {
    hide ArtifactScheme, Chunks, ChunkLeaves, ProofOf;
    var leaves := Leaves(h, artifact);
    if leaves.None? { return None; }
    ChunksCount(artifact, CHUNK);
    var count := ArtifactChunkCount(|artifact|);
    if count.None? || index >= count.value { return None; }
    var proof := SiblingPath(h, leaves.value, index, Depth(count.value));
    r := Some(proof);
  }

  // ---------- the root of small artifacts, written out ----------

  function LeafBytes(index: nat, chunk: Bytes): Bytes {
    Ascii("AMOEBA_ARTIFACT_CHUNK_V1") + LE(index, 4) + LE(|chunk|, 4) + chunk
  }

  function EmptyBytes(index: nat): Bytes {
    Ascii("AMOEBA_ARTIFACT_EMPTY_V1") + LE(index, 4)
  }

  function NodeBytes(left: Digest, right: Digest): Bytes {
    Ascii("AMOEBA_ARTIFACT_NODE_V1") + left + right
  }

  lemma InputsWrittenOut(k: nat, index: nat, chunk: Bytes, left: Digest, right: Digest)
    ensures LeafInput(ArtifactScheme(), index, chunk) == LeafBytes(index, chunk)
    ensures EmptyInput(ArtifactScheme(), index) == EmptyBytes(index)
    ensures NodeInput(ArtifactScheme(), k, left, right) == NodeBytes(left, right)
  {
    hide LeafInput, EmptyInput, NodeInput, ArtifactScheme, Ascii, LE;
    ArtifactLeafBytes(index, chunk);
    ArtifactEmptyBytes(index);
    ArtifactNodeBytes(k, left, right);
    var x, y, z := LeafInput(ArtifactScheme(), index, chunk), EmptyInput(ArtifactScheme(), index),
      NodeInput(ArtifactScheme(), k, left, right);
    assert x == x[..24] + x[24..28] + x[28..32] + x[32..];
    assert y == y[..24] + y[24..];
    assert z == z[..23] + z[23..55] + z[55..];
  }

  /** An artifact of two chunks: the hash of the node domain, the first leaf and the second leaf. */
  lemma TwoChunkRoot(h: HashFn, artifact: Bytes)
    requires 16_384 < |artifact| <= 32_768
    ensures ArtifactRoot(h, artifact)
         == Some(h(NodeBytes(h(LeafBytes(0, artifact[..16_384])), h(LeafBytes(1, artifact[16_384..])))))
  {
    hide LeafInput, EmptyInput, NodeInput, ArtifactScheme, LeafBytes, NodeBytes, EmptyBytes, Chunks, ChunkRoot;
    var a, b := artifact[..16_384], artifact[16_384..];
    TwoChunks(artifact, CHUNK);
    TwoChunkTree(h, ArtifactScheme(), a, b);
    InputsWrittenOut(1, 0, a, Zeros(32), Zeros(32));
    InputsWrittenOut(1, 1, b, h(LeafBytes(0, a)), h(LeafBytes(1, b)));
  }

  /** An artifact of three chunks: its last leaf is paired with the padding leaf of index three. */
  lemma ThreeChunkRoot(h: HashFn, artifact: Bytes)
    requires 32_768 < |artifact| <= 49_152
    ensures var left := h(NodeBytes(h(LeafBytes(0, artifact[..16_384])), h(LeafBytes(1, artifact[16_384..32_768]))));
      var right := h(NodeBytes(h(LeafBytes(2, artifact[32_768..])), h(EmptyBytes(3))));
      ArtifactRoot(h, artifact) == Some(h(NodeBytes(left, right)))
  {
    hide LeafInput, EmptyInput, NodeInput, ArtifactScheme, LeafBytes, NodeBytes, EmptyBytes, Chunks, ChunkRoot;
    var a, b, c := artifact[..16_384], artifact[16_384..32_768], artifact[32_768..];
    ThreeChunks(artifact, CHUNK);
    ThreeChunkTree(h, ArtifactScheme(), a, b, c);
    var left := h(NodeBytes(h(LeafBytes(0, a)), h(LeafBytes(1, b))));
    var right := h(NodeBytes(h(LeafBytes(2, c)), h(EmptyBytes(3))));
    InputsWrittenOut(1, 0, a, h(LeafBytes(0, a)), h(LeafBytes(1, b)));
    InputsWrittenOut(1, 1, b, h(LeafBytes(2, c)), h(EmptyBytes(3)));
    InputsWrittenOut(2, 2, c, left, right);
    InputsWrittenOut(2, 3, c, left, right);
  }

  // ---------- what the root and the verifier determine ----------

  ghost function ArtifactInputs(h: HashFn, artifact: Bytes): set<Bytes> {
    TreeInputs(h, ArtifactScheme(), Chunks(artifact, CHUNK))
  }

  lemma AdmittedChunks(artifact: Bytes)
    requires 0 < |artifact| <= MAX_ARTIFACT_BYTES
    ensures 0 < |Chunks(artifact, CHUNK)| == ChunkCount(|artifact|, CHUNK) <= MAX_CHUNKS
  {
    Geometry(|artifact|);
    ChunksCount(artifact, CHUNK);
  }

  /** The root binds bytes and length: admitted artifacts of any two lengths with one root are equal. */
  lemma RootBindsArtifact(h: HashFn, a: Bytes, b: Bytes)
    requires ArtifactRoot(h, a).Some? && ArtifactRoot(h, a) == ArtifactRoot(h, b)
    requires CollisionFree(h, ArtifactInputs(h, a) + ArtifactInputs(h, b))
    ensures a == b
  {
    ArtifactSchemeSeparated();
    AdmittedChunks(a);
    AdmittedChunks(b);
    hide ArtifactScheme, ChunkRoot, TreeInputs;
    ChunkRootBinds(h, ArtifactScheme(), Chunks(a, CHUNK), ArtifactScheme(), Chunks(b, CHUNK));
    JoinOfChunks(a, CHUNK);
    JoinOfChunks(b, CHUNK);
  }

  /** The same with the collision named: equal roots of different artifacts exhibit two different inputs of
      the two trees with one hash. */
  lemma RootBindsOrCollides(h: HashFn, a: Bytes, b: Bytes) returns (x: Bytes, y: Bytes)
    requires ArtifactRoot(h, a).Some? && ArtifactRoot(h, a) == ArtifactRoot(h, b)
    ensures a == b || Collides(h, ArtifactInputs(h, a) + ArtifactInputs(h, b), x, y)
  {
    hide *;
    x, y := CollisionIn(h, ArtifactInputs(h, a) + ArtifactInputs(h, b));
    if CollisionFree(h, ArtifactInputs(h, a) + ArtifactInputs(h, b)) {
      RootBindsArtifact(h, a, b);
    }
  }

  /** Every admitted artifact's chunks are accepted with their own sibling paths. */
  lemma VerifyChunkComplete(h: HashFn, artifact: Bytes, index: nat, root: Digest, proof: seq<Digest>)
    requires ArtifactRoot(h, artifact) == Some(root) && ArtifactProof(h, artifact, index) == Some(proof)
    ensures index * CHUNK < |artifact|
    ensures Accepts(h, root, |artifact|, index, artifact[index * CHUNK..Min(index * CHUNK + CHUNK, |artifact|)], proof)
  {
    hide ArtifactScheme, ChunkRoot, ChunkProof, Verified, Chunks, ChunkCount;
    AdmittedChunks(artifact);
    ChunkAt(artifact, CHUNK, index);
    HonestAccepted(h, ArtifactScheme(), Chunks(artifact, CHUNK), index);
  }

  /** Against an artifact's root nothing else is accepted: the chunk is the artifact's bytes at that
      place and the proof is the artifact's own. */
  lemma VerifyChunkSound(h: HashFn, artifact: Bytes, index: nat, chunk: Bytes, proof: seq<Digest>)
    requires ArtifactRoot(h, artifact).Some?
    requires Accepts(h, ArtifactRoot(h, artifact).value, |artifact|, index, chunk, proof)
    requires CollisionFree(h, ArtifactInputs(h, artifact) + PathInputs(h, ArtifactScheme(), index, chunk, proof))
    ensures index * CHUNK < |artifact| && chunk == artifact[index * CHUNK..Min(index * CHUNK + CHUNK, |artifact|)]
    ensures Some(proof) == ArtifactProof(h, artifact, index)
  {
    ArtifactSchemeSeparated();
    AdmittedChunks(artifact);
    hide ArtifactScheme, ChunkRoot, TreeInputs, PathInputs, ChunkProof, Verified;
    AcceptedIsHonest(h, ArtifactScheme(), Chunks(artifact, CHUNK), index, chunk, proof);
    ChunkAt(artifact, CHUNK, index);
  }

  /** If every index below the chunk count of `length` has been accepted against one root, with any
      proofs and no honest builder assumed, then the accepted chunks join to an artifact of exactly
      that length whose root is that root. */
  lemma AcceptedChunksAreArtifact(h: HashFn, root: Digest, length: nat, chunks: seq<Bytes>, proofs: seq<seq<Digest>>)
    requires 0 < length <= MAX_ARTIFACT_BYTES && |chunks| == |proofs| == ChunkCount(length, CHUNK)
    requires forall i :: 0 <= i < |chunks| ==> Accepts(h, root, length, i, chunks[i], proofs[i])
    requires CollisionFree(h, AllPathInputs(h, ArtifactScheme(), chunks, proofs))
    ensures |Join(chunks)| == length && ArtifactRoot(h, Join(chunks)) == Some(root)
  {
    ArtifactSchemeSeparated();
    Geometry(length);
    hide ArtifactScheme, ChunkRoot, AllPathInputs, Verified;
    assert RightSizes(chunks, length, CHUNK);
    ChunksOfJoin(chunks, length, CHUNK);
    assert AllVerified(h, ArtifactScheme(), root, chunks, proofs);
    AllVerifiedIsRoot(h, ArtifactScheme(), root, chunks, proofs);
  }

  /** Against a council-approved artifact's root, full acceptance means those very bytes: whoever supplies
      the chunks and proofs either supplies the artifact or exhibits a collision. */
  lemma AcceptedOrCollides(h: HashFn, artifact: Bytes, length: nat, chunks: seq<Bytes>, proofs: seq<seq<Digest>>)
    returns (x: Bytes, y: Bytes)
    requires 0 < length <= MAX_ARTIFACT_BYTES && |chunks| == |proofs| == ChunkCount(length, CHUNK)
    requires ArtifactRoot(h, artifact).Some?
    requires forall i :: 0 <= i < |chunks| ==>
      Accepts(h, ArtifactRoot(h, artifact).value, length, i, chunks[i], proofs[i])
    ensures (Join(chunks) == artifact && length == |artifact|)
         || Collides(h, AllPathInputs(h, ArtifactScheme(), chunks, proofs), x, y)
         || Collides(h, ArtifactInputs(h, artifact) + ArtifactInputs(h, Join(chunks)), x, y)
  {
    hide *;
    x, y := CollisionIn(h, AllPathInputs(h, ArtifactScheme(), chunks, proofs));
    if CollisionFree(h, AllPathInputs(h, ArtifactScheme(), chunks, proofs)) {
      AcceptedChunksAreArtifact(h, ArtifactRoot(h, artifact).value, length, chunks, proofs);
      x, y := RootBindsOrCollides(h, artifact, Join(chunks));
    }
  }
}
