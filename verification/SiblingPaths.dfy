/** Sibling paths: what a verifier that sees one chunk at a time can conclude about the tree. */
module SiblingPaths {
  import opened ByteStrings
  import opened MerkleTree

  /** `n ^ 1`. */
  function Sibling(n: nat): (m: nat)
    ensures m / 2 == n / 2 && m != n
  {
    if n % 2 == 0 then n + 1 else n - 1
  }

  lemma {:induction false} ShrBelow(index: nat, d: nat, k: nat)
    requires index < Pow2(d) && k <= d
    ensures Shr(index, k) < Pow2(d - k)
    ensures k < d ==> Sibling(Shr(index, k)) < Pow2(d - k)
  {
    if k > 0 { ShrBelow(index, d, k - 1); }
  }

  lemma {:induction false} ShrOfMultiple(m: nat, k: nat)
    ensures Shr(m * Pow2(k), k) == m
    decreases k
  {
    if k > 0 {
      assert m * Pow2(k) == (2 * m) * Pow2(k - 1);
      ShrOfMultiple(2 * m, k - 1);
    }
  }

  /** The first leaf under the sibling met at step k. */
  function SiblingStart(index: nat, k: nat): nat {
    Sibling(Shr(index, k)) * Pow2(k)
  }

  lemma {:induction false} Pow2Product(a: nat, b: nat)
    ensures Pow2(a) * Pow2(b) == Pow2(a + b)
  {
    if a > 0 {
      Pow2Product(a - 1, b);
      TwiceProduct(Pow2(a - 1), Pow2(b));
    }
  }

  lemma TwiceProduct(p: nat, q: nat)
    ensures (2 * p) * q == 2 * (p * q)
  {
  }

  lemma MultipleBelow(m: nat, n: nat, width: nat)
    requires m < n && 0 < width
    ensures (m + 1) * width == m * width + width <= n * width && m * width % width == 0
  {
    DivMul(m, width, 0);
    var gap := n - m - 1;
    assert n * width == m * width + gap * width + width && 0 <= gap * width;
  }

  /** A sibling's leaves always lie inside the padded tree, on a boundary of their own width. */
  lemma SiblingInRange(index: nat, count: nat, k: nat)
    requires index < count && k < Depth(count)
    ensures SiblingStart(index, k) + Pow2(k) <= Pow2(Depth(count))
    ensures SiblingStart(index, k) % Pow2(k) == 0
    ensures (Sibling(Shr(index, k)) + 1) * Pow2(k) == SiblingStart(index, k) + Pow2(k)
  {
    ShrBelow(index, Depth(count), k);
    Pow2Product(Depth(count) - k, k);
    hide Pow2, Depth, Shr;
    MultipleBelow(Sibling(Shr(index, k)), Pow2(Depth(count) - k), Pow2(k));
  }

  // ---------- climbing ----------

  function StepInput(s: Scheme, k: nat, node: nat, current: Digest, sibling: Digest): Bytes {
    if node % 2 == 0 then NodeInput(s, k, current, sibling) else NodeInput(s, k, sibling, current)
  }

  function Climb(h: HashFn, s: Scheme, leaf: Digest, index: nat, proof: seq<Digest>, k: nat): Digest
    requires k <= |proof|
  {
    if k == 0 then leaf
    else h(StepInput(s, k, Shr(index, k - 1), Climb(h, s, leaf, index, proof, k - 1), proof[k - 1]))
  }

  ghost function ClimbInputs(h: HashFn, s: Scheme, leaf: Digest, index: nat, proof: seq<Digest>, k: nat): set<Bytes>
    requires k <= |proof|
  {
    if k == 0 then {}
    else ClimbInputs(h, s, leaf, index, proof, k - 1)
         + {StepInput(s, k, Shr(index, k - 1), Climb(h, s, leaf, index, proof, k - 1), proof[k - 1])}
  }

  lemma {:induction false} ClimbInputIn(
      h: HashFn, s: Scheme, leaf: Digest, index: nat, proof: seq<Digest>, k: nat, n: nat)
    requires 0 < k <= n <= |proof|
    ensures StepInput(s, k, Shr(index, k - 1), Climb(h, s, leaf, index, proof, k - 1), proof[k - 1])
            in ClimbInputs(h, s, leaf, index, proof, n)
  {
    hide StepInput, Shr, Climb;
    if k < n { ClimbInputIn(h, s, leaf, index, proof, k, n - 1); }
  }

  // ---------- acceptance ----------

  function EmptyInputs(s: Scheme, start: nat, width: nat): (inputs: seq<Bytes>)
    ensures |inputs| == width
  {
    seq(width, j requires 0 <= j < width => EmptyInput(s, start + j))
  }

  /** The root over the 2^k empty leaves from `start` on. */
  function PaddingRoot(h: HashFn, s: Scheme, start: nat, k: nat): Digest {
    Root(h, s, k, Hashes(h, EmptyInputs(s, start, Pow2(k))))
  }

  /** A sibling that covers padding only is the canonical padding subtree. */
  predicate PaddingOk(h: HashFn, s: Scheme, count: nat, index: nat, proof: seq<Digest>, k: nat)
    requires k < |proof|
  {
    SiblingStart(index, k) >= count ==> proof[k] == PaddingRoot(h, s, SiblingStart(index, k), k)
  }

  /** What the verifier checks of one chunk of a tree over `count` chunks. */
  predicate Verified(h: HashFn, s: Scheme, root: Digest, count: nat, index: nat, chunk: Bytes, proof: seq<Digest>) {
    && index < count && |proof| == Depth(count)
    && (forall k :: 0 <= k < |proof| ==> PaddingOk(h, s, count, index, proof, k))
    && Climb(h, s, h(LeafInput(s, index, chunk)), index, proof, |proof|) == root
  }

  /** Everything the verifier hashes on the path of one chunk. */
  ghost function PathInputs(h: HashFn, s: Scheme, index: nat, chunk: Bytes, proof: seq<Digest>): set<Bytes> {
    {LeafInput(s, index, chunk)} + ClimbInputs(h, s, h(LeafInput(s, index, chunk)), index, proof, |proof|)
  }

  // ---------- the honest proof ----------

  /** The siblings met on the way up from leaf `index`, lowest first. */
  function ProofOf(h: HashFn, s: Scheme, leaves: seq<Digest>, index: nat, d: nat, k: nat): (proof: seq<Digest>)
    requires |leaves| == Pow2(d) && index < |leaves| && k <= d
    ensures |proof| == k
  {
    if k == 0 then [] else
      ShrBelow(index, d, k - 1);
      LevelSizePow2(h, s, leaves, d, k - 1);
      ProofOf(h, s, leaves, index, d, k - 1) + [Level(h, s, leaves, k - 1)[Sibling(Shr(index, k - 1))]]
  }

  function ChunkProof(h: HashFn, s: Scheme, chunks: seq<Bytes>, index: nat): (proof: seq<Digest>)
    requires index < |chunks|
  {
    ProofOf(h, s, ChunkLeaves(h, s, chunks), index, Depth(|chunks|), Depth(|chunks|))
  }

  lemma {:induction false} ProofOfAt(h: HashFn, s: Scheme, leaves: seq<Digest>, index: nat, d: nat, n: nat, k: nat)
    requires |leaves| == Pow2(d) && index < |leaves| && k < n <= d
    ensures Sibling(Shr(index, k)) < |Level(h, s, leaves, k)|
    ensures ProofOf(h, s, leaves, index, d, n)[k] == Level(h, s, leaves, k)[Sibling(Shr(index, k))]
  {
    ShrBelow(index, d, k);
    LevelSizePow2(h, s, leaves, d, k);
    if k < n - 1 { ProofOfAt(h, s, leaves, index, d, n - 1, k); }
  }

  /** Joining a node with its sibling gives their parent. */
  lemma StepIsParent(h: HashFn, s: Scheme, leaves: seq<Digest>, d: nat, index: nat, k: nat)
    requires |leaves| == Pow2(d) && index < |leaves| && k < d
    ensures Shr(index, k) < |Level(h, s, leaves, k)| && Sibling(Shr(index, k)) < |Level(h, s, leaves, k)|
    ensures Shr(index, k + 1) < |Level(h, s, leaves, k + 1)|
    ensures var below, n := Level(h, s, leaves, k), Shr(index, k);
      StepInput(s, k + 1, n, below[n], below[Sibling(n)]) == ChildInput(h, s, leaves, k + 1, Shr(index, k + 1))
      && Level(h, s, leaves, k + 1)[Shr(index, k + 1)] == h(StepInput(s, k + 1, n, below[n], below[Sibling(n)]))
  {
    hide Level, NodeInput, Pow2, NodeInputs;
    ShrBelow(index, d, k);
    ShrBelow(index, d, k + 1);
    LevelSizePow2(h, s, leaves, d, k);
    LevelSizePow2(h, s, leaves, d, k + 1);
    ChildInputIn(h, s, leaves, d, k + 1, Shr(index, k + 1));
    var n := Shr(index, k);
    assert n == 2 * (n / 2) || n == 2 * (n / 2) + 1;
  }

  /** The siblings of `proof` below step k are those of the tree. */
  predicate HonestBelow(h: HashFn, s: Scheme, leaves: seq<Digest>, index: nat, proof: seq<Digest>, k: nat) {
    forall m :: 0 <= m < k <= |proof| ==> HonestAt(h, s, leaves, index, proof, m)
  }

  predicate HonestAt(h: HashFn, s: Scheme, leaves: seq<Digest>, index: nat, proof: seq<Digest>, k: nat) {
    && k < |proof| && Sibling(Shr(index, k)) < |Level(h, s, leaves, k)|
    && proof[k] == Level(h, s, leaves, k)[Sibling(Shr(index, k))]
  }

  /** Climbing with the tree's own siblings passes through the tree's own nodes. */
  lemma {:induction false} HonestClimb(
      h: HashFn, s: Scheme, leaves: seq<Digest>, d: nat, index: nat, proof: seq<Digest>, k: nat)
    requires |leaves| == Pow2(d) && index < |leaves| && k <= d == |proof|
    requires HonestBelow(h, s, leaves, index, proof, k)
    ensures Shr(index, k) < |Level(h, s, leaves, k)|
    ensures Climb(h, s, leaves[index], index, proof, k) == Level(h, s, leaves, k)[Shr(index, k)]
  {
    if k > 0 {
      HonestClimb(h, s, leaves, d, index, proof, k - 1);
      assert HonestAt(h, s, leaves, index, proof, k - 1);
      StepIsParent(h, s, leaves, d, index, k - 1);
      hide Level, StepInput, Shr;
    }
  }

  // ---------- padding ----------

  /** A node of the chunk tree that covers padding only is the canonical padding subtree. */
  lemma PaddingLevel(h: HashFn, s: Scheme, chunks: seq<Bytes>, k: nat, m: nat)
    requires m * Pow2(k) >= |chunks| && (m + 1) * Pow2(k) <= Pow2(Depth(|chunks|))
    ensures m < |Level(h, s, ChunkLeaves(h, s, chunks), k)|
    ensures Level(h, s, ChunkLeaves(h, s, chunks), k)[m] == PaddingRoot(h, s, m * Pow2(k), k)
  {
    hide Level, Root, Pow2, Block, EmptyInput, LeafInput, Depth, ChunkLeaves;
    LevelIsRoot(h, s, ChunkLeaves(h, s, chunks), k, m);
    PaddingBlock(h, s, chunks, k, m);
  }

  lemma PaddingBlock(h: HashFn, s: Scheme, chunks: seq<Bytes>, k: nat, m: nat)
    requires m * Pow2(k) >= |chunks| && (m + 1) * Pow2(k) <= Pow2(Depth(|chunks|))
    ensures Block(ChunkLeaves(h, s, chunks), k, m) == Hashes(h, EmptyInputs(s, m * Pow2(k), Pow2(k)))
  {
    hide *;
    BlockIs(ChunkLeaves(h, s, chunks), k, m, m * Pow2(k));
    PaddingSlice(h, s, chunks, m * Pow2(k), Pow2(k));
  }

  lemma PaddingSlice(h: HashFn, s: Scheme, chunks: seq<Bytes>, start: nat, width: nat)
    requires |chunks| <= start && start + width <= Pow2(Depth(|chunks|))
    ensures ChunkLeaves(h, s, chunks)[start..start + width] == Hashes(h, EmptyInputs(s, start, width))
  {
    hide ChunkLeaves, EmptyInput, EmptyInputs, Hashes, Pow2, Depth;
    PaddingLeaves(h, s, chunks);
    var leaves := ChunkLeaves(h, s, chunks);
    var slice, padding := leaves[start..start + width], Hashes(h, EmptyInputs(s, start, width));
    forall j | 0 <= j < width ensures slice[j] == padding[j] {
      EmptyHashAt(h, s, start, width, j);
      assert slice[j] == leaves[start + j];
    }
  }

  lemma EmptyHashAt(h: HashFn, s: Scheme, start: nat, width: nat, j: nat)
    requires j < width
    ensures Hashes(h, EmptyInputs(s, start, width))[j] == h(EmptyInput(s, start + j))
  {
    hide EmptyInput;
  }

  lemma PaddingLeaves(h: HashFn, s: Scheme, chunks: seq<Bytes>)
    ensures forall j :: |chunks| <= j < Pow2(Depth(|chunks|)) ==> ChunkLeaves(h, s, chunks)[j] == h(EmptyInput(s, j))
  {
    hide Pow2, Depth, LeafInput, EmptyInput;
  }

  lemma SiblingPadding(h: HashFn, s: Scheme, chunks: seq<Bytes>, index: nat, k: nat)
    requires index < |chunks| && k < Depth(|chunks|) && SiblingStart(index, k) >= |chunks|
    ensures Sibling(Shr(index, k)) < |Level(h, s, ChunkLeaves(h, s, chunks), k)|
    ensures Level(h, s, ChunkLeaves(h, s, chunks), k)[Sibling(Shr(index, k))]
      == PaddingRoot(h, s, SiblingStart(index, k), k)
  {
    hide Level, ChunkLeaves, PaddingRoot, Depth, Shr, Pow2;
    SiblingInRange(index, |chunks|, k);
    PaddingLevel(h, s, chunks, k, Sibling(Shr(index, k)));
  }

  // ---------- completeness ----------

  /** The verifier accepts every chunk of every chunk list with its own sibling path. */
  lemma HonestAccepted(h: HashFn, s: Scheme, chunks: seq<Bytes>, index: nat)
    requires index < |chunks|
    ensures Verified(h, s, ChunkRoot(h, s, chunks), |chunks|, index, chunks[index], ChunkProof(h, s, chunks, index))
  {
    var d, leaves, proof := Depth(|chunks|), ChunkLeaves(h, s, chunks), ChunkProof(h, s, chunks, index);
    assert leaves[index] == h(LeafInput(s, index, chunks[index]));
    hide Pow2, Depth, Root, LeafInput, EmptyInput, LeafInputs, Level, ProofOf, SiblingStart, Shr, Climb, PaddingRoot;
    forall k | 0 <= k < d
      ensures HonestAt(h, s, leaves, index, proof, k) && PaddingOk(h, s, |chunks|, index, proof, k)
    {
      ProofOfAt(h, s, leaves, index, d, d, k);
      if SiblingStart(index, k) >= |chunks| { SiblingPadding(h, s, chunks, index, k); }
    }
    HonestClimb(h, s, leaves, d, index, proof, d);
    LastLevelIsRoot(h, s, leaves, d);
    ShrBelow(index, d, d);
    assert Pow2(0) == 1;
  }

  // ---------- soundness against an honest root ----------

  lemma TopIsRoot(h: HashFn, s: Scheme, leaves: seq<Digest>, d: nat, index: nat)
    requires |leaves| == Pow2(d) && index < |leaves|
    ensures Shr(index, d) == 0 && |Level(h, s, leaves, d)| == 1 && Level(h, s, leaves, d)[0] == Root(h, s, d, leaves)
  {
    hide Level, Root, Shr;
    ShrBelow(index, d, d);
    LastLevelIsRoot(h, s, leaves, d);
    assert Pow2(0) == 1;
  }

  /** A climb that meets the tree at its root has met it at every node and sibling below. */
  lemma {:induction false} ClimbIsHonest(h: HashFn, s: Scheme, leaves: seq<Digest>, d: nat, leaf: Digest, index: nat,
                                         proof: seq<Digest>, k: nat, seen: set<Bytes>)
    requires SameKind(s, s) && |leaves| == Pow2(d) && index < |leaves| && k <= d == |proof|
    requires Climb(h, s, leaf, index, proof, d) == Root(h, s, d, leaves)
    requires CollisionFree(h, seen) && NodeInputs(h, s, leaves, d) <= seen
      && ClimbInputs(h, s, leaf, index, proof, d) <= seen
    ensures Shr(index, k) < |Level(h, s, leaves, k)|
    ensures Climb(h, s, leaf, index, proof, k) == Level(h, s, leaves, k)[Shr(index, k)]
    ensures k < d ==> HonestAt(h, s, leaves, index, proof, k)
    decreases d - k
  {
    hide *;
    if k == d {
      TopIsRoot(h, s, leaves, d, index);
    } else {
      ClimbIsHonest(h, s, leaves, d, leaf, index, proof, k + 1, seen);
      StepIsHonest(h, s, leaves, d, leaf, index, proof, k, seen);
    }
  }

  lemma StepIsHonest(h: HashFn, s: Scheme, leaves: seq<Digest>, d: nat, leaf: Digest, index: nat,
                     proof: seq<Digest>, k: nat, seen: set<Bytes>)
    requires SameKind(s, s) && |leaves| == Pow2(d) && index < |leaves| && k < d == |proof|
    requires Shr(index, k + 1) < |Level(h, s, leaves, k + 1)|
    requires Climb(h, s, leaf, index, proof, k + 1) == Level(h, s, leaves, k + 1)[Shr(index, k + 1)]
    requires CollisionFree(h, seen) && NodeInputs(h, s, leaves, d) <= seen
      && ClimbInputs(h, s, leaf, index, proof, d) <= seen
    ensures Shr(index, k) < |Level(h, s, leaves, k)|
    ensures Climb(h, s, leaf, index, proof, k) == Level(h, s, leaves, k)[Shr(index, k)]
    ensures HonestAt(h, s, leaves, index, proof, k)
  {
    StepIsParent(h, s, leaves, d, index, k);
    ClimbInputIn(h, s, leaf, index, proof, k + 1, d);
    ChildInputIn(h, s, leaves, d, k + 1, Shr(index, k + 1));
    var below, n, current := Level(h, s, leaves, k), Shr(index, k), Climb(h, s, leaf, index, proof, k);
    assert StepInput(s, k + 1, n, current, proof[k]) == StepInput(s, k + 1, n, below[n], below[Sibling(n)]) by {
      hide Level, StepInput, Shr, NodeInputs, ClimbInputs, Pow2;
    }
    hide Level, Climb, NodeInputs, ClimbInputs, Shr, Pow2, NodeInput;
    StepInputBinds(s, k + 1, n, current, proof[k], below[n], below[Sibling(n)]);
  }

  lemma StepInputBinds(
      s: Scheme, k: nat, node: nat, current: Digest, sibling: Digest, current': Digest, sibling': Digest)
    requires SameKind(s, s) && StepInput(s, k, node, current, sibling) == StepInput(s, k, node, current', sibling')
    ensures current == current' && sibling == sibling'
  {
    if node % 2 == 0 {
      NodeInputBinds(s, s, k, k, current, sibling, current', sibling');
    } else {
      NodeInputBinds(s, s, k, k, sibling, current, sibling', current');
    }
  }

  /** Against the root of a chunk list the verifier accepts, at each index, exactly that chunk and
      exactly its own sibling path. */
  lemma AcceptedIsHonest(h: HashFn, s: Scheme, chunks: seq<Bytes>, index: nat, chunk: Bytes, proof: seq<Digest>)
    requires SameKind(s, s) && |chunks| <= U32_LIMIT
    requires Verified(h, s, ChunkRoot(h, s, chunks), |chunks|, index, chunk, proof)
    requires CollisionFree(h, TreeInputs(h, s, chunks) + PathInputs(h, s, index, chunk, proof))
    ensures chunk == chunks[index] && proof == ChunkProof(h, s, chunks, index)
  {
    var d, leaves := Depth(|chunks|), ChunkLeaves(h, s, chunks);
    var seen := TreeInputs(h, s, chunks) + PathInputs(h, s, index, chunk, proof);
    var mine, yours := LeafInput(s, index, chunk), LeafInput(s, index, chunks[index]);
    assert LeafInputs(s, chunks)[index] == yours && leaves[index] == h(yours);
    assert mine in seen && yours in seen;
    assert NodeInputs(h, s, leaves, d) <= seen && ClimbInputs(h, s, h(mine), index, proof, d) <= seen;
    hide Pow2, Depth, Root, LeafInput, EmptyInput, LeafInputs, ProofOf, SiblingStart, Climb, PaddingRoot, NodeInputs,
      ClimbInputs, TreeInputs, PathInputs;
    ClimbIsHonest(h, s, leaves, d, h(mine), index, proof, 0, seen);
    LeafInputBinds(s, s, index, index, chunk, chunks[index]);
    hide Level, Shr;
    forall k | 0 <= k < d ensures proof[k] == ChunkProof(h, s, chunks, index)[k] {
      ClimbIsHonest(h, s, leaves, d, h(mine), index, proof, k, seen);
      ProofOfAt(h, s, leaves, index, d, d, k);
    }
  }

  // ---------- all chunks accepted against one root, with no honest tree assumed ----------

  /** One root against which every index has been accepted with some chunk and some path. */
  ghost predicate AllVerified(h: HashFn, s: Scheme, root: Digest, chunks: seq<Bytes>, proofs: seq<seq<Digest>>) {
    && SameKind(s, s) && |proofs| == |chunks|
    && forall i :: 0 <= i < |chunks| ==> Verified(h, s, root, |chunks|, i, chunks[i], proofs[i])
  }

  lemma ProofLengths(h: HashFn, s: Scheme, root: Digest, chunks: seq<Bytes>, proofs: seq<seq<Digest>>)
    requires AllVerified(h, s, root, chunks, proofs)
    ensures SameKind(s, s) && |proofs| == |chunks| && forall i :: 0 <= i < |chunks| ==> |proofs[i]| == Depth(|chunks|)
  {
    hide PaddingOk, Climb, Depth, SameKind;
    forall i | 0 <= i < |chunks| ensures |proofs[i]| == Depth(|chunks|) {
      assert Verified(h, s, root, |chunks|, i, chunks[i], proofs[i]);
    }
  }

  ghost function AllPathInputs(h: HashFn, s: Scheme, chunks: seq<Bytes>, proofs: seq<seq<Digest>>): set<Bytes>
    requires |proofs| == |chunks|
  {
    set i, x | 0 <= i < |chunks| && x in PathInputs(h, s, i, chunks[i], proofs[i]) :: x
  }

  function Value(h: HashFn, s: Scheme, chunks: seq<Bytes>, proofs: seq<seq<Digest>>, i: nat, k: nat): Digest
    requires |proofs| == |chunks| && i < |chunks| && k <= |proofs[i]|
  {
    Climb(h, s, h(LeafInput(s, i, chunks[i])), i, proofs[i], k)
  }

  lemma InAllPaths(h: HashFn, s: Scheme, chunks: seq<Bytes>, proofs: seq<seq<Digest>>, i: nat, x: Bytes)
    requires |proofs| == |chunks| && i < |chunks|
    requires x in ClimbInputs(h, s, h(LeafInput(s, i, chunks[i])), i, proofs[i], |proofs[i]|)
    ensures x in AllPathInputs(h, s, chunks, proofs)
  {
    assert x in PathInputs(h, s, i, chunks[i], proofs[i]) by { hide ClimbInputs, LeafInput; }
    hide ClimbInputs, LeafInput, PathInputs;
  }

  lemma PathStep(h: HashFn, s: Scheme, root: Digest, chunks: seq<Bytes>, proofs: seq<seq<Digest>>, i: nat, k: nat)
    requires AllVerified(h, s, root, chunks, proofs) && i < |chunks| && k < Depth(|chunks|)
    ensures |proofs[i]| == Depth(|chunks|)
    ensures var input := StepInput(s, k + 1, Shr(i, k), Value(h, s, chunks, proofs, i, k), proofs[i][k]);
      input in AllPathInputs(h, s, chunks, proofs) && Value(h, s, chunks, proofs, i, k + 1) == h(input)
  {
    assert Verified(h, s, root, |chunks|, i, chunks[i], proofs[i]);
    var leaf := h(LeafInput(s, i, chunks[i]));
    ClimbInputIn(h, s, leaf, i, proofs[i], k + 1, |proofs[i]|);
    hide StepInput, LeafInput, Shr, ClimbInputs, Depth, Verified, AllPathInputs;
    InAllPaths(h, s, chunks, proofs, i,
      StepInput(s, k + 1, Shr(i, k), Climb(h, s, leaf, i, proofs[i], k), proofs[i][k]));
  }

  /** Two paths that pass through the same parent hash the same parent input. */
  lemma SameParentInput(
      h: HashFn, s: Scheme, root: Digest, chunks: seq<Bytes>, proofs: seq<seq<Digest>>, i: nat, j: nat, k: nat)
    requires AllVerified(h, s, root, chunks, proofs) && CollisionFree(h, AllPathInputs(h, s, chunks, proofs))
    requires i < |chunks| && j < |chunks| && k < Depth(|chunks|)
    requires |proofs[i]| == |proofs[j]| == Depth(|chunks|)
    requires Value(h, s, chunks, proofs, i, k + 1) == Value(h, s, chunks, proofs, j, k + 1)
    ensures StepInput(s, k + 1, Shr(i, k), Value(h, s, chunks, proofs, i, k), proofs[i][k])
         == StepInput(s, k + 1, Shr(j, k), Value(h, s, chunks, proofs, j, k), proofs[j][k])
  {
    PathStep(h, s, root, chunks, proofs, i, k);
    PathStep(h, s, root, chunks, proofs, j, k);
    assert CollisionFree(h, AllPathInputs(h, s, chunks, proofs));
    hide AllPathInputs, AllVerified, Value, StepInput;
  }

  /** Paths that meet in a node agree on its value. */
  lemma {:induction false} SharedNode(
      h: HashFn, s: Scheme, root: Digest, chunks: seq<Bytes>, proofs: seq<seq<Digest>>, i: nat, j: nat, k: nat)
    requires AllVerified(h, s, root, chunks, proofs) && CollisionFree(h, AllPathInputs(h, s, chunks, proofs))
    requires i < |chunks| && j < |chunks| && k <= Depth(|chunks|) && Shr(i, k) == Shr(j, k)
    ensures Value(h, s, chunks, proofs, i, k) == Value(h, s, chunks, proofs, j, k)
    decreases Depth(|chunks|) - k
  {
    if k == Depth(|chunks|) {
      assert Verified(h, s, root, |chunks|, i, chunks[i], proofs[i])
        && Verified(h, s, root, |chunks|, j, chunks[j], proofs[j]);
    } else {
      SharedNode(h, s, root, chunks, proofs, i, j, k + 1);
      SameParentInput(h, s, root, chunks, proofs, i, j, k);
      hide StepInput, Value, Depth, Shr;
      StepInputBinds(s, k + 1, Shr(i, k), Value(h, s, chunks, proofs, i, k), proofs[i][k],
        Value(h, s, chunks, proofs, j, k), proofs[j][k]);
    }
  }

  /** What one path uses as a sibling is what any path through that sibling has computed. */
  lemma OpposedNode(
      h: HashFn, s: Scheme, root: Digest, chunks: seq<Bytes>, proofs: seq<seq<Digest>>, i: nat, j: nat, k: nat)
    requires AllVerified(h, s, root, chunks, proofs) && CollisionFree(h, AllPathInputs(h, s, chunks, proofs))
    requires i < |chunks| && j < |chunks| && k < Depth(|chunks|) && Shr(j, k) == Sibling(Shr(i, k))
    ensures proofs[i][k] == Value(h, s, chunks, proofs, j, k)
  {
    hide Value, Depth, NodeInput, AllPathInputs, CollisionFree, AllVerified, SameKind;
    ProofLengths(h, s, root, chunks, proofs);
    assert Shr(i, k + 1) == Shr(j, k + 1);
    SharedNode(h, s, root, chunks, proofs, i, j, k + 1);
    SameParentInput(h, s, root, chunks, proofs, i, j, k);
    OpposedInputs(s, k + 1, Shr(i, k), Value(h, s, chunks, proofs, i, k), proofs[i][k],
      Value(h, s, chunks, proofs, j, k), proofs[j][k]);
  }

  /** One parent input seen from both of its children: each one's sibling is the other. */
  lemma OpposedInputs(s: Scheme, k: nat, node: nat, x: Digest, p: Digest, y: Digest, q: Digest)
    requires SameKind(s, s) && StepInput(s, k, node, x, p) == StepInput(s, k, Sibling(node), y, q)
    ensures p == y && q == x
  {
    hide NodeInput, SameKind;
    if node % 2 == 0 {
      NodeInputBinds(s, s, k, k, x, p, q, y);
    } else {
      NodeInputBinds(s, s, k, k, p, x, y, q);
    }
  }

  /** Every path climbs through the nodes of the tree over the accepted chunks. */
  lemma {:induction false} PathsAreTree(
      h: HashFn, s: Scheme, root: Digest, chunks: seq<Bytes>, proofs: seq<seq<Digest>>, i: nat, k: nat)
    requires AllVerified(h, s, root, chunks, proofs) && CollisionFree(h, AllPathInputs(h, s, chunks, proofs))
    requires i < |chunks| && k <= Depth(|chunks|)
    ensures var leaves := ChunkLeaves(h, s, chunks);
      Shr(i, k) < |Level(h, s, leaves, k)| && Value(h, s, chunks, proofs, i, k) == Level(h, s, leaves, k)[Shr(i, k)]
    decreases k, 0
  {
    hide Level, StepInput, Climb, AllVerified, AllPathInputs, CollisionFree, Depth, Pow2, LeafInput, LeafInputs;
    ProofLengths(h, s, root, chunks, proofs);
    var leaves, d := ChunkLeaves(h, s, chunks), Depth(|chunks|);
    if k == 0 {
      PathBottom(h, s, chunks, proofs, i);
    } else {
      PathsAreTree(h, s, root, chunks, proofs, i, k - 1);
      PathStep(h, s, root, chunks, proofs, i, k - 1);
      SiblingIsTree(h, s, root, chunks, proofs, i, k - 1);
      StepIsParent(h, s, leaves, d, i, k - 1);
    }
  }

  lemma PathBottom(h: HashFn, s: Scheme, chunks: seq<Bytes>, proofs: seq<seq<Digest>>, i: nat)
    requires |proofs| == |chunks| && i < |chunks|
    ensures i < |Level(h, s, ChunkLeaves(h, s, chunks), 0)|
    ensures Value(h, s, chunks, proofs, i, 0) == Level(h, s, ChunkLeaves(h, s, chunks), 0)[Shr(i, 0)]
  {
    assert LeafInputs(s, chunks)[i] == LeafInput(s, i, chunks[i]);
  }

  lemma {:induction false} SiblingIsTree(
      h: HashFn, s: Scheme, root: Digest, chunks: seq<Bytes>, proofs: seq<seq<Digest>>, i: nat, k: nat)
    requires AllVerified(h, s, root, chunks, proofs) && CollisionFree(h, AllPathInputs(h, s, chunks, proofs))
    requires i < |chunks| && k < Depth(|chunks|)
    ensures HonestAt(h, s, ChunkLeaves(h, s, chunks), i, proofs[i], k)
    decreases k, 1
  {
    var j := SiblingStart(i, k);
    assert Verified(h, s, root, |chunks|, i, chunks[i], proofs[i]) && PaddingOk(h, s, |chunks|, i, proofs[i], k);
    if j < |chunks| {
      ShrOfMultiple(Sibling(Shr(i, k)), k);
      OpposedNode(h, s, root, chunks, proofs, i, j, k);
      PathsAreTree(h, s, root, chunks, proofs, j, k);
    } else {
      SiblingPadding(h, s, chunks, i, k);
    }
  }

  /** If every index below the chunk count has been accepted against one root, then that root is
      the root of the accepted chunks. */
  lemma AllVerifiedIsRoot(h: HashFn, s: Scheme, root: Digest, chunks: seq<Bytes>, proofs: seq<seq<Digest>>)
    requires AllVerified(h, s, root, chunks, proofs) && CollisionFree(h, AllPathInputs(h, s, chunks, proofs))
    requires |chunks| > 0
    ensures root == ChunkRoot(h, s, chunks)
  {
    var d := Depth(|chunks|);
    assert Verified(h, s, root, |chunks|, 0, chunks[0], proofs[0]);
    PathsAreTree(h, s, root, chunks, proofs, 0, d);
    LastLevelIsRoot(h, s, ChunkLeaves(h, s, chunks), d);
  }
}
