/** Padded binary hash trees over byte chunks, for any domain strings.  The artifact tree and
    the subject-bound, level-tagged observation tree are its two instances. */
module MerkleTree {
  import opened ByteStrings

  /** What distinguishes one kind of tree: three domain strings, told apart by byte `tagAt`; the
      subject bytes inside each leaf; and whether a node carries its level. */
  datatype Scheme = Scheme(leafDomain: Bytes, nodeDomain: Bytes, emptyDomain: Bytes, tagAt: nat, subject: Bytes,
    leveled: bool)

  /** The domain strings differ from each other at byte `tagAt`. */
  predicate Separated(s: Scheme) {
    && s.tagAt < |s.leafDomain| && s.tagAt < |s.nodeDomain| && s.tagAt < |s.emptyDomain|
    && s.leafDomain[s.tagAt] != s.nodeDomain[s.tagAt]
    && s.leafDomain[s.tagAt] != s.emptyDomain[s.tagAt]
    && s.nodeDomain[s.tagAt] != s.emptyDomain[s.tagAt]
  }

  /** Two schemes that differ at most in the subject they bind. */
  predicate SameKind(s: Scheme, t: Scheme) {
    Separated(s) && |s.subject| == |t.subject| && t == s.(subject := t.subject)
  }

  function ArtifactScheme(): Scheme {
    Scheme(Ascii("AMOEBA_ARTIFACT_CHUNK_V1"), Ascii("AMOEBA_ARTIFACT_NODE_V1"), Ascii("AMOEBA_ARTIFACT_EMPTY_V1"), 16,
      [], false)
  }

  function ObservationScheme(subject: Digest): Scheme {
    Scheme(Ascii("AMOEBA_PROGRAMDATA_OBSERVATION_CHUNK_V1"), Ascii("AMOEBA_PROGRAMDATA_OBSERVATION_NODE_V1"),
           Ascii("AMOEBA_PROGRAMDATA_OBSERVATION_EMPTY_V1"), 31, subject, true)
  }

  lemma ArtifactSchemeSeparated()
    ensures SameKind(ArtifactScheme(), ArtifactScheme()) && !ArtifactScheme().leveled
  {
    assert "AMOEBA_ARTIFACT_CHUNK_V1"[16] == 'C';
    assert "AMOEBA_ARTIFACT_NODE_V1"[16] == 'N';
    assert "AMOEBA_ARTIFACT_EMPTY_V1"[16] == 'E';
  }

  lemma ObservationSchemeSeparated(subject: Digest, other: Digest)
    ensures SameKind(ObservationScheme(subject), ObservationScheme(other))
    ensures ObservationScheme(subject).subject == subject && ObservationScheme(other).subject == other
  {
    assert "AMOEBA_PROGRAMDATA_OBSERVATION_CHUNK_V1"[31] == 'C';
    assert "AMOEBA_PROGRAMDATA_OBSERVATION_NODE_V1"[31] == 'N';
    assert "AMOEBA_PROGRAMDATA_OBSERVATION_EMPTY_V1"[31] == 'E';
  }

  // ---------- hash inputs ----------

  function LevelBytes(s: Scheme, level: nat): Bytes {
    if s.leveled then [level % 256] else []
  }

  function LeafInput(s: Scheme, index: nat, chunk: Bytes): Bytes {
    s.leafDomain + (s.subject + (LE(index, 4) + (LE(|chunk|, 4) + chunk)))
  }

  function EmptyInput(s: Scheme, index: nat): Bytes {
    s.emptyDomain + (s.subject + LE(index, 4))
  }

  function NodeInput(s: Scheme, level: nat, left: Digest, right: Digest): Bytes {
    s.nodeDomain + (LevelBytes(s, level) + (left + right))
  }

  predicate HasTag(s: Scheme, x: Bytes, domain: Bytes) {
    s.tagAt < |x| && s.tagAt < |domain| && x[s.tagAt] == domain[s.tagAt]
  }

  /** Leaves, empty leaves and nodes of one kind of tree never share a hash input: byte `tagAt`
      tells them apart. */
  lemma InputTags(s: Scheme, i: nat, chunk: Bytes, level: nat, left: Digest, right: Digest)
    requires Separated(s)
    ensures HasTag(s, LeafInput(s, i, chunk), s.leafDomain)
    ensures HasTag(s, EmptyInput(s, i), s.emptyDomain)
    ensures HasTag(s, NodeInput(s, level, left, right), s.nodeDomain)
  {
  }

  lemma LeafInputBinds(s: Scheme, t: Scheme, i: nat, j: nat, chunk: Bytes, other: Bytes)
    requires SameKind(s, t) && i < U32_LIMIT && j < U32_LIMIT
    requires LeafInput(s, i, chunk) == LeafInput(t, j, other)
    ensures s == t && i == j && chunk == other
  {
    Limits();
    SplitAt(s.leafDomain, s.subject + (LE(i, 4) + (LE(|chunk|, 4) + chunk)),
            t.leafDomain, t.subject + (LE(j, 4) + (LE(|other|, 4) + other)));
    SplitAt(s.subject, LE(i, 4) + (LE(|chunk|, 4) + chunk), t.subject, LE(j, 4) + (LE(|other|, 4) + other));
    SplitAt(LE(i, 4), LE(|chunk|, 4) + chunk, LE(j, 4), LE(|other|, 4) + other);
    SplitAt(LE(|chunk|, 4), chunk, LE(|other|, 4), other);
    LEInjective(i, j, 4);
  }

  lemma EmptyInputBinds(s: Scheme, t: Scheme, i: nat, j: nat)
    requires SameKind(s, t) && i < U32_LIMIT && j < U32_LIMIT && EmptyInput(s, i) == EmptyInput(t, j)
    ensures s == t && i == j
  {
    Limits();
    SplitAt(s.emptyDomain, s.subject + LE(i, 4), t.emptyDomain, t.subject + LE(j, 4));
    SplitAt(s.subject, LE(i, 4), t.subject, LE(j, 4));
    LEInjective(i, j, 4);
  }

  lemma NodeInputBinds(s: Scheme, t: Scheme, k: nat, m: nat, left: Digest, right: Digest, left': Digest, right': Digest)
    requires SameKind(s, t) && NodeInput(s, k, left, right) == NodeInput(t, m, left', right')
    ensures left == left' && right == right'
  {
    SplitAt(s.nodeDomain, LevelBytes(s, k) + (left + right), t.nodeDomain, LevelBytes(t, m) + (left' + right'));
    SplitAt(LevelBytes(s, k), left + right, LevelBytes(t, m), left' + right');
    SplitAt(left, right, left', right');
  }

  // ---------- the hash inputs, byte by byte ----------

  lemma Parts(a: Bytes, b: Bytes, c: Bytes)
    ensures (a + (b + c))[..|a|] == a && (a + (b + c))[|a|..|a| + |b|] == b && (a + (b + c))[|a| + |b|..] == c
  {
  }

  /** A node of the artifact tree: the domain, the left child, the right child. */
  lemma ArtifactNodeBytes(k: nat, left: Digest, right: Digest)
    ensures var x := NodeInput(ArtifactScheme(), k, left, right);
      |x| == 87 && x[..23] == Ascii("AMOEBA_ARTIFACT_NODE_V1") && x[23..55] == left && x[55..] == right
  {
    hide Ascii;
    Parts(Ascii("AMOEBA_ARTIFACT_NODE_V1"), left, right);
    assert [] + (left + right) == left + right;
  }

  /** A leaf of the artifact tree: the domain, the index, the length, the chunk. */
  lemma ArtifactLeafBytes(index: nat, chunk: Bytes)
    ensures var x := LeafInput(ArtifactScheme(), index, chunk);
      && |x| == 32 + |chunk| && x[..24] == Ascii("AMOEBA_ARTIFACT_CHUNK_V1") && x[24..28] == LE(index, 4)
      && x[28..32] == LE(|chunk|, 4) && x[32..] == chunk
  {
    hide Ascii, LE;
    var tail := LE(|chunk|, 4) + chunk;
    assert [] + (LE(index, 4) + tail) == LE(index, 4) + tail;
    Parts(Ascii("AMOEBA_ARTIFACT_CHUNK_V1"), LE(index, 4), tail);
    Parts(Ascii("AMOEBA_ARTIFACT_CHUNK_V1") + LE(index, 4), LE(|chunk|, 4), chunk);
    assert (Ascii("AMOEBA_ARTIFACT_CHUNK_V1") + LE(index, 4)) + tail == LeafInput(ArtifactScheme(), index, chunk);
  }

  /** A padding leaf of the artifact tree: the domain and the index. */
  lemma ArtifactEmptyBytes(index: nat)
    ensures var x := EmptyInput(ArtifactScheme(), index);
      |x| == 28 && x[..24] == Ascii("AMOEBA_ARTIFACT_EMPTY_V1") && x[24..] == LE(index, 4)
  {
    hide Ascii, LE;
    Parts(Ascii("AMOEBA_ARTIFACT_EMPTY_V1"), [], LE(index, 4));
  }

  /** A node of the observation tree: the domain, the level, the left child, the right child. */
  lemma ObservationNodeBytes(subject: Digest, k: nat, left: Digest, right: Digest)
    requires k < 256
    ensures var x := NodeInput(ObservationScheme(subject), k, left, right);
      && |x| == 103 && x[..38] == Ascii("AMOEBA_PROGRAMDATA_OBSERVATION_NODE_V1") && x[38] == k
      && x[39..71] == left && x[71..] == right
  {
    hide Ascii;
    var domain := Ascii("AMOEBA_PROGRAMDATA_OBSERVATION_NODE_V1");
    Parts(domain, [k], left + right);
    Parts(domain + [k], left, right);
    assert (domain + [k]) + (left + right) == domain + ([k] + (left + right));
  }

  /** A leaf of the observation tree: the domain, the subject, the index, the length, the chunk. */
  lemma ObservationLeafBytes(subject: Digest, index: nat, chunk: Bytes)
    ensures var x := LeafInput(ObservationScheme(subject), index, chunk);
      && |x| == 79 + |chunk| && x[..39] == Ascii("AMOEBA_PROGRAMDATA_OBSERVATION_CHUNK_V1") && x[39..71] == subject
      && x[71..75] == LE(index, 4) && x[75..79] == LE(|chunk|, 4) && x[79..] == chunk
  {
    hide Ascii, LE;
    var domain := Ascii("AMOEBA_PROGRAMDATA_OBSERVATION_CHUNK_V1");
    var i, n := LE(index, 4), LE(|chunk|, 4);
    Parts(domain, subject, i + (n + chunk));
    Parts(domain + subject, i, n + chunk);
    Parts((domain + subject) + i, n, chunk);
    assert (domain + subject) + (i + (n + chunk)) == domain + (subject + (i + (n + chunk)));
    assert ((domain + subject) + i) + (n + chunk) == domain + (subject + (i + (n + chunk)));
  }

  /** A padding leaf of the observation tree: the domain, the subject, the index. */
  lemma ObservationEmptyBytes(subject: Digest, index: nat)
    ensures var x := EmptyInput(ObservationScheme(subject), index);
      && |x| == 75 && x[..39] == Ascii("AMOEBA_PROGRAMDATA_OBSERVATION_EMPTY_V1") && x[39..71] == subject
      && x[71..] == LE(index, 4)
  {
    hide Ascii, LE;
    Parts(Ascii("AMOEBA_PROGRAMDATA_OBSERVATION_EMPTY_V1"), subject, LE(index, 4));
  }

  /** Observation nodes of different levels never share a hash input, whatever they join. */
  lemma LevelsApart(
      subject: Digest, other: Digest, k: nat, m: nat, left: Digest, right: Digest, left': Digest, right': Digest)
    requires k < m < 256
    ensures NodeInput(ObservationScheme(subject), k, left, right)
         != NodeInput(ObservationScheme(other), m, left', right')
  {
    hide NodeInput, ObservationScheme;
    ObservationNodeBytes(subject, k, left, right);
    ObservationNodeBytes(other, m, left', right');
  }

  // ---------- powers of two ----------

  function Pow2(d: nat): (p: nat)
    ensures p > 0
  {
    if d == 0 then 1 else 2 * Pow2(d - 1)
  }

  /** The exponent of the least power of two that is at least `n`. */
  function Depth(n: nat): (d: nat)
    ensures n <= Pow2(d) && (d > 0 ==> Pow2(d - 1) < n)
  {
    if n <= 1 then 0 else 1 + Depth((n + 1) / 2)
  }

  lemma {:induction false} Pow2Monotone(a: nat, b: nat)
    requires a <= b
    ensures Pow2(a) <= Pow2(b)
    decreases b - a
  {
    if a < b { Pow2Monotone(a + 1, b); }
  }

  lemma LeastExponent(n: nat, d: nat, e: nat)
    requires n <= Pow2(d) && (e > 0 ==> Pow2(e - 1) < n)
    ensures e <= d
  {
    if d < e { Pow2Monotone(d, e - 1); }
  }

  lemma DepthUnique(n: nat, d: nat)
    requires n <= Pow2(d) && (d > 0 ==> Pow2(d - 1) < n)
    ensures Depth(n) == d
  {
    LeastExponent(n, d, Depth(n));
    LeastExponent(n, Depth(n), d);
  }

  predicate IsPowerOfTwo(n: nat) {
    n == Pow2(Depth(n))
  }

  lemma DepthOfPow2(d: nat)
    ensures Depth(Pow2(d)) == d && IsPowerOfTwo(Pow2(d))
  {
    DepthUnique(Pow2(d), d);
  }

  lemma DepthMonotone(m: nat, n: nat)
    requires m <= n
    ensures Depth(m) <= Depth(n)
  {
    LeastExponent(m, Depth(n), Depth(m));
  }

  /** `result *= 2` until it reaches `value`; a value that is not positive is an error. */
  method NextPowerOfTwo(value: int) returns (r: Option<nat>)
    ensures r == if value <= 0 then None else Some(Pow2(Depth(value)))
  {
    if value <= 0 {
      return None;
    }
    var result := 1;
    ghost var k := 0;
    while result < value
      invariant result == Pow2(k) && k <= Depth(value)
      decreases Depth(value) - k
    {
      result := result * 2;
      k := k + 1;
    }
    LeastExponent(value, k, Depth(value));
    r := Some(result);
  }

  lemma Pow2Values()
    ensures Pow2(7) == 128 && Pow2(10) == 1024 && Pow2(11) == 2048
  {
    assert Pow2(3) == 8 && Pow2(5) == 32 && Pow2(9) == 512;
  }

  lemma MulLess(a: int, b: int, m: int)
    requires 0 < m && a * m < b * m
    ensures a < b
  {
  }

  lemma DivMul(q: int, m: int, r: int)
    requires 0 < m && 0 <= r < m
    ensures (q * m + r) / m == q && (q * m + r) % m == r
  {
    var n := q * m + r;
    var q', r' := n / m, n % m;
    assert q' * m + r' == q * m + r;
    MulLess(q, q' + 1, m);
    MulLess(q', q + 1, m);
  }

  /** `n >> k`. */
  function Shr(n: nat, k: nat): nat {
    if k == 0 then n else Shr(n, k - 1) / 2
  }

  lemma {:induction false} ShrHalf(n: nat, k: nat)
    ensures Shr(n, k + 1) == Shr(n / 2, k)
  {
    if k > 0 { ShrHalf(n, k - 1); }
  }

  // ---------- the tree ----------

  lemma SliceShift<T>(bytes: seq<T>, shift: nat, lo: nat, hi: nat)
    requires lo <= hi <= |bytes| - shift
    ensures bytes[shift..][lo..hi] == bytes[lo + shift..hi + shift]
  {
  }

  /** The tree as a recursive definition: the root over 2^d leaves joins the roots of its
      two halves; its parent level is d. */
  function Root(h: HashFn, s: Scheme, d: nat, leaves: seq<Digest>): Digest
    requires |leaves| == Pow2(d)
  {
    if d == 0 then leaves[0]
    else h(NodeInput(s, d, Root(h, s, d - 1, leaves[..Pow2(d - 1)]), Root(h, s, d - 1, leaves[Pow2(d - 1)..])))
  }

  /** One reduction step: neighbours are joined in order; an odd last entry is dropped. */
  function Pairs(h: HashFn, s: Scheme, level: nat, nodes: seq<Digest>): (p: seq<Digest>)
    ensures |p| == |nodes| / 2
  {
    if |nodes| < 2 then [] else [h(NodeInput(s, level, nodes[0], nodes[1]))] + Pairs(h, s, level, nodes[2..])
  }

  lemma {:induction false} PairsAt(h: HashFn, s: Scheme, level: nat, nodes: seq<Digest>, i: nat)
    requires i < |nodes| / 2
    ensures Pairs(h, s, level, nodes)[i] == h(NodeInput(s, level, nodes[2 * i], nodes[2 * i + 1]))
  {
    hide NodeInput;
    if i > 0 { PairsAt(h, s, level, nodes[2..], i - 1); }
  }

  /** The tree level by level: what k reduction steps leave of the leaves. */
  function Level(h: HashFn, s: Scheme, leaves: seq<Digest>, k: nat): seq<Digest> {
    if k == 0 then leaves else Pairs(h, s, k, Level(h, s, leaves, k - 1))
  }

  lemma {:induction false} LevelSize(h: HashFn, s: Scheme, leaves: seq<Digest>, k: nat)
    ensures |Level(h, s, leaves, k)| == Shr(|leaves|, k)
  {
    if k > 0 { LevelSize(h, s, leaves, k - 1); }
  }

  lemma {:induction false} LevelSizePow2(h: HashFn, s: Scheme, leaves: seq<Digest>, d: nat, k: nat)
    requires |leaves| == Pow2(d) && k <= d
    ensures |Level(h, s, leaves, k)| == Pow2(d - k)
  {
    hide NodeInput;
    if k > 0 { LevelSizePow2(h, s, leaves, d, k - 1); }
  }

  /** The i-th aligned block of 2^k leaves. */
  function Block(leaves: seq<Digest>, k: nat, i: nat): (block: seq<Digest>)
    requires (i + 1) * Pow2(k) <= |leaves|
    ensures |block| == Pow2(k)
  {
    assert (i + 1) * Pow2(k) == i * Pow2(k) + Pow2(k);
    leaves[i * Pow2(k)..i * Pow2(k) + Pow2(k)]
  }

  lemma BlockArithmetic(i: nat, p: nat)
    ensures i * (2 * p) == (2 * i) * p
    ensures (i + 1) * (2 * p) == (2 * i) * p + 2 * p
    ensures (2 * i + 1) * p == (2 * i) * p + p
    ensures (2 * i + 1 + 1) * p == (2 * i) * p + 2 * p
  {
  }

  lemma BlockHalves(leaves: seq<Digest>, k: nat, i: nat)
    requires k > 0 && (i + 1) * Pow2(k) <= |leaves|
    ensures (2 * i + 1) * Pow2(k - 1) <= |leaves| && (2 * i + 1 + 1) * Pow2(k - 1) <= |leaves|
    ensures Block(leaves, k, i)[..Pow2(k - 1)] == Block(leaves, k - 1, 2 * i)
    ensures Block(leaves, k, i)[Pow2(k - 1)..] == Block(leaves, k - 1, 2 * i + 1)
  {
    var p := Pow2(k - 1);
    assert Pow2(k) == 2 * p;
    hide Pow2;
    BlockArithmetic(i, p);
    var m := (2 * i) * p;
    BlockIs(leaves, k, i, m);
    BlockIs(leaves, k - 1, 2 * i, m);
    BlockIs(leaves, k - 1, 2 * i + 1, m + p);
    hide *;
    SliceShift(leaves[..m + 2 * p], m, 0, p);
    SliceShift(leaves[..m + 2 * p], m, p, 2 * p);
  }

  lemma BlockIs(leaves: seq<Digest>, k: nat, i: nat, start: nat)
    requires (i + 1) * Pow2(k) <= |leaves| && start == i * Pow2(k)
    ensures start + Pow2(k) <= |leaves| && Block(leaves, k, i) == leaves[start..start + Pow2(k)]
  {
    hide Pow2;
    assert (i + 1) * Pow2(k) == i * Pow2(k) + Pow2(k);
  }

  /** Level by level and recursively is the same tree: entry i of level k is the root of the
      aligned block of 2^k leaves it stands for. */
  lemma {:induction false} LevelIsRoot(h: HashFn, s: Scheme, leaves: seq<Digest>, k: nat, i: nat)
    requires (i + 1) * Pow2(k) <= |leaves|
    ensures i < |Level(h, s, leaves, k)|
    ensures Level(h, s, leaves, k)[i] == Root(h, s, k, Block(leaves, k, i))
  {
    hide NodeInput;
    if k > 0 {
      BlockHalves(leaves, k, i);
      hide Block;
      LevelIsRoot(h, s, leaves, k - 1, 2 * i);
      LevelIsRoot(h, s, leaves, k - 1, 2 * i + 1);
      PairsAt(h, s, k, Level(h, s, leaves, k - 1), i);
    }
  }

  lemma LastLevelIsRoot(h: HashFn, s: Scheme, leaves: seq<Digest>, d: nat)
    requires |leaves| == Pow2(d)
    ensures Level(h, s, leaves, d) == [Root(h, s, d, leaves)]
  {
    LevelIsRoot(h, s, leaves, d, 0);
    LevelSizePow2(h, s, leaves, d, d);
    assert leaves[0..Pow2(d)] == leaves;
  }

  lemma TwoLeafRoot(h: HashFn, s: Scheme, x: Digest, y: Digest)
    ensures Root(h, s, 1, [x, y]) == h(NodeInput(s, 1, x, y))
  {
    hide NodeInput;
    assert Pow2(0) == 1 && [x, y][..1] == [x] && [x, y][1..] == [y];
  }

  lemma FourLeafRoot(h: HashFn, s: Scheme, x: Digest, y: Digest, z: Digest, w: Digest)
    ensures Root(h, s, 2, [x, y, z, w]) == h(NodeInput(s, 2, h(NodeInput(s, 1, x, y)), h(NodeInput(s, 1, z, w))))
  {
    hide NodeInput;
    TwoLeafRoot(h, s, x, y);
    TwoLeafRoot(h, s, z, w);
    var leaves := [x, y, z, w];
    assert Pow2(1) == 2 && leaves[..2] == [x, y] && leaves[2..] == [z, w];
  }

  // ---------- the inputs a tree hashes ----------

  function ChildInput(h: HashFn, s: Scheme, leaves: seq<Digest>, k: nat, i: nat): Bytes
    requires 0 < k && i < |Level(h, s, leaves, k)|
  {
    NodeInput(s, k, Level(h, s, leaves, k - 1)[2 * i], Level(h, s, leaves, k - 1)[2 * i + 1])
  }

  ghost function NodeInputs(h: HashFn, s: Scheme, leaves: seq<Digest>, d: nat): set<Bytes> {
    if d == 0 then {}
    else NodeInputs(h, s, leaves, d - 1) + (set i | 0 <= i < |Level(h, s, leaves, d)| :: ChildInput(h, s, leaves, d, i))
  }

  lemma {:induction false} ChildInputIn(h: HashFn, s: Scheme, leaves: seq<Digest>, d: nat, k: nat, i: nat)
    requires 0 < k <= d && i < |Level(h, s, leaves, k)|
    ensures ChildInput(h, s, leaves, k, i) in NodeInputs(h, s, leaves, d)
    ensures Level(h, s, leaves, k)[i] == h(ChildInput(h, s, leaves, k, i))
  {
    hide NodeInput;
    PairsAt(h, s, k, Level(h, s, leaves, k - 1), i);
    if k < d { ChildInputIn(h, s, leaves, d - 1, k, i); }
  }

  function Hashes(h: HashFn, inputs: seq<Bytes>): (leaves: seq<Digest>)
    ensures |leaves| == |inputs|
  {
    seq(|inputs|, i requires 0 <= i < |inputs| => h(inputs[i]))
  }

  /** One leaf input per chunk, then empty leaves up to the next power of two. */
  function LeafInputs(s: Scheme, chunks: seq<Bytes>): (inputs: seq<Bytes>)
    ensures |inputs| == Pow2(Depth(|chunks|))
  {
    seq(Pow2(Depth(|chunks|)), i requires 0 <= i < Pow2(Depth(|chunks|)) =>
      if i < |chunks| then LeafInput(s, i, chunks[i]) else EmptyInput(s, i))
  }

  function ChunkLeaves(h: HashFn, s: Scheme, chunks: seq<Bytes>): (leaves: seq<Digest>)
    ensures |leaves| == Pow2(Depth(|chunks|))
  {
    Hashes(h, LeafInputs(s, chunks))
  }

  function ChunkRoot(h: HashFn, s: Scheme, chunks: seq<Bytes>): Digest {
    Root(h, s, Depth(|chunks|), ChunkLeaves(h, s, chunks))
  }

  ghost function TreeInputs(h: HashFn, s: Scheme, chunks: seq<Bytes>): set<Bytes> {
    (set x | x in LeafInputs(s, chunks)) + NodeInputs(h, s, ChunkLeaves(h, s, chunks), Depth(|chunks|))
  }

  lemma TwoChunkTree(h: HashFn, s: Scheme, a: Bytes, b: Bytes)
    ensures ChunkRoot(h, s, [a, b]) == h(NodeInput(s, 1, h(LeafInput(s, 0, a)), h(LeafInput(s, 1, b))))
  {
    hide NodeInput, LeafInput, EmptyInput;
    assert Pow2(0) == 1 && Pow2(1) == 2;
    DepthUnique(2, 1);
    assert ChunkLeaves(h, s, [a, b]) == [h(LeafInput(s, 0, a)), h(LeafInput(s, 1, b))];
    TwoLeafRoot(h, s, h(LeafInput(s, 0, a)), h(LeafInput(s, 1, b)));
  }

  /** Three chunks are padded with the empty leaf of index three. */
  lemma ThreeChunkTree(h: HashFn, s: Scheme, a: Bytes, b: Bytes, c: Bytes)
    ensures ChunkRoot(h, s, [a, b, c])
         == h(NodeInput(s, 2, h(NodeInput(s, 1, h(LeafInput(s, 0, a)), h(LeafInput(s, 1, b)))),
                              h(NodeInput(s, 1, h(LeafInput(s, 2, c)), h(EmptyInput(s, 3))))))
  {
    hide NodeInput, LeafInput, EmptyInput;
    assert Pow2(0) == 1 && Pow2(1) == 2 && Pow2(2) == 4;
    DepthUnique(3, 2);
    var leaves := [h(LeafInput(s, 0, a)), h(LeafInput(s, 1, b)), h(LeafInput(s, 2, c)), h(EmptyInput(s, 3))];
    assert ChunkLeaves(h, s, [a, b, c]) == leaves;
    FourLeafRoot(h, s, leaves[0], leaves[1], leaves[2], leaves[3]);
  }

  // ---------- the root binds ----------

  /** Two trees of one kind, over 2^d and 2^e leaves, with one root and with all their node inputs among
      strings that do not collide. */
  ghost predicate TwoTrees(
      h: HashFn, s: Scheme, a: seq<Digest>, d: nat, t: Scheme, b: seq<Digest>, e: nat, seen: set<Bytes>)
  {
    && SameKind(s, t) && |a| == Pow2(d) && |b| == Pow2(e) && Root(h, s, d, a) == Root(h, t, e, b)
    && CollisionFree(h, seen) && NodeInputs(h, s, a, d) <= seen && NodeInputs(h, t, b, e) <= seen
  }

  lemma SameChildren(h: HashFn, s: Scheme, a: seq<Digest>, d: nat, k: nat, t: Scheme, b: seq<Digest>, e: nat, m: nat,
                     i: nat, seen: set<Bytes>)
    requires TwoTrees(h, s, a, d, t, b, e, seen) && 0 < k <= d && 0 < m <= e
    requires i < |Level(h, s, a, k)| && i < |Level(h, t, b, m)| && Level(h, s, a, k)[i] == Level(h, t, b, m)[i]
    ensures Level(h, s, a, k - 1)[2 * i] == Level(h, t, b, m - 1)[2 * i]
    ensures Level(h, s, a, k - 1)[2 * i + 1] == Level(h, t, b, m - 1)[2 * i + 1]
  {
    hide NodeInput, NodeInputs, Root, Pow2;
    ChildInputIn(h, s, a, d, k, i);
    ChildInputIn(h, t, b, e, m, i);
    var x, y := Level(h, s, a, k - 1), Level(h, t, b, m - 1);
    NodeInputBinds(s, t, k, m, x[2 * i], x[2 * i + 1], y[2 * i], y[2 * i + 1]);
  }

  lemma NextLevelAgrees(h: HashFn, s: Scheme, a: seq<Digest>, d: nat, k: nat, t: Scheme, b: seq<Digest>, e: nat, m: nat,
                        seen: set<Bytes>)
    requires TwoTrees(h, s, a, d, t, b, e, seen) && 0 < k <= d && 0 < m <= e
    requires Level(h, s, a, k) == Level(h, t, b, m)
    requires |Level(h, s, a, k - 1)| == |Level(h, t, b, m - 1)| == 2 * |Level(h, s, a, k)|
    ensures Level(h, s, a, k - 1) == Level(h, t, b, m - 1)
  {
    hide *;
    var x, y := Level(h, s, a, k - 1), Level(h, t, b, m - 1);
    forall i | 0 <= i < |x| ensures x[i] == y[i] {
      SameChildren(h, s, a, d, k, t, b, e, m, i / 2, seen);
      assert i == 2 * (i / 2) || i == 2 * (i / 2) + 1;
    }
  }

  /** The top levels of two such trees are their one root. */
  lemma TopsAgree(h: HashFn, s: Scheme, a: seq<Digest>, d: nat, t: Scheme, b: seq<Digest>, e: nat, seen: set<Bytes>)
    requires TwoTrees(h, s, a, d, t, b, e, seen)
    ensures Level(h, s, a, d) == Level(h, t, b, e)
  {
    hide Root, Level, Pow2, NodeInputs;
    LastLevelIsRoot(h, s, a, d);
    LastLevelIsRoot(h, t, b, e);
  }

  lemma LevelSizes(
      h: HashFn, s: Scheme, a: seq<Digest>, d: nat, t: Scheme, b: seq<Digest>, e: nat, j: nat, seen: set<Bytes>)
    requires TwoTrees(h, s, a, d, t, b, e, seen) && j <= d && j <= e
    ensures |Level(h, s, a, d - j)| == |Level(h, t, b, e - j)| == Pow2(j)
  {
    hide Root, Level, Pow2, NodeInputs;
    LevelSizePow2(h, s, a, d, d - j);
    LevelSizePow2(h, t, b, e, e - j);
  }

  lemma Pow2Step(j: nat)
    requires j > 0
    ensures Pow2(j) == 2 * Pow2(j - 1)
  {
  }

  /** Two trees with one root agree on every level, counted from the top. */
  lemma {:induction false} LevelsAgree(h: HashFn, s: Scheme, a: seq<Digest>, d: nat, t: Scheme, b: seq<Digest>, e: nat,
                                       j: nat, seen: set<Bytes>)
    requires TwoTrees(h, s, a, d, t, b, e, seen) && j <= d && j <= e
    ensures Level(h, s, a, d - j) == Level(h, t, b, e - j)
  {
    hide *;
    if j == 0 {
      TopsAgree(h, s, a, d, t, b, e, seen);
    } else {
      LevelsAgree(h, s, a, d, t, b, e, j - 1, seen);
      LevelSizes(h, s, a, d, t, b, e, j, seen);
      LevelSizes(h, s, a, d, t, b, e, j - 1, seen);
      Pow2Step(j);
      NextLevelAgrees(h, s, a, d, d - j + 1, t, b, e, e - j + 1, seen);
    }
  }

  lemma LeafTag(s: Scheme, chunks: seq<Bytes>, i: nat)
    requires Separated(s) && i < Pow2(Depth(|chunks|))
    ensures HasTag(s, LeafInputs(s, chunks)[i], if i < |chunks| then s.leafDomain else s.emptyDomain)
  {
    InputTags(s, i, if i < |chunks| then chunks[i] else [], 0, Zeros(32), Zeros(32));
    hide LeafInput, EmptyInput, HasTag;
  }

  lemma LeafIsNotNode(h: HashFn, s: Scheme, a: seq<Digest>, d: nat, t: Scheme, b: seq<Digest>, e: nat,
                      leaf: Bytes, k: nat, i: nat,
                      seen: set<Bytes>)
    requires TwoTrees(h, s, a, d, t, b, e, seen) && leaf in seen
    requires HasTag(s, leaf, s.leafDomain) || HasTag(s, leaf, s.emptyDomain)
    requires 0 < k <= e && i < |Level(h, t, b, k)|
    ensures h(leaf) != Level(h, t, b, k)[i]
  {
    hide NodeInput, NodeInputs, Root, Pow2;
    ChildInputIn(h, t, b, e, k, i);
    var below := Level(h, t, b, k - 1);
    InputTags(t, 0, [], k, below[2 * i], below[2 * i + 1]);
  }

  lemma TreesOf(h: HashFn, s: Scheme, chunks: seq<Bytes>, t: Scheme, others: seq<Bytes>, seen: set<Bytes>)
    requires SameKind(s, t) && CollisionFree(h, seen)
    requires TreeInputs(h, s, chunks) <= seen && TreeInputs(h, t, others) <= seen
    requires ChunkRoot(h, s, chunks) == ChunkRoot(h, t, others)
    ensures TwoTrees(h, s, ChunkLeaves(h, s, chunks), Depth(|chunks|), t, ChunkLeaves(h, t, others), Depth(|others|),
      seen)
    ensures forall x :: x in LeafInputs(s, chunks) || x in LeafInputs(t, others) ==> x in seen
  {
    hide SameKind, LeafInputs, Hashes, NodeInputs, Root, Pow2, Depth, ChunkLeaves;
  }

  lemma FirstLeaf(h: HashFn, s: Scheme, chunks: seq<Bytes>)
    requires Separated(s)
    ensures Pow2(Depth(|chunks|)) > 0
    ensures var leaf := LeafInputs(s, chunks)[0];
      && (HasTag(s, leaf, s.leafDomain) || HasTag(s, leaf, s.emptyDomain))
      && leaf in LeafInputs(s, chunks) && Level(h, s, ChunkLeaves(h, s, chunks), 0)[0] == h(leaf)
  {
    hide HasTag, Pow2, Depth, LeafInputs;
    LeafTag(s, chunks, 0);
  }

  /** A leaf of one tree is never an inner node of the other, so neither tree is deeper. */
  lemma NotDeeper(h: HashFn, s: Scheme, chunks: seq<Bytes>, t: Scheme, others: seq<Bytes>, seen: set<Bytes>)
    requires SameKind(s, t) && CollisionFree(h, seen)
    requires TreeInputs(h, s, chunks) <= seen && TreeInputs(h, t, others) <= seen
    requires ChunkRoot(h, s, chunks) == ChunkRoot(h, t, others)
    ensures Depth(|others|) <= Depth(|chunks|)
  {
    hide TwoTrees, TreeInputs, ChunkRoot, LeafInputs, ChunkLeaves, Level, HasTag, Pow2, Depth, CollisionFree;
    var d, e := Depth(|chunks|), Depth(|others|);
    var a, b := ChunkLeaves(h, s, chunks), ChunkLeaves(h, t, others);
    TreesOf(h, s, chunks, t, others, seen);
    FirstLeaf(h, s, chunks);
    if d < e {
      LevelsAgree(h, s, a, d, t, b, e, d, seen);
      LevelSizes(h, s, a, d, t, b, e, d, seen);
      LeafIsNotNode(h, s, a, d, t, b, e, LeafInputs(s, chunks)[0], e - d, 0, seen);
    }
  }

  lemma LeafInputsBind(s: Scheme, chunks: seq<Bytes>, t: Scheme, others: seq<Bytes>)
    requires SameKind(s, t) && |chunks| <= 0x8000_0000 && |others| <= 0x8000_0000
    requires LeafInputs(s, chunks) == LeafInputs(t, others)
    ensures s == t && chunks == others
  {
    var x, y := LeafInputs(s, chunks), LeafInputs(t, others);
    assert |chunks| <= |x| && |others| <= |x| && |x| > 0;
    hide LeafInput, EmptyInput;
    var i := Min(|chunks|, |others|);
    assert i < |x| ==> x[i] == y[i];
    if i < |x| {
      LeafTag(s, chunks, i);
      LeafTag(t, others, i);
    }
    forall i | 0 <= i < |x| ensures s == t && (i < |chunks| ==> chunks[i] == others[i]) {
      assert x[i] == y[i];
      if i < |chunks| {
        LeafInputBinds(s, t, i, i, chunks[i], others[i]);
      } else {
        EmptyInputBinds(s, t, i, i);
      }
    }
    assert s == t by { assert x[0] == y[0]; }
  }

  lemma SameLeaves(h: HashFn, s: Scheme, chunks: seq<Bytes>, t: Scheme, others: seq<Bytes>, seen: set<Bytes>)
    requires SameKind(s, t) && CollisionFree(h, seen)
    requires TreeInputs(h, s, chunks) <= seen && TreeInputs(h, t, others) <= seen
    requires ChunkRoot(h, s, chunks) == ChunkRoot(h, t, others) && Depth(|chunks|) == Depth(|others|)
    ensures LeafInputs(s, chunks) == LeafInputs(t, others)
  {
    hide TwoTrees, TreeInputs, ChunkRoot, LeafInputs, Pow2, Depth;
    var d := Depth(|chunks|);
    var a, b := ChunkLeaves(h, s, chunks), ChunkLeaves(h, t, others);
    TreesOf(h, s, chunks, t, others, seen);
    LevelsAgree(h, s, a, d, t, b, d, d, seen);
    var x, y := LeafInputs(s, chunks), LeafInputs(t, others);
    assert a == b;
    forall i | 0 <= i < |x| ensures x[i] == y[i] {
      assert x[i] in seen && y[i] in seen && a[i] == h(x[i]) && b[i] == h(y[i]);
    }
  }

  /** Equal roots over any two chunk lists, of any depths and padding, mean equal subjects and
      equal chunk lists. */
  lemma ChunkRootBinds(h: HashFn, s: Scheme, chunks: seq<Bytes>, t: Scheme, others: seq<Bytes>)
    requires SameKind(s, t) && |chunks| <= 0x8000_0000 && |others| <= 0x8000_0000
    requires CollisionFree(h, TreeInputs(h, s, chunks) + TreeInputs(h, t, others))
    requires ChunkRoot(h, s, chunks) == ChunkRoot(h, t, others)
    ensures s == t && chunks == others
  {
    var seen := TreeInputs(h, s, chunks) + TreeInputs(h, t, others);
    NotDeeper(h, s, chunks, t, others, seen);
    NotDeeper(h, t, others, s, chunks, seen);
    SameLeaves(h, s, chunks, t, others, seen);
    LeafInputsBind(s, chunks, t, others);
  }

  // ---------- chunks of a byte string ----------

  function ChunkCount(length: nat, size: nat): nat
    requires size > 0
  {
    (length + size - 1) / size
  }

  /** A byte string cut into pieces of `size` bytes, the last one possibly shorter. */
  function Chunks(bytes: Bytes, size: nat): seq<Bytes>
    requires size > 0
    decreases |bytes|
  {
    if bytes == [] then [] else [bytes[..Min(size, |bytes|)]] + Chunks(bytes[Min(size, |bytes|)..], size)
  }

  function Join(chunks: seq<Bytes>): Bytes {
    if chunks == [] then [] else chunks[0] + Join(chunks[1..])
  }

  lemma {:induction false} JoinOfChunks(bytes: Bytes, size: nat)
    requires size > 0
    ensures Join(Chunks(bytes, size)) == bytes
    decreases |bytes|
  {
    if bytes != [] {
      var n := Min(size, |bytes|);
      JoinOfChunks(bytes[n..], size);
      assert Chunks(bytes, size)[1..] == Chunks(bytes[n..], size);
      assert bytes == bytes[..n] + bytes[n..];
    }
  }

  lemma CountStep(length: nat, size: nat)
    requires 0 < size && 0 < length
    ensures ChunkCount(length, size) == 1 + ChunkCount(if length < size then 0 else length - size, size)
    ensures ChunkCount(0, size) == 0
  {
    DivMul(0, size, size - 1);
    if length >= size {
      var q, r := (length - 1) / size, (length - 1) % size;
      assert length - 1 == q * size + r;
      DivMul(q, size, r);
      assert length + size - 1 == (q + 1) * size + r;
      DivMul(q + 1, size, r);
    } else {
      DivMul(1, size, length - 1);
    }
  }

  lemma {:induction false} ChunksCount(bytes: Bytes, size: nat)
    requires size > 0
    ensures |Chunks(bytes, size)| == ChunkCount(|bytes|, size)
    decreases |bytes|
  {
    if bytes == [] {
      DivMul(0, size, size - 1);
    } else {
      CountStep(|bytes|, size);
      ChunksCount(bytes[Min(size, |bytes|)..], size);
    }
  }

  /** Chunk i is the slice that index arithmetic gives: from i * size to the lesser of
      (i + 1) * size and the end. */
  lemma {:induction false} ChunkAt(bytes: Bytes, size: nat, i: nat)
    requires size > 0 && i < |Chunks(bytes, size)|
    ensures 0 <= i * size < |bytes|
    ensures Chunks(bytes, size)[i] == bytes[i * size..Min(i * size + size, |bytes|)]
    decreases |bytes|
  {
    if i > 0 {
      var m := (i - 1) * size;
      assert i * size == m + size;
      ChunkAt(bytes[Min(size, |bytes|)..], size, i - 1);
      assert |bytes| > size;
      hide *;
      SliceShift(bytes, size, m, Min(m + size, |bytes| - size));
    }
  }

  predicate RightSizes(chunks: seq<Bytes>, length: nat, size: nat)
    requires size > 0
  {
    |chunks| == ChunkCount(length, size) &&
    forall i :: 0 <= i < |chunks| ==> |chunks[i]| == Min(size, length - i * size)
  }

  /** Chunks of the right sizes are exactly the chunks of what they join to. */
  lemma {:induction false} ChunksOfJoin(chunks: seq<Bytes>, length: nat, size: nat)
    requires size > 0 && RightSizes(chunks, length, size)
    ensures |Join(chunks)| == length && Chunks(Join(chunks), size) == chunks
    decreases length
  {
    if length == 0 {
      DivMul(0, size, size - 1);
    } else {
      CountStep(length, size);
      var rest := if length < size then 0 else length - size;
      forall i | 0 <= i < |chunks[1..]| ensures |chunks[1..][i]| == Min(size, rest - i * size) {
        assert (i + 1) * size == i * size + size;
      }
      ChunksOfJoin(chunks[1..], rest, size);
      assert |chunks[0]| == Min(size, length - 0 * size);
      assert Join(chunks)[..|chunks[0]|] == chunks[0] && Join(chunks)[|chunks[0]|..] == Join(chunks[1..]);
      assert chunks == [chunks[0]] + chunks[1..];
    }
  }

  lemma ChunksHaveRightSizes(bytes: Bytes, size: nat)
    requires size > 0
    ensures RightSizes(Chunks(bytes, size), |bytes|, size)
    ensures forall c :: c in Chunks(bytes, size) ==> 0 < |c| <= size
  {
    ChunksCount(bytes, size);
    forall i | 0 <= i < |Chunks(bytes, size)|
      ensures |Chunks(bytes, size)[i]| == Min(size, |bytes| - i * size) > 0
    {
      ChunkAt(bytes, size, i);
    }
  }

  lemma TwoChunks(bytes: Bytes, size: nat)
    requires 0 < size < |bytes| <= 2 * size
    ensures Chunks(bytes, size) == [bytes[..size], bytes[size..]]
  {
    var rest := bytes[size..];
    assert rest[..|rest|] == rest && rest[|rest|..] == [];
    assert Chunks([], size) == [];
    assert Chunks(rest, size) == [rest];
  }

  lemma ThreeChunks(bytes: Bytes, size: nat)
    requires 0 < size && 2 * size < |bytes| <= 3 * size
    ensures Chunks(bytes, size) == [bytes[..size], bytes[size..2 * size], bytes[2 * size..]]
  {
    TwoChunks(bytes[size..], size);
    assert bytes[size..][..size] == bytes[size..2 * size] && bytes[size..][size..] == bytes[2 * size..];
  }

  lemma CountBound(length: nat, size: nat, max: nat)
    requires size > 0 && length <= max * size
    ensures ChunkCount(length, size) <= max && (length > 0 <==> ChunkCount(length, size) > 0)
  {
    var n := length + size - 1;
    var q, r := n / size, n % size;
    assert n == q * size + r;
    MulLess(q, max + 1, size);
    if length == 0 { DivMul(0, size, size - 1); }
  }
}
