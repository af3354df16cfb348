# Commitments of the Amoeba upgrade governance: a verified model

Before the council lets the controller replace a program, it commits to the program's bytes, to the
proposal that carries them, to the observed account data and to the receipt of the whole operation.
Every commitment is a hash of a carefully laid out byte string or a root of a tree of such hashes. This
project models the code that builds, checks and reads these commitments and proves what they determine.

## What is proved

- **Artifact tree** (`MerkleTree`, `SiblingPaths`, `ArtifactTree`, `ArtifactClients`). Leaf, node and empty
  inputs are read back byte by byte: domain, index and length, left child, right child. The in-place
  reduction of the Rust controller and the list-building TypeScript clients compute one recursive tree.
  The root binds bytes and length across chunk counts, padding and depths. A proof verifier accepts
  exactly the honest proof of the honest chunk. If every index has been accepted against one root, with
  no honest builder assumed, the accepted chunks are an artifact with that root.
- **Observation frontier** (`ObservationFrontier`). Every run of the binary-counter accumulator keeps
  each set bit of the mask equal to the root of the block of leaves it counts, and finalizing gives the
  plain tree, whose nodes carry their level as byte 38. The root binds subject and raw bytes.
- **Verification bitmap** (`Bitmap`). A bitmap accepted with the full count is the complete bitmap.
- **Canonical JSON and receipt roots** (`JsonText`, `CanonicalJson`, `JsonReader`, `KeyOrder`, `ReceiptRoots`).
  A reader of JSON text (RFC 8259) and of UTF-8, written without the printer, reads what is printed and gets the
  value back with its keys in order. So the text determines the value up to key order, and the inventory roots
  bind whole ordered lists of records.
- **Donation drift** (`DonationDrift`, `ExternalRoots`, `DonationRoot`). An accepted derivation conserves
  lamports and every mint, and its entries are exactly the gains, in the order of the accounts with lamports
  before tokens. Equal donation roots are exactly equal lists of entries. Equal metadata roots are exactly equal
  identities, and between such inventories equal balance roots are exactly an empty drift.
- **Frozen history** (`FrozenHistory`). The one-pass scan accepts exactly the lists that satisfy a
  pairwise, order-free description, and Loader instructions have one owner. What that means for the bytes of
  every entry, and of the freeze, the upgrade and the unfreeze, is spelled out, and one accepted history is given.
- **Schema codec** (`ByteReader`, `SchemaCodec`, `CeremonyDigests`). The descriptor interpreter is a
  bijection on accepted records, for every schema with distinct names; the fixed-image digest hashes the
  record with zero bytes in the place of each excluded field and binds exactly the others.
- **Action codec and proposal digest** (`ActionCodec`). The decoder accepts exactly the canonical
  encodings of the eight actions, and those are exactly the 193-byte strings that satisfy a stated condition on
  their bytes. The digest is equal exactly for equal terms, whose 410 bytes are laid out.
- **Lifecycle** (`Lifecycle`). The state-by-state checks accept exactly the records whose milestones are
  recorded as a prefix that fits the state; the slot loop orders every pair of recorded slots; an accepted
  record's timeline and its state follow from its other fields.

## How to read the statements

**Hashing.** SHA-256 is a parameter `h`, any function from byte strings to 32 bytes. No injectivity is
assumed. A binding result is stated for `CollisionFree(h, inputs)`, where `inputs` is the finite set of
byte strings that the two computations themselves hash. Read backwards, it says that when two different
things have the same commitment, two different members of that explicit set collide; `RootBindsOrCollides`
and `AcceptedOrCollides` return the pair. (The statement
"or some collision exists" would be empty: every function to 32 bytes has collisions.)

**Errors.** A thrown error or an `Err` is `None` or `false`. Addresses and hashes are 32-byte values;
base58 and hexadecimal text of them, where it is hashed, is an arbitrary function of the value.

**Bits.** `n >> k` is `Shr(n, k)`, `n ^ 1` is `Sibling(n)`, and `2 ** k` or `1 << k` is `Pow2(k)`. The
places where the source needs 32-bit or 64-bit bounds carry them as explicit checks (`U32_LIMIT`,
`U64_LIMIT`, `Pow256`).

**Arrays.** `reduce` overwrites a real array, its truncation being the shrinking prefix `level[..len]`;
`padding_hash`, `appendNodeV1` and the bitmap functions also work on arrays. The two byte readers share
one class, `ByteReader.Reader`.

## What the proofs found

- **Key order.** `canonicalJson` sorts keys with `localeCompare`, which is not a total order on strings:
  canonically equivalent strings such as U+00E9 and U+0065 U+0301 compare equal. The stable sort then leaves
  such keys in the order in which the object lists them: array indices first, then names as they were
  written. "Equal up to key order gives equal text" therefore holds exactly for the values in which no object
  has two different tied names (`KeyOrder.KeyOrderIrrelevantIffNoTies`); `KeyOrder.CombiningAccentShows` is
  the concrete failing object. Most callers fix the set of keys first. `parseCanonicalTrustManifest`
  (receiptV3.ts:1644-1652) does not, and its use on the decoded ABI bytes (receiptV3.ts:1739) adds no key
  check, so such keys can reach the printer there. The other direction, that equal text means equal values,
  needs no condition.
- **Dead guards.** In `verify_chunk` the check `sibling_start + width <= padded` and the alignment and
  bound checks of `padding_hash` cannot fail when reached (`SiblingPaths.SiblingInRange`). The method
  evaluates them, and its verdict does not mention them.
- **Redundant checks.** The check in `validateState` that raw balance roots agree when no donation was
  derived follows from the derivation itself (`ExternalRoots.EmptyDriftEqualRoots`); the converse holds too
  (`ExternalRoots.EqualRootsEmptyDrift`). The hard-field check that the metadata roots agree decides all the
  identity checks of the derivation: what it leaves to decide is whether a balance drops
  (`ExternalRoots.BalancesAloneDecide`). The action decoder re-encodes what it has parsed and compares: beyond
  the policy checks that encoding performs, the comparison never rejects (`ActionCodec.EncodedIffLaidOut`,
  `ActionCodec.DecodedIffCanonical`).
- **Unpadded finalization.** `finalizeProgramDataObservationFrontierV1` looks at the subject digest only
  when it appends padding, so it does not reject every subject of the wrong length. A complete frontier is
  finalized exactly when the subject has 32 bytes or the chunk count is a power of two
  (`ObservationFrontier.FinalizeDefinedIff`); `ObservationFrontier.EmptySubjectIsFinalized` is a one-chunk
  frontier finalized under an empty subject. The whole-account function rejects such a subject at its first
  leaf.
- **Excluded optional keys.** The zero of an optional key is `null`, which the encoder rejects. A digest
  that excluded one would be undefined on every record (`SchemaCodec.DigestDefinedIff`, with
  `CeremonyDigests.OptionalKeyCannotBeExcluded` a concrete schema). None of the code's own digests does (`CeremonyDigests.OwnDigestsAreDefined`).
- **Chunk size.** Equal observation roots do not always mean equal chunk sizes. They are equal exactly for
  the same subject and bytes, with the same chunk size or with an account that fits in one chunk of either
  size (`ObservationFrontier.ObservationRootsEqualIff`); `ObservationFrontier.SizesShareARoot` is a 45-byte
  account with one root at 16,384 and at 32,768.
- **Redundant state.** The state field of an accepted proposal record is a function of its other fields,
  except that `Draft`, `BufferAdopted` and an unapproved `BufferVerified` share one shape.

## Model

| member | source | states |
|---|---|---|
| ByteStrings.FromLEOfLE | clients/ts/upgradeGovernance/artifactMerkleV1.ts:51-58 | a little-endian integer in range reads back as itself |
| ByteStrings.LEOfFromLE | clients/ts/upgradeGovernance/governanceV3.ts:412-415 | every byte string is the little-endian form of the integer read from it, and of no other in range |
| ByteStrings.LEAt | clients/ts/upgradeGovernance/artifactMerkleV1.ts:51-58 | digit i of the little-endian form is the i-th byte of the number: its quotient by 256^i, modulo 256 |
| ByteStrings.AsciiAt | clients/ts/upgradeGovernance/artifactMerkleV1.ts:3-14 | a character of a domain is hashed as the byte of its code |
| ByteStrings.CollisionIn | clients/ts/upgradeGovernance/artifactMerkleV1.ts:43-49 | where the collision assumption of a binding result fails, two different hashed inputs with one hash are returned |
| ByteReader.Reader.Take | clients/ts/upgradeGovernance/release1Ceremony.ts:827-833 | taking gives exactly the next bytes and leaves the rest; a truncated read fails and moves nothing |
| MerkleTree.ArtifactSchemeSeparated | clients/ts/upgradeGovernance/artifactMerkleV1.ts:3-14 | leaf, node and empty inputs of the artifact tree differ at byte 16 |
| MerkleTree.ObservationSchemeSeparated | clients/ts/upgradeGovernance/programDataObservationMerkleV1.ts:3-16 | leaf, node and empty inputs of the observation tree differ at byte 31, under any two subjects |
| MerkleTree.ArtifactLeafBytes | programs/governance_controller_v3/src/artifact.rs:41-47 | a leaf input is 32 bytes and the chunk: domain up to byte 24, index at 24 to 28, length at 28 to 32, then the chunk |
| MerkleTree.ArtifactEmptyBytes | clients/ts/upgradeGovernance/artifactMerkleV1.ts:150-162 | an empty input is 28 bytes: domain up to byte 24, then the index |
| MerkleTree.ArtifactNodeBytes | programs/governance_controller_v3/src/artifact.rs:60-62 | a node input is 87 bytes: domain up to byte 23, left child at 23 to 55, right child at 55 to 87 |
| MerkleTree.ObservationLeafBytes | clients/ts/upgradeGovernance/programDataObservationMerkleV1.ts:162-190 | an observation leaf input: domain up to byte 39, subject at 39 to 71, index at 71 to 75, length at 75 to 79, then the chunk |
| MerkleTree.ObservationEmptyBytes | clients/ts/upgradeGovernance/programDataObservationMerkleV1.ts:211-226 | an observation empty input is 75 bytes: domain, subject at 39 to 71, then the index |
| MerkleTree.ObservationNodeBytes | clients/ts/upgradeGovernance/programDataObservationMerkleV1.ts:203-208 | an observation node input is 103 bytes: domain up to byte 38, the level as byte 38, left child at 39 to 71, right child at 71 to 103 |
| MerkleTree.LevelsApart | clients/ts/upgradeGovernance/programDataObservationMerkleV1.ts:203-208 | nodes of two different levels from 1 to 10 never share an input, whatever their children and subjects |
| MerkleTree.LeafInputBinds | programs/governance_controller_v3/src/artifact.rs:41-47 | equal leaf inputs mean equal subject, index and chunk, lengths included |
| MerkleTree.EmptyInputBinds | clients/ts/upgradeGovernance/artifactMerkleV1.ts:150-162 | equal empty inputs mean equal index and subject |
| MerkleTree.NodeInputBinds | clients/ts/upgradeGovernance/artifactMerkleV1.ts:139-148 | equal node inputs mean equal children, in order |
| MerkleTree.LevelIsRoot | clients/ts/upgradeGovernance/artifactMerkleV1.ts:180-193 | entry i of the k-th reduced level is the recursive root of the i-th aligned block of 2^k leaves |
| MerkleTree.ChunkRootBinds | programs/governance_controller_v3/src/artifact.rs:127-145 | for any two chunk counts, padding amounts and depths, equal roots mean equal schemes and equal chunk lists |
| MerkleTree.JoinOfChunks | programs/governance_controller_v3/src/artifact.rs:130-134 | the chunks of a byte string join to it |
| MerkleTree.ChunksOfJoin | programs/governance_controller_v3/src/artifact.rs:95-99 | pieces of the exact per-index lengths are the chunks of what they join to, whose length is the claimed one |
| MerkleTree.ChunkAt | clients/ts/upgradeGovernance/artifactMerkleV1.ts:164-178 | chunk i is the slice from i times the size, clamped at the end |
| SiblingPaths.SiblingInRange | programs/governance_controller_v3/src/artifact.rs:108-116 | a sibling's leaves lie inside the padded tree on a boundary of their own width: the guards in the loop never fail |
| SiblingPaths.HonestAccepted | programs/governance_controller_v3/src/artifact.rs:105-124 | the sibling path of any chunk of any chunk list passes the climb and every padding check |
| SiblingPaths.AcceptedIsHonest | programs/governance_controller_v3/src/artifact.rs:105-124 | a chunk and proof accepted against the root of a chunk list are that list's chunk and its own path |
| SiblingPaths.SharedNode | programs/governance_controller_v3/src/artifact.rs:107-123 | two accepted paths that meet in a node agree on its hash |
| SiblingPaths.PathsAreTree | programs/governance_controller_v3/src/artifact.rs:107-123 | when all indices are accepted, every hash on every path is the node of the tree over the accepted chunks |
| SiblingPaths.AllVerifiedIsRoot | programs/governance_controller_v3/src/artifact.rs:85-125 | when all indices are accepted against one root, it is the root of the accepted chunks |
| ArtifactTree.Geometry | programs/governance_controller_v3/src/artifact.rs:18-34 | an admitted length has 1 to 128 chunks and depth at most 7; a Release 1 length at most 96 |
| ArtifactTree.JoinNeighbours | programs/governance_controller_v3/src/artifact.rs:60-63 | the inner loop turns the prefix in place into the list of pair hashes, reading each slot before it is overwritten |
| ArtifactTree.Reduce | programs/governance_controller_v3/src/artifact.rs:54-67 | in-place reduction returns the recursive root of the original contents, and fails exactly off powers of two |
| ArtifactTree.PaddingHash | programs/governance_controller_v3/src/artifact.rs:69-80 | the canonical padding subtree of an aligned in-range run of empty leaves, else an error |
| ArtifactTree.VerifyChunk | programs/governance_controller_v3/src/artifact.rs:82-125 | accepts exactly when length, index, chunk size, depth, padding siblings and the climbed root are right |
| ArtifactTree.Leaves | programs/governance_controller_v3/src/artifact.rs:127-139 | the leaf hashes of all chunks followed by the index-separated empty hashes, else an error outside 1 to 2,097,152 bytes |
| ArtifactTree.MerkleRoot | programs/governance_controller_v3/src/artifact.rs:141-145 | the recursive root over the artifact's chunks |
| ArtifactTree.RootDefinedIff | programs/governance_controller_v3/src/artifact.rs:127-145 | there is a root exactly for artifacts of 1 to 2,097,152 bytes |
| ArtifactTree.TwoChunkRoot | programs/governance_controller_v3/src/artifact.rs:36-67 | the root of any artifact of two chunks, with its three hashed strings written out |
| ArtifactTree.ThreeChunkRoot | programs/governance_controller_v3/src/artifact.rs:36-67 | the root of any artifact of three chunks, padded by the empty leaf of index 3, with its hashed strings written out |
| ArtifactTree.NextLevel | programs/governance_controller_v3/src/artifact.rs:159-162 | the list of pair hashes of a level |
| ArtifactTree.MerkleProof | programs/governance_controller_v3/src/artifact.rs:147-166 | the siblings of the path of chunk `index`, lowest first; an error for an index past the chunks |
| ArtifactTree.RootBindsArtifact | programs/governance_controller_v3/src/artifact.rs:36-67 | two admitted artifacts of any two lengths with one root are identical |
| ArtifactTree.RootBindsOrCollides | programs/governance_controller_v3/src/artifact.rs:36-67 | equal roots of two artifacts: they are identical, or two different inputs of their trees with one hash are returned |
| ArtifactTree.AcceptedOrCollides | programs/governance_controller_v3/src/artifact.rs:82-145 | every index accepted against an artifact's root: the chunks are that artifact, or a colliding pair of hashed inputs is returned |
| ArtifactTree.VerifyChunkComplete | programs/governance_controller_v3/src/artifact.rs:85-166 | every admitted artifact and index: the verifier accepts the builder's proof |
| ArtifactTree.VerifyChunkSound | programs/governance_controller_v3/src/artifact.rs:85-166 | acceptance against an artifact's root forces the chunk's bytes and the proof |
| ArtifactTree.AcceptedChunksAreArtifact | programs/governance_controller_v3/src/artifact.rs:85-145 | one accepted proof for every index makes the chunks an artifact of exactly the claimed length with that root |
| MerkleTree.NextPowerOfTwo | clients/ts/upgradeGovernance/artifactMerkleV1.ts:68-77 | doubling from one stops at the least power of two at or above a positive value, and any other value is an error |
| ArtifactClients.ReduceList | clients/ts/upgradeGovernance/artifactMerkleV1.ts:180-193 | list-building reduction gives the same recursive root as the in-place one |
| ArtifactClients.InitialMerkleLevel | clients/ts/upgradeGovernance/artifactMerkleV1.ts:164-178 | the Release 1 leaves are the controller's leaves, up to 1,572,864 bytes |
| ArtifactClients.ArtifactLevelV3 | clients/ts/upgradeGovernance/governanceV3.ts:1171-1180 | the V3 client's leaves are the controller's leaves |
| ArtifactClients.ArtifactMerkleRootRelease1 | clients/ts/upgradeGovernance/artifactMerkleV1.ts:195-200 | the Release 1 root is the recursive root of the artifact's chunks |
| ArtifactClients.ArtifactMerkleRootV3 | clients/ts/upgradeGovernance/governanceV3.ts:1181-1192 | the V3 client's root is the recursive root of the artifact's chunks |
| ArtifactClients.ArtifactMerkleProofRelease1 | clients/ts/upgradeGovernance/artifactMerkleV1.ts:202-225 | the Release 1 proof is the controller's proof |
| ArtifactClients.ArtifactMerkleProofV3 | clients/ts/upgradeGovernance/governanceV3.ts:1193-1203 | the V3 client's proof is the controller's proof |
| ArtifactClients.AllRoots | programs/governance_controller_v3/src/artifact.rs:1-10 | the three implementations agree on every artifact up to 1,572,864 bytes; above it Release 1 refuses and the other two agree |
| ArtifactClients.ArtifactPaddingSubtreeHash | clients/ts/upgradeGovernance/artifactMerkleV1.ts:316-337 | the canonical padding subtree, reduced as a list, on exactly the aligned in-range runs |
| ArtifactClients.IsCanonicalPaddingSibling | clients/ts/upgradeGovernance/artifactMerkleV1.ts:283-314 | at any node and level: false outside the depth or the padded tree, true over a real chunk, else whether the sibling is the canonical padding subtree, an error past 128 leaves |
| ArtifactClients.PaddingOnPath | clients/ts/upgradeGovernance/artifactMerkleV1.ts:294-314 | on a real chunk's path the range checks never fail, and what remains is the controller's padding check |
| ArtifactClients.VerifyArtifactChunkProof | clients/ts/upgradeGovernance/artifactMerkleV1.ts:227-281 | accepts exactly what the controller's verifier accepts, among 32-byte hashes and Release 1 lengths |
| ObservationFrontier.ProgramDataObservationGeometry | clients/ts/upgradeGovernance/programDataObservationMerkleV1.ts:126-153 | the chunk count, padded count and depth of an admitted account, and an error exactly outside the bounds |
| ObservationFrontier.GeometryBounds | clients/ts/upgradeGovernance/programDataObservationMerkleV1.ts:136-151 | an admitted account has at least one and at most 640 chunks, padded to at most 1,024 leaves in depth 10 |
| ObservationFrontier.AppendNodeV1 | clients/ts/upgradeGovernance/programDataObservationMerkleV1.ts:269-290 | the carry loop computes the recursive carry-merge; the mask ends as the count plus one and the level stays within the slots |
| ObservationFrontier.AppendRepresents | clients/ts/upgradeGovernance/programDataObservationMerkleV1.ts:269-290 | one append extends the represented leaf list by one |
| ObservationFrontier.EveryRun | clients/ts/upgradeGovernance/programDataObservationMerkleV1.ts:228-290 | any append sequence from the empty frontier succeeds exactly up to 1,024 nodes, with mask and counter equal to its length, and stands for exactly those nodes in order |
| ObservationFrontier.SlotsAreBlockRoots | clients/ts/upgradeGovernance/programDataObservationMerkleV1.ts:239-267 | each set bit k holds the root of the last complete aligned block of 2^k leaves, each unset bit holds zero |
| ObservationFrontier.AppendKeepsValid | clients/ts/upgradeGovernance/programDataObservationMerkleV1.ts:239-290 | an accepted append to any valid frontier, whatever its slots hold, gives a valid frontier with one more leaf |
| ObservationFrontier.FinalizeFrontierV1 | clients/ts/upgradeGovernance/programDataObservationMerkleV1.ts:327-360 | pads a complete frontier and returns the top slot; the checks after the loop never fail |
| ObservationFrontier.PaddingKeepsValid | clients/ts/upgradeGovernance/programDataObservationMerkleV1.ts:340-350 | padding any valid frontier up to the capacity succeeds and keeps it valid |
| ObservationFrontier.FinalizeDefinedIff | clients/ts/upgradeGovernance/programDataObservationMerkleV1.ts:327-360 | finalizing gives a root exactly for an admitted length and a complete valid frontier whose subject has 32 bytes or whose chunk count is a power of two |
| ObservationFrontier.EmptySubjectIsFinalized | clients/ts/upgradeGovernance/programDataObservationMerkleV1.ts:327-360 | a one-chunk frontier is finalized under an empty subject, to its one leaf |
| ObservationFrontier.FinalizeIsRoot | clients/ts/upgradeGovernance/programDataObservationMerkleV1.ts:327-360 | finalizing a frontier that stands for all chunk leaves gives the plain tree's root |
| ObservationFrontier.AppendChunkRepresents | clients/ts/upgradeGovernance/programDataObservationMerkleV1.ts:292-325 | appending the next chunk in order succeeds and extends the represented leaves by that chunk's leaf |
| ObservationFrontier.AppendChunkDefinedIff | clients/ts/upgradeGovernance/programDataObservationMerkleV1.ts:292-325 | a chunk is accepted exactly for an admitted length and chunk size, a valid frontier that stands at its index, its exact length and a 32-byte subject; then its leaf is appended |
| ObservationFrontier.ProgramDataObservationMerkleRoot | clients/ts/upgradeGovernance/programDataObservationMerkleV1.ts:362-388 | the incremental form returns the root of the plain padded tree, for every raw byte string and chunk size |
| ObservationFrontier.TwoChunkRoot | clients/ts/upgradeGovernance/programDataObservationMerkleV1.ts:362-388 | the root of any account of two chunks: one node of level 1, its hashed strings written out |
| ObservationFrontier.ThreeChunkRoot | clients/ts/upgradeGovernance/programDataObservationMerkleV1.ts:362-388 | the root of any account of three chunks: two nodes of level 1 under one of level 2, its hashed strings written out |
| ObservationFrontier.ObservationRootBinds | clients/ts/upgradeGovernance/programDataObservationMerkleV1.ts:126-226 | equal roots under any subjects, lengths and chunk sizes force equal subject and raw bytes, and the chunk size unless one chunk holds all |
| ObservationFrontier.OneChunkRootsAgree | clients/ts/upgradeGovernance/programDataObservationMerkleV1.ts:362-388 | an account that fits in one chunk of two sizes has one root under both |
| ObservationFrontier.ObservationRootsEqualIff | clients/ts/upgradeGovernance/programDataObservationMerkleV1.ts:126-226 | roots are equal exactly for equal subject and bytes, with equal chunk sizes or an account within one chunk of either |
| ObservationFrontier.SizesShareARoot | clients/ts/upgradeGovernance/programDataObservationMerkleV1.ts:362-388 | a 45-byte account has one root at chunk sizes 16,384 and 32,768 |
| Bitmap.ValidateVerificationBitmap | clients/ts/upgradeGovernance/artifactMerkleV1.ts:339-376 | accepts exactly when the stored count is the number of set bits and all lie below the bit count |
| Bitmap.CompleteVerificationBitmap | clients/ts/upgradeGovernance/artifactMerkleV1.ts:378-391 | the bitmap whose set bits are exactly those below the bit count |
| Bitmap.CompleteBytes | clients/ts/upgradeGovernance/artifactMerkleV1.ts:378-391 | the complete bitmap byte by byte: 255 for eight bits below the count, then the low bits of one byte, then zero |
| Bitmap.CountDecidesCompleteness | clients/ts/upgradeGovernance/artifactMerkleV1.ts:339-391 | with the stored count equal to the bit count, the accepted bitmap is the complete one, and that one is accepted |
| JsonReader.QuoteReads | clients/ts/upgradeGovernance/receiptV3.ts:526-527 | a string reader with the escapes of RFC 8259 reads any quoted string back, lone surrogates included, and leaves what follows |
| JsonReader.IntegerReads | clients/ts/upgradeGovernance/receiptV3.ts:528-531 | a reader of signed integers without leading zeros reads any printed integer back and leaves what follows |
| JsonReader.Utf8Reads | clients/ts/upgradeGovernance/receiptV3.ts:540-544 | a UTF-8 decoder that rejects overlong forms and surrogates decodes the bytes of well-formed text to it |
| JsonReader.Utf8Unique | clients/ts/upgradeGovernance/receiptV3.ts:540-544 | well-formed texts with equal UTF-8 bytes are equal |
| CanonicalJson.SafeIntegers | clients/ts/upgradeGovernance/receiptV3.ts:528-531 | the accepted integers are those strictly between -2^53 and 2^53 |
| CanonicalJson.SortMembers | clients/ts/upgradeGovernance/receiptV3.ts:534-537 | sorting keeps exactly the object's entries |
| JsonReader.PrintReads | clients/ts/upgradeGovernance/receiptV3.ts:525-538 | a reader of JSON values, written without the printer, reads any printed value, before anything that can follow it, as the value with its keys in printed order |
| JsonReader.CanonicalTextReads | clients/ts/upgradeGovernance/receiptV3.ts:525-538 | canonical text is the JSON text of the value: it parses, and to the value up to key order |
| JsonReader.CanonicalBytesRead | clients/ts/upgradeGovernance/receiptV3.ts:525-544 | the bytes that are hashed decode as UTF-8 to that text, and parse to the value up to key order |
| JsonReader.PrintUnique | clients/ts/upgradeGovernance/receiptV3.ts:525-538 | no printed value is the start of another: equal texts split the same way, into values that differ at most in key order |
| JsonReader.TextDeterminesMeaning | clients/ts/upgradeGovernance/receiptV3.ts:525-538 | values with equal text are equal up to key order |
| JsonReader.PrintWellFormed | clients/ts/upgradeGovernance/receiptV3.ts:525-538 | canonical text pairs all its surrogates, so its UTF-8 bytes determine it |
| KeyOrder.PrintedKeysAscend | clients/ts/upgradeGovernance/receiptV3.ts:534-537 | what is read from canonical text has its keys in the order of the comparator, at every level |
| KeyOrder.SortStable | clients/ts/upgradeGovernance/receiptV3.ts:536-536 | entries with tied keys keep their order |
| KeyOrder.RankOfDecimal | clients/ts/upgradeGovernance/receiptV3.ts:534-537 | the decimal forms of 0 to 2^32 - 2 are array indices, ranked by value |
| KeyOrder.RankOfName | clients/ts/upgradeGovernance/receiptV3.ts:534-537 | every other key is a name, ranked behind all indices |
| KeyOrder.ListedOrder | clients/ts/upgradeGovernance/receiptV3.ts:534-537 | an object lists only smaller indices before an index |
| KeyOrder.MeaningDeterminesText | clients/ts/upgradeGovernance/receiptV3.ts:534-537 | values equal up to key order, without tied keys, print the same text |
| KeyOrder.PrintByRank | clients/ts/upgradeGovernance/receiptV3.ts:534-537 | on an object as it lists its keys, the stable sort is the sort that breaks ties by array index |
| KeyOrder.KeyOrderIrrelevantIffNoTies | clients/ts/upgradeGovernance/receiptV3.ts:534-537 | among objects as they list their keys, the text is independent of key order exactly for values without two different tied names in one object |
| KeyOrder.CanonicalIffEqual | clients/ts/upgradeGovernance/receiptV3.ts:525-538 | without tied names, equal canonical text exactly when equal up to key order |
| KeyOrder.CombiningAccentShows | clients/ts/upgradeGovernance/receiptV3.ts:536-536 | a comparator that ties U+00E9 and U+0065 U+0301 prints one object, listed in either order, in two ways |
| ReceiptRoots.OrderedLeafRootV3 | clients/ts/upgradeGovernance/receiptV3.ts:700-708 | the hash of domain, 32-bit count and leaves in order |
| ReceiptRoots.RootInputUnique | clients/ts/upgradeGovernance/receiptV3.ts:700-708 | equal root inputs mean equally many and equal leaves |
| ReceiptRoots.RecordRootBinds | clients/ts/upgradeGovernance/receiptV3.ts:700-727 | equal record roots mean equally many records, each equal up to key order at its index |
| ReceiptRoots.RecordRootInBytes | clients/ts/upgradeGovernance/receiptV3.ts:700-727 | a record root hashes domain, count and leaves; leaf i hashes its domain and a text that reads as record i with `index` i, counted from 0 |
| ReceiptRoots.HistoryInventoryBinds | clients/ts/upgradeGovernance/receiptV3.ts:819-827 | the inventory root binds the whole ordered transaction list up to key order |
| ReceiptRoots.HistoryRootInBytes | clients/ts/upgradeGovernance/receiptV3.ts:819-827 | the inventory root with its two domains: leaf i reads as an object of `index` i and transaction i |
| DonationDrift.ParseU64Injective | clients/ts/upgradeGovernance/receiptV3.ts:573-578 | two texts that parse to one integer are the same text |
| DonationDrift.LexLessIff | clients/ts/upgradeGovernance/receiptV3.ts:614-616 | the byte comparison of keys: the smaller is a proper start of the other or has the smaller byte at the first difference |
| DonationDrift.TokenLayout | clients/ts/upgradeGovernance/receiptV3.ts:677-692 | a token observation is valid exactly when its fields are read from bytes 0, 32, 64 and 108 of its data and its image with zero bytes at 64 to 72 has the stated hash |
| DonationDrift.PlainObservation | clients/ts/upgradeGovernance/receiptV3.ts:662-676 | a token-free observation with inline data is valid exactly when its length, hashes and balance agree and all token fields are absent |
| DonationDrift.ValidateExternalObservationSet | clients/ts/upgradeGovernance/receiptV3.ts:638-698 | accepts exactly the finalized, strictly sorted, bounded inventories whose token images recompute |
| DonationDrift.InventoryBounds | clients/ts/upgradeGovernance/receiptV3.ts:638-698 | at most 4,096 accounts, 10,485,760 bytes each, 262,144 of them inline, 4,194,304 inline in all |
| DonationDrift.AccountsAscend | clients/ts/upgradeGovernance/receiptV3.ts:638-698 | of any two accounts of an accepted inventory the earlier has the smaller byte where their keys first differ |
| DonationDrift.CompareAccount | clients/ts/upgradeGovernance/receiptV3.ts:757-795 | succeeds exactly when identity is kept and no balance drops; at most two entries, each explained by the account, lamports before token |
| DonationDrift.DeriveExternalDonationDrift | clients/ts/upgradeGovernance/receiptV3.ts:746-798 | accepts exactly the comparable inventories without loss, and returns their drift, in the order of the accounts with lamports before token |
| DonationDrift.DriftConserves | clients/ts/upgradeGovernance/receiptV3.ts:757-797 | post total equals pre total plus the emitted deltas, for lamports and for each mint |
| DonationDrift.AcceptedDrift | clients/ts/upgradeGovernance/receiptV3.ts:746-798 | acceptance means the same accounts in order, no balance lower, and conservation |
| DonationDrift.DriftAccounts | clients/ts/upgradeGovernance/receiptV3.ts:757-797 | each account of a strictly sorted inventory gives at most one entry per asset kind |
| DonationDrift.EntryExplained | clients/ts/upgradeGovernance/receiptV3.ts:757-797 | every emitted entry names one listed account, quotes its two amounts and states the positive gain between them |
| DonationDrift.DriftInOrder | clients/ts/upgradeGovernance/receiptV3.ts:757-797 | an earlier entry is about an earlier account, or about the same one and then it is lamports and the later one token |
| DonationDrift.GainListed | clients/ts/upgradeGovernance/receiptV3.ts:757-797 | every account that gained lamports or tokens has an entry of that kind |
| ExternalRoots.ImageAndAmount | clients/ts/upgradeGovernance/receiptV3.ts:684-691 | the zeroed-amount image and the amount recover the token account data |
| ExternalRoots.BalanceRootInBytes | clients/ts/upgradeGovernance/receiptV3.ts:710-726 | the raw-balance root: leaf i reads as exactly index, account, lamports, token amount or null, and data hash of account i |
| ExternalRoots.MetadataRootInBytes | clients/ts/upgradeGovernance/receiptV3.ts:727-744 | the metadata root: leaf i reads as exactly the eleven identity fields of account i |
| ExternalRoots.EmptyDriftEqualRoots | clients/ts/upgradeGovernance/receiptV3.ts:1225-1225 | no derived donation means equal raw balance roots |
| ExternalRoots.EqualRootsEmptyDrift | clients/ts/upgradeGovernance/receiptV3.ts:710-744 | equal raw balance roots mean no derived donation |
| ExternalRoots.MetadataRootsEqualIff | clients/ts/upgradeGovernance/receiptV3.ts:710-744 | metadata roots are equal exactly for equally many accounts of pairwise the same identity, data of token-free accounts included |
| ExternalRoots.BalancesAloneDecide | clients/ts/upgradeGovernance/receiptV3.ts:1201-1222 | between valid inventories with equal metadata roots the derivation accepts exactly when no balance drops |
| DonationRoot.DonationRootInBytes | clients/ts/upgradeGovernance/receiptV3.ts:1166-1168 | the root is zero for no donation; else it hashes its domain and a text that reads as an array whose item k has exactly the nine fields of entry k |
| DonationRoot.DonationRootsEqualIff | clients/ts/upgradeGovernance/receiptV3.ts:1224-1224 | with equal counts, donation roots are equal exactly for equal lists of entries, order included |
| DonationRoot.DerivedKinds | clients/ts/upgradeGovernance/receiptV3.ts:757-797 | every derived entry is of one of the two kinds that have a text |
| FrozenHistory.CheckPrefix | clients/ts/upgradeGovernance/receiptV3.ts:1583-1597 | accepts exactly when compute-budget kinds are pairwise different and canonical and a nonce advance stands first |
| FrozenHistory.CheckGroups | clients/ts/upgradeGovernance/receiptV3.ts:1560-1615 | accepts exactly the pairwise ordered, bounded groups, and returns their instructions in order |
| FrozenHistory.ValidateTransaction | clients/ts/upgradeGovernance/receiptV3.ts:1523-1637 | the checks of one transaction, decided exactly |
| FrozenHistory.CountOne | clients/ts/upgradeGovernance/receiptV3.ts:1618-1641 | a counter of one is exactly one event of that tag in the whole list |
| FrozenHistory.ValidateHistory | clients/ts/upgradeGovernance/receiptV3.ts:1499-1642 | accepts exactly when any two entries are in strict (slot, index) order with different signatures and one block hash per slot, every entry is admitted, and each of the three events occurs exactly once |
| FrozenHistory.LoaderIsOwned | clients/ts/upgradeGovernance/receiptV3.ts:1616-1637 | every successful transaction that reaches the Loader carries tag 30 or is the one upgrade, at the upgrade slot, in the verified envelope, with the verified Loader instruction as its only inner one |
| FrozenHistory.EventsAtTheirSlots | clients/ts/upgradeGovernance/receiptV3.ts:1617-1637 | the three events stand at their recorded slots, in the order of those slots |
| FrozenHistory.FreezeInBytes | clients/ts/upgradeGovernance/receiptV3.ts:1617-1639 | exactly one successful transaction ends in an instruction with first byte 6 for an ordinary freeze, 14 for an emergency conversion; it stands at the freeze slot and passes the freeze checks |
| FrozenHistory.UpgradeInBytes | clients/ts/upgradeGovernance/receiptV3.ts:1617-1639 | exactly one has first byte 31; it stands at the upgrade slot, with the verified envelope and inner instruction |
| FrozenHistory.UnfreezeInBytes | clients/ts/upgradeGovernance/receiptV3.ts:1617-1639 | exactly one has first byte 35; it stands at the unfreeze slot and passes the unfreeze checks |
| FrozenHistory.SuccessInBytes | clients/ts/upgradeGovernance/receiptV3.ts:1573-1598 | every successful transaction: 1 to 64 instructions, the last one the controller's with tag 1 to 38 but not 26, before it only budget instructions of different kinds within 1,400,000 units and a price of 10,000,000, and a nonce advance in first place |
| FrozenHistory.EntryInNumbers | clients/ts/upgradeGovernance/receiptV3.ts:1530-1559 | every entry, failed ones included: slot in the frozen interval, 64-byte signature, error hash zero exactly on success, and the size bounds of its instructions |
| FrozenHistory.GroupInNumbers | clients/ts/upgradeGovernance/receiptV3.ts:1560-1615 | every inner group: a real top-level instruction, strictly increasing, 1 to 64 instructions within bounds, only Loader and system program on success |
| FrozenHistory.LimitBounds | clients/ts/upgradeGovernance/receiptV3.ts:1358-1371 | a compute-unit limit is admitted exactly from 1 to 1,400,000 |
| FrozenHistory.PriceBounds | clients/ts/upgradeGovernance/receiptV3.ts:1358-1371 | a compute-unit price is admitted exactly up to 10,000,000 |
| FrozenHistory.OrdinaryHistoryIsAccepted | clients/ts/upgradeGovernance/receiptV3.ts:1499-1642 | a history of three transactions, one for each event, is accepted |
| SchemaCodec.FieldIff | clients/ts/upgradeGovernance/release1Ceremony.ts:794-851 | a value encodes to bytes exactly when those bytes, of the kind's width, decode to it |
| SchemaCodec.FieldBytes | clients/ts/upgradeGovernance/release1Ceremony.ts:794-813 | the bytes each of the nine kinds is written as, widths and byte order included |
| SchemaCodec.FieldAt | clients/ts/upgradeGovernance/release1Ceremony.ts:814-826 | field i of an encoding stands at the sum of the widths before it |
| SchemaCodec.DecodeOfEncode | clients/ts/upgradeGovernance/release1Ceremony.ts:814-861 | decoding an encoding recovers every named field and touches nothing else, for any schema |
| SchemaCodec.EncodeOfDecode | clients/ts/upgradeGovernance/release1Ceremony.ts:814-861 | with distinct names, what is decoded re-encodes to the same bytes |
| SchemaCodec.SchemaRoundTrip | clients/ts/upgradeGovernance/release1Ceremony.ts:814-861 | on records of the schema's shape, encoding and decoding are inverse in both directions |
| SchemaCodec.AcceptedReencodes | clients/ts/upgradeGovernance/release1Ceremony.ts:855-861 | any accepted bytes have the schema's shape and re-encode to themselves |
| SchemaCodec.CodecRoundTrip | clients/ts/upgradeGovernance/release1Ceremony.ts:1106-1114 | for any validator, an account serializes to exactly the bytes that deserialize to it |
| SchemaCodec.ReadField | clients/ts/upgradeGovernance/release1Ceremony.ts:834-851 | one read takes the kind's width of bytes and returns their decoding, else fails |
| SchemaCodec.ReadSchema | clients/ts/upgradeGovernance/release1Ceremony.ts:855-861 | the reading loop computes the decoding of the whole byte string, trailing bytes rejected |
| SchemaCodec.DigestFields | clients/ts/upgradeGovernance/release1Ceremony.ts:863-874 | hashes the domain and the encoding of the record with its excluded fields zeroed |
| SchemaCodec.ZeroBytes | clients/ts/upgradeGovernance/release1Ceremony.ts:876-888 | the zero of every kind except an optional key is written as zero bytes |
| SchemaCodec.DigestImage | clients/ts/upgradeGovernance/release1Ceremony.ts:863-888 | what is hashed: the domain, then zero bytes in the place of each excluded field and every other field as it is |
| SchemaCodec.DigestIgnoresExcluded | clients/ts/upgradeGovernance/release1Ceremony.ts:863-888 | edits to excluded fields change neither the digest nor whether there is one |
| SchemaCodec.DigestBindsTheRest | clients/ts/upgradeGovernance/release1Ceremony.ts:863-874 | equal digests fix every field that is not excluded |
| SchemaCodec.DigestDefinedIff | clients/ts/upgradeGovernance/release1Ceremony.ts:863-888 | a digest exists exactly when the kept fields encode and no excluded field is an optional key |
| CeremonyDigests.OwnDigestsAreDefined | clients/ts/upgradeGovernance/release1Ceremony.ts:1197-1207 | each digest of the code exists exactly when the kept fields encode |
| CeremonyDigests.OptionalKeyCannotBeExcluded | clients/ts/upgradeGovernance/release1Ceremony.ts:876-888 | a one-field schema whose optional key is excluded gives no record a digest |
| ActionCodec.HexOfUnhex | clients/ts/upgradeGovernance/governanceV3.ts:305-309 | a commit in lower-case hexadecimal reads back as itself |
| ActionCodec.HexText | clients/ts/upgradeGovernance/governanceV3.ts:489-489 | the text of byte i is two lower-case digits, the high half first |
| ActionCodec.ParseTiming | clients/ts/upgradeGovernance/governanceV3.ts:233-240 | a timing is recovered from its 24 bytes |
| ActionCodec.ParseOfBody | clients/ts/upgradeGovernance/governanceV3.ts:297-400 | each kind's body parses back to the action and to the padding after it |
| ActionCodec.DecodeIff | clients/ts/upgradeGovernance/governanceV3.ts:430-496 | data decodes to an action exactly when it is that action's encoding, for all eight kinds |
| ActionCodec.EncodingInjective | clients/ts/upgradeGovernance/governanceV3.ts:297-400 | different accepted actions have different encodings |
| ActionCodec.ActionLayout | clients/ts/upgradeGovernance/governanceV3.ts:297-400 | every encoding has 193 bytes with the fields of its kind at fixed places and zero bytes behind them |
| ActionCodec.ActionTags | clients/ts/upgradeGovernance/governanceV3.ts:297-400 | the first byte is the number of the kind, 0 to 7 |
| ActionCodec.EncodedIffLaidOut | clients/ts/upgradeGovernance/governanceV3.ts:297-400 | the encoding of an admitted action is the one string that lays it out |
| ActionCodec.DecodedIffCanonical | clients/ts/upgradeGovernance/governanceV3.ts:430-496 | data decodes exactly when it has 193 bytes, a known tag, zero padding, and at fixed places fields that are not zero and numbers within their bounds |
| ActionCodec.ReadAction | clients/ts/upgradeGovernance/governanceV3.ts:430-496 | the reader computes the decoding, with zero padding and canonical re-encoding required |
| ActionCodec.TermsBind | clients/ts/upgradeGovernance/governanceV3.ts:547-570 | equal digest inputs mean the same program, config, ids, timing, slots and action |
| ActionCodec.ProposalLayout | clients/ts/upgradeGovernance/governanceV3.ts:547-570 | a proposal digest hashes 410 bytes: domain, program, config, ids, timing, slots and action at fixed places |
| ActionCodec.DigestIffSameTerms | clients/ts/upgradeGovernance/governanceV3.ts:547-570 | proposal digests are equal exactly for the same program and terms; votes, bitmap and execution fields never enter |
| Lifecycle.CheckOrder | clients/ts/upgradeGovernance/release1.ts:1136-1158 | the running comparison accepts exactly when every two recorded slots are in order |
| Lifecycle.CheckVotes | clients/ts/upgradeGovernance/release1.ts:909-975 | turns away only unacceptable records; approvals, cancellation and the slots up to the queue are consistent in the rest |
| Lifecycle.ValidateLifecycle | clients/ts/upgradeGovernance/release1.ts:908-1158 | accepts exactly the records whose recorded milestones are the first p of nine for a p their state stands for, with votes and reasons consistent, every slot in its window and every two slots in order |
| Lifecycle.UpgradedTimeline | clients/ts/upgradeGovernance/release1.ts:908-1158 | a record whose upgrade ran: review start, approvals, review end, not-before, freeze, extension, upgrade and expiry in order |
| Lifecycle.CompletedTimeline | clients/ts/upgradeGovernance/release1.ts:1079-1158 | a completed record: verification, acceptance, unfreeze and end follow the upgrade in order, with both quorums |
| Lifecycle.ReasonByState | clients/ts/upgradeGovernance/release1.ts:1114-1134 | an accepted record has reason 1 when expired, 2 completed, 3 superseded, 4 retired, its own when cancelled, and an end slot exactly then |
| Lifecycle.QuorumIsThree | clients/ts/upgradeGovernance/release1.ts:909-975 | three approvals are a quorum of each vote, recorded exactly then, and no vote has more |
| Lifecycle.StateIsDetermined | clients/ts/upgradeGovernance/release1.ts:908-1134 | the state is recovered from slots, quorum counts and terminal reason, except among the early buffer states |
| Lifecycle.FrozenStateFromSlots | clients/ts/upgradeGovernance/release1.ts:1027-1134 | from the freeze on, which slots are recorded fixes the state |
| Lifecycle.EarlyStatesShareAShape | clients/ts/upgradeGovernance/release1.ts:977-1025 | a record accepted in one early buffer state without approvals is accepted in the others |
| Lifecycle.DraftIsAccepted | clients/ts/upgradeGovernance/release1.ts:977-983 | a record of the early shape exists, accepted as a draft and as an adopted buffer |
| Lifecycle.CompletedIsAccepted | clients/ts/upgradeGovernance/release1.ts:908-1158 | a completed record with an extension is accepted |

## Left out

- SHA-256, base58, base64, program-derived addresses: library code, used as parameters or 32-byte values.
- MerkleTree.ChunkRootBinds: assumes of the hash only that the inputs of the two trees do not collide, as do all binding members; a cryptographic argument that collisions cannot be found is not part of a functional model.
- KeyOrder.KeyOrderIrrelevantIffNoTies: `localeCompare` itself is any total preorder, so which names tie is not part of this model.
- JsonReader.TextDeterminesMeaning: values are what `JSON.parse` yields; an array with holes and an object such as a Date, which the printer would also print, are not modelled.
- FrozenHistory.ValidateTransaction: the field checks of the freeze and unfreeze instructions (receiptV3.ts:1396-1497) are parameters: equalities between decoded fields and the receipt.
- FrozenHistory.ValidateHistory: the same parameters; the query checks before the loop (receiptV3.ts:1501-1521), more equalities with the receipt, are not modelled.
- DonationDrift.ValidateExternalObservationSet: base64, base58 and hexadecimal transport and the exact key sets of the objects are not modelled; data, keys and hashes are bytes.
- DonationRoot.DonationRootsEqualIff: takes the text of a key as an arbitrary injective function.
- ExternalRoots.MetadataRootsEqualIff: takes the texts of keys and hashes as arbitrary injective functions.
- ArtifactTree.VerifyChunk: out-of-memory and the 32-bit machine word of the on-chain program are not modelled; the largest index arithmetic is below 2^22.
- CeremonyDigests.OwnDigestsAreDefined: says of a schema only that it contains the excluded fields with their kinds and has distinct names; the nine account schemas are not written out field by field.
- SchemaCodec.CodecRoundTrip: the account validators are an arbitrary predicate, since the round trip does not depend on what they check.
- ActionCodec.DecodeIff: the decoders of whole configuration and proposal accounts, which have no encoder beside them, are not modelled.
- Lifecycle.ValidateLifecycle: of `validateUpgradeProposalV2` only the timing checks (release1.ts:1494-1501) are included; capacity, rollback and council bindings are field equalities.
- The Rust processors and account state of the V1, V2 and V3 controllers: their transitions are not part of this model.
- `receiptV4.ts`, the trust-root, governance and preflight checks: long conjunctions of field equalities, settled by reading.
- The hand-written serializers of Release 1: mechanical; the schema codec covers the idea for every layout at once.
- Operator, command line, packet planning and instruction builders: orchestration and account lists.
- Performance, file input and output, benchmarks and vector generators.
