/** The one-pass scan of the frozen interval's transactions, against a declarative reading of what an
    accepted history is. */
module FrozenHistory {
  import opened ByteStrings
  import opened JsonText
  import opened DonationDrift

  const MAX_TRANSACTIONS := 4096
  const MAX_INSTRUCTIONS := 64
  const MAX_INSTRUCTION_ACCOUNTS := 128
  const MAX_INSTRUCTION_DATA := 16_384
  const MAX_COMPUTE_UNITS := 1_400_000
  const MAX_COMPUTE_PRICE := 10_000_000

  datatype Meta = Meta(pubkey: Key, isSigner: bool, isWritable: bool)
  datatype Instruction = Instruction(programId: Key, data: Bytes, accounts: seq<Meta>)
  datatype Group = Group(topLevelIndex: int, instructions: seq<Instruction>)
  datatype Status = Succeeded | Failed | UnknownStatus

  datatype Transaction = Transaction(
    slot: Text, blockHash: Digest, blockTimeUnix: Text, transactionIndex: int, signature: Bytes, status: Status,
    errorSha256: Digest, topLevel: seq<Instruction>, inner: seq<Group>)

  /** What the scan takes from the rest of the receipt: program ids, the three slots, the exact checks of a
      freeze and an unfreeze event, and the verified envelope and Loader instruction of the upgrade. */
  datatype Config = Config(
    controller: Key, computeBudget: Key, system: Key, loader: Key, recentBlockhashes: Key,
    freeze: nat, unfreeze: nat, upgrade: nat, ordinaryFreeze: bool,
    freezeEvent: Instruction -> bool, unfreezeEvent: seq<Instruction> -> bool,
    envelope: seq<Instruction>, innerCpis: seq<Instruction>)

  // ---------- one transaction ----------

  function SlotOf(tx: Transaction): nat {
    Value(tx.slot)
  }

  predicate ValidInstruction(i: Instruction) {
    |i.data| <= MAX_INSTRUCTION_DATA && |i.accounts| <= MAX_INSTRUCTION_ACCOUNTS
  }

  predicate AllValid(instructions: seq<Instruction>) {
    forall i :: 0 <= i < |instructions| ==> ValidInstruction(instructions[i])
  }

  predicate BasicOk(tx: Transaction) {
    && ParseU64(tx.slot).Some? && 0 <= tx.transactionIndex < U32_LIMIT && ParseU64(tx.blockTimeUnix).Some?
      && |tx.signature| == 64
    && (match tx.status
        case Succeeded => tx.errorSha256 == Zeros(32)
        case Failed => tx.errorSha256 != Zeros(32)
        case UnknownStatus => false)
    && 0 < |tx.topLevel| <= MAX_INSTRUCTIONS && AllValid(tx.topLevel)
  }

  predicate GroupOk(g: Group, topLevelCount: nat) {
    0 <= g.topLevelIndex < topLevelCount && 0 < |g.instructions| <= MAX_INSTRUCTIONS && AllValid(g.instructions)
  }

  /** Inner groups are well-formed, and strictly ordered by the instruction they belong to. */
  predicate GroupsOk(inner: seq<Group>, topLevelCount: nat) {
    && |inner| <= MAX_INSTRUCTIONS
    && (forall i :: 0 <= i < |inner| ==> GroupOk(inner[i], topLevelCount))
    && forall i, j :: 0 <= i < j < |inner| ==> inner[i].topLevelIndex < inner[j].topLevelIndex
  }

  function InnerInstructions(inner: seq<Group>): seq<Instruction> {
    if inner == [] then [] else InnerInstructions(inner[..|inner| - 1]) + inner[|inner| - 1].instructions
  }

  function LoaderCpis(c: Config, instructions: seq<Instruction>): seq<Instruction> {
    if instructions == [] then []
    else LoaderCpis(c, instructions[..|instructions| - 1])
         + (var last := instructions[|instructions| - 1]; if last.programId == c.loader then [last] else [])
  }

  function TxLoaderCpis(c: Config, tx: Transaction): seq<Instruction> {
    LoaderCpis(c, InnerInstructions(tx.inner))
  }

  /** The kind of a canonical bounded compute-budget instruction. */
  function ComputeTag(i: Instruction): Option<nat> {
    if i.accounts != [] then None
    else if |i.data| == 5 && i.data[0] == 2 && 0 < FromLE(i.data[1..5]) <= MAX_COMPUTE_UNITS then Some(2)
    else if |i.data| == 9 && i.data[0] == 3 && FromLE(i.data[1..9]) <= MAX_COMPUTE_PRICE then Some(3)
    else None
  }

  predicate NonceOk(c: Config, i: Instruction) {
    i.data == [4, 0, 0, 0] && |i.accounts| == 3 && i.accounts[1].pubkey == c.recentBlockhashes && i.accounts[2].isSigner
  }

  /** Before the controller instruction: at most one compute-budget instruction of each kind, and a
      durable-nonce advance only in first place. */
  predicate PrefixOk(c: Config, prefix: seq<Instruction>) {
    && (forall i :: 0 <= i < |prefix| && prefix[i].programId == c.computeBudget ==> ComputeTag(prefix[i]).Some?)
    && (forall i, j :: 0 <= i < j < |prefix| && prefix[i].programId == c.computeBudget == prefix[j].programId ==>
          ComputeTag(prefix[i]) != ComputeTag(prefix[j]))
    && forall i :: 0 <= i < |prefix| && prefix[i].programId != c.computeBudget && prefix[i].programId == c.system ==>
          i == 0 && NonceOk(c, prefix[i])
  }

  function Tag(tx: Transaction): int {
    if tx.topLevel != [] && tx.topLevel[|tx.topLevel| - 1].data != [] then tx.topLevel[|tx.topLevel| - 1].data[0]
      else -1
  }

  function FreezeTag(c: Config): int {
    if c.ordinaryFreeze then 6 else 14
  }

  predicate AdmittedBefore(c: Config, i: Instruction) {
    i.programId != c.controller && (i.programId == c.computeBudget || i.programId == c.system)
  }

  /** Exactly one top-level controller instruction, in last place, after admitted instructions only. */
  predicate TopLevelOk(c: Config, top: seq<Instruction>) {
    && top != [] && top[|top| - 1].programId == c.controller
    && forall i :: 0 <= i < |top| - 1 ==> AdmittedBefore(c, top[i])
  }

  predicate InnerProgramsOk(c: Config, instructions: seq<Instruction>) {
    forall i :: 0 <= i < |instructions| ==>
      instructions[i].programId == c.loader || instructions[i].programId == c.system
  }

  /** One Loader instruction and nothing else inside, both it and the envelope as verified. */
  predicate IsUpgrade(c: Config, tx: Transaction) {
    && |TxLoaderCpis(c, tx)| == 1 && |InnerInstructions(tx.inner)| == 1
    && tx.topLevel == c.envelope && TxLoaderCpis(c, tx) == c.innerCpis
  }

  predicate TransitionOk(c: Config, tx: Transaction) {
    var tag, slot, cpis := Tag(tx), SlotOf(tx), TxLoaderCpis(c, tx);
    && (tag == FreezeTag(c) ==> slot == c.freeze && c.freezeEvent(tx.topLevel[|tx.topLevel| - 1]))
    && (tag == 35 ==> slot == c.unfreeze && c.unfreezeEvent(tx.topLevel))
    && (tag == 31 ==> slot == c.upgrade && IsUpgrade(c, tx))
    && (tag != 31 && cpis != [] ==> tag == 30)
  }

  predicate SuccessOk(c: Config, tx: Transaction) {
    && TopLevelOk(c, tx.topLevel) && 1 <= Tag(tx) <= 38 && Tag(tx) != 26
    && PrefixOk(c, tx.topLevel[..|tx.topLevel| - 1])
    && InnerProgramsOk(c, InnerInstructions(tx.inner))
    && TransitionOk(c, tx)
  }

  predicate TransactionOk(c: Config, tx: Transaction) {
    && BasicOk(tx) && c.freeze <= SlotOf(tx) <= c.unfreeze && GroupsOk(tx.inner, |tx.topLevel|)
    && (tx.status.Succeeded? ==> SuccessOk(c, tx))
  }

  // ---------- the whole list ----------

  /** Strictly before, by slot and then by transaction index. */
  predicate Before(a: Transaction, b: Transaction) {
    SlotOf(a) < SlotOf(b) || (SlotOf(a) == SlotOf(b) && a.transactionIndex < b.transactionIndex)
  }

  predicate Compatible(a: Transaction, b: Transaction) {
    && Before(a, b) && a.signature != b.signature
    && (SlotOf(a) == SlotOf(b) ==> a.blockHash == b.blockHash)
  }

  predicate Carries(tx: Transaction, tag: int) {
    tx.status.Succeeded? && Tag(tx) == tag
  }

  ghost predicate OnlyAt(txs: seq<Transaction>, tag: int, i: nat) {
    i < |txs| && Carries(txs[i], tag) && forall j :: 0 <= j < |txs| && Carries(txs[j], tag) ==> j == i
  }

  ghost predicate ExactlyOne(txs: seq<Transaction>, tag: int) {
    exists i: nat :: OnlyAt(txs, tag, i)
  }

  /** What an accepted history is, said of any two entries and of the whole list. */
  ghost predicate HistoryAccepted(c: Config, txs: seq<Transaction>) {
    && 0 < |txs| <= MAX_TRANSACTIONS
    && (forall i :: 0 <= i < |txs| ==> TransactionOk(c, txs[i]))
    && (forall i, j :: 0 <= i < j < |txs| ==> Compatible(txs[i], txs[j]))
    && ExactlyOne(txs, FreezeTag(c)) && ExactlyOne(txs, 31) && ExactlyOne(txs, 35)
  }

  function Count(txs: seq<Transaction>, tag: int): nat {
    if txs == [] then 0 else Count(txs[..|txs| - 1], tag) + (if Carries(txs[|txs| - 1], tag) then 1 else 0)
  }

  lemma {:induction false} CountNone(txs: seq<Transaction>, tag: int)
    ensures Count(txs, tag) == 0 <==> forall i :: 0 <= i < |txs| ==> !Carries(txs[i], tag)
  {
    hide Carries;
    if txs != [] {
      var front, n := txs[..|txs| - 1], |txs| - 1;
      CountNone(front, tag);
      assert forall i :: 0 <= i < n ==> front[i] == txs[i];
    }
  }

  lemma NoneInEmpty(tag: int)
    ensures forall i: nat :: !OnlyAt([], tag, i)
  {
  }

  lemma OnlyAtFront(txs: seq<Transaction>, tag: int, i: nat)
    requires txs != [] && !Carries(txs[|txs| - 1], tag)
    ensures OnlyAt(txs, tag, i) <==> OnlyAt(txs[..|txs| - 1], tag, i)
  {
    hide Carries;
    var front, n := txs[..|txs| - 1], |txs| - 1;
    assert forall j :: 0 <= j < n ==> front[j] == txs[j];
  }

  lemma OnlyAtLast(txs: seq<Transaction>, tag: int)
    requires txs != [] && Carries(txs[|txs| - 1], tag)
    ensures ExactlyOne(txs, tag) <==> Count(txs[..|txs| - 1], tag) == 0
  {
    hide Carries, Count;
    var front, n := txs[..|txs| - 1], |txs| - 1;
    assert forall j :: 0 <= j < n ==> front[j] == txs[j];
    CountNone(front, tag);
    if Count(front, tag) == 0 {
      assert OnlyAt(txs, tag, n);
    }
  }

  lemma {:induction false} CountOne(txs: seq<Transaction>, tag: int)
    ensures Count(txs, tag) == 1 <==> ExactlyOne(txs, tag)
  {
    hide Carries, OnlyAt;
    if txs == [] {
      assert forall i: nat :: !OnlyAt(txs, tag, i) by { NoneInEmpty(tag); }
    } else if Carries(txs[|txs| - 1], tag) {
      OnlyAtLast(txs, tag);
    } else {
      var front := txs[..|txs| - 1];
      CountOne(front, tag);
      forall i: nat ensures OnlyAt(txs, tag, i) <==> OnlyAt(front, tag, i) {
        OnlyAtFront(txs, tag, i);
      }
    }
  }

  // ---------- the scan ----------

  method CheckPrefix(c: Config, prefix: seq<Instruction>) returns (ok: bool)
    ensures ok <==> PrefixOk(c, prefix)
  {
    hide ComputeTag, NonceOk;
    var computeTags: set<nat> := {};
    var nonceCount, i := 0, 0;
    while i < |prefix|
      invariant 0 <= i <= |prefix|
      invariant PrefixOk(c, prefix[..i])
      invariant forall t :: t in computeTags ==>
        exists j :: 0 <= j < i && prefix[j].programId == c.computeBudget && ComputeTag(prefix[j]) == Some(t)
      invariant forall j :: 0 <= j < i && prefix[j].programId == c.computeBudget ==>
        ComputeTag(prefix[j]).Some? && ComputeTag(prefix[j]).value in computeTags
      invariant i == 0 ==> nonceCount == 0
    {
      var instruction := prefix[i];
      if instruction.programId == c.computeBudget {
        var tag := ComputeTag(instruction);
        if tag.None? || tag.value in computeTags {
          return false;
        }
        computeTags := computeTags + {tag.value};
      } else if instruction.programId == c.system {
        nonceCount := nonceCount + 1;
        if nonceCount != 1 || i != 0 || !NonceOk(c, instruction) {
          return false;
        }
      }
      i := i + 1;
    }
    assert prefix[..i] == prefix;
    ok := true;
  }

  lemma InnerPrograms(c: Config, inner: seq<Group>, i: nat)
    requires i < |inner|
    ensures InnerProgramsOk(c, InnerInstructions(inner[..i + 1]))
      <==> InnerProgramsOk(c, InnerInstructions(inner[..i])) && InnerProgramsOk(c, inner[i].instructions)
  {
    assert inner[..i + 1][..i] == inner[..i];
    var xs, ys := InnerInstructions(inner[..i]), inner[i].instructions;
    assert InnerInstructions(inner[..i + 1]) == xs + ys;
    assert forall k :: 0 <= k < |xs| ==> (xs + ys)[k] == xs[k];
    assert forall k :: 0 <= k < |ys| ==> (xs + ys)[|xs| + k] == ys[k];
  }

  /** A program outside the admitted set stays there when more instructions are collected. */
  lemma {:induction false} InnerProgramsPrefix(c: Config, inner: seq<Group>, i: nat)
    requires i <= |inner| && InnerProgramsOk(c, InnerInstructions(inner))
    ensures InnerProgramsOk(c, InnerInstructions(inner[..i]))
    decreases |inner|
  {
    if i == |inner| {
      assert inner[..i] == inner;
    } else {
      var n := |inner| - 1;
      assert inner[..n + 1] == inner && inner[..n][..i] == inner[..i];
      InnerPrograms(c, inner, n);
      InnerProgramsPrefix(c, inner[..n], i);
    }
  }

  /** The inner groups of a transaction; their programs are constrained only when it succeeded. */
  method CheckGroups(c: Config, inner: seq<Group>, topLevelCount: nat, succeeded: bool)
    returns (ok: bool, instructions: seq<Instruction>)
    ensures ok <==> GroupsOk(inner, topLevelCount) && (succeeded ==> InnerProgramsOk(c, InnerInstructions(inner)))
    ensures ok ==> instructions == InnerInstructions(inner)
  {
    hide GroupOk, InnerProgramsOk;
    if |inner| > MAX_INSTRUCTIONS {
      return false, [];
    }
    var priorGroup := -1;
    instructions := [];
    var i := 0;
    assert succeeded ==> InnerProgramsOk(c, []) by { assert InnerProgramsOk(c, []) by { NoInner(c); } }
    while i < |inner|
      invariant 0 <= i <= |inner|
      invariant GroupsOk(inner[..i], topLevelCount)
      invariant priorGroup == if i == 0 then -1 else inner[i - 1].topLevelIndex
      invariant instructions == InnerInstructions(inner[..i])
      invariant succeeded ==> InnerProgramsOk(c, instructions)
    {
      var group := inner[i];
      InnerPrograms(c, inner, i);
      assert inner[..i + 1][..i] == inner[..i];
      if group.topLevelIndex <= priorGroup || !GroupOk(group, topLevelCount) {
        assert !GroupsOk(inner, topLevelCount) by { GroupRejected(inner, topLevelCount, i, priorGroup); }
        return false, [];
      }
      if succeeded && !InnerProgramsOk(c, group.instructions) {
        if InnerProgramsOk(c, InnerInstructions(inner)) {
          InnerProgramsPrefix(c, inner, i + 1);
        }
        return false, [];
      }
      priorGroup := group.topLevelIndex;
      instructions := instructions + group.instructions;
      i := i + 1;
    }
    assert inner[..i] == inner;
    ok := true;
  }

  lemma NoInner(c: Config)
    ensures InnerProgramsOk(c, [])
  {
  }

  lemma GroupRejected(inner: seq<Group>, topLevelCount: nat, i: nat, priorGroup: int)
    requires i < |inner| && priorGroup == if i == 0 then -1 else inner[i - 1].topLevelIndex
    requires inner[i].topLevelIndex <= priorGroup || !GroupOk(inner[i], topLevelCount)
    ensures !GroupsOk(inner, topLevelCount)
  {
  }

  method ValidateTransaction(c: Config, tx: Transaction) returns (ok: bool)
    ensures ok <==> TransactionOk(c, tx)
  {
    hide PrefixOk, GroupsOk, InnerProgramsOk, TransitionOk, TopLevelOk;
    if !BasicOk(tx) || SlotOf(tx) < c.freeze || SlotOf(tx) > c.unfreeze {
      return false;
    }
    var groups, innerInstructions := CheckGroups(c, tx.inner, |tx.topLevel|, tx.status.Succeeded?);
    if tx.status.Failed? || !groups {
      return groups;
    }
    if !TopLevelOk(c, tx.topLevel) || !(1 <= Tag(tx) <= 38) || Tag(tx) == 26 {
      return false;
    }
    var prefix := CheckPrefix(c, tx.topLevel[..|tx.topLevel| - 1]);
    ok := prefix && TransitionOk(c, tx);
  }

  /** What the scan carries: every pair so far is compatible, and the last entry bounds the others. */
  ghost predicate Scanned(c: Config, txs: seq<Transaction>, i: nat) {
    && i <= |txs|
    && (forall j :: 0 <= j < i ==> TransactionOk(c, txs[j]))
    && forall j, k :: 0 <= j < k < i ==> Compatible(txs[j], txs[k])
  }

  /** The comparison with the previous entry alone. */
  predicate Follows(tx: Transaction, priorSlot: nat, priorIndex: int, priorBlockHash: Option<Digest>) {
    && !(SlotOf(tx) < priorSlot || (SlotOf(tx) == priorSlot && tx.transactionIndex <= priorIndex))
    && !(SlotOf(tx) == priorSlot && priorBlockHash.Some? && tx.blockHash != priorBlockHash.value)
  }

  lemma FollowsLast(c: Config, txs: seq<Transaction>, i: nat)
    requires 0 < i < |txs| && Scanned(c, txs, i)
    requires Follows(txs[i], SlotOf(txs[i - 1]), txs[i - 1].transactionIndex, Some(txs[i - 1].blockHash))
    requires forall j :: 0 <= j < i ==> txs[j].signature != txs[i].signature
    ensures forall j :: 0 <= j < i ==> Compatible(txs[j], txs[i])
  {
    forall j | 0 <= j < i ensures Compatible(txs[j], txs[i]) {
      assert j < i - 1 ==> Compatible(txs[j], txs[i - 1]);
    }
  }

  lemma CompatibleFollows(a: Transaction, b: Transaction)
    requires Compatible(a, b)
    ensures Follows(b, SlotOf(a), a.transactionIndex, Some(a.blockHash))
  {
  }

  /** The one-pass scan accepts exactly the accepted histories. */
  method ValidateHistory(c: Config, txs: seq<Transaction>) returns (ok: bool)
    ensures ok <==> HistoryAccepted(c, txs)
  {
    hide TransactionOk, Carries, Compatible, Follows, ExactlyOne, Count;
    if txs == [] || |txs| > MAX_TRANSACTIONS {
      return false;
    }
    var priorSlot, priorIndex, priorBlockHash := c.freeze, -1, None;
    var freezeEvents, upgradeEvents, unfreezeEvents := 0, 0, 0;
    var signatures: set<Bytes> := {};
    var i := 0;
    CountEmpty(FreezeTag(c));
    CountEmpty(31);
    CountEmpty(35);
    while i < |txs|
      invariant 0 <= i <= |txs|
      invariant Scanned(c, txs, i)
      invariant i == 0 ==> priorSlot == c.freeze && priorIndex == -1 && priorBlockHash == None
      invariant i > 0 ==> priorSlot == SlotOf(txs[i - 1]) && priorIndex == txs[i - 1].transactionIndex
      invariant i > 0 ==> priorBlockHash == Some(txs[i - 1].blockHash)
      invariant forall j :: 0 <= j < i ==> txs[j].signature in signatures
      invariant forall s :: s in signatures ==> exists j :: 0 <= j < i && txs[j].signature == s
      invariant freezeEvents == Count(txs[..i], FreezeTag(c))
      invariant upgradeEvents == Count(txs[..i], 31)
      invariant unfreezeEvents == Count(txs[..i], 35)
    {
      var tx := txs[i];
      var valid := ValidateTransaction(c, tx);
      if !valid {
        return false;
      }
      if !Follows(tx, priorSlot, priorIndex, priorBlockHash) {
        if i == 0 {
          FirstFollows(c, tx);
        } else if HistoryAccepted(c, txs) {
          CompatibleFollows(txs[i - 1], tx);
        }
        return false;
      }
      if tx.signature in signatures {
        assert !HistoryAccepted(c, txs) by { Duplicate(c, txs, i); }
        return false;
      }
      if i > 0 {
        FollowsLast(c, txs, i);
      }
      CountStep(txs, i, FreezeTag(c));
      CountStep(txs, i, 31);
      CountStep(txs, i, 35);
      priorSlot, priorIndex, priorBlockHash := SlotOf(tx), tx.transactionIndex, Some(tx.blockHash);
      signatures := signatures + {tx.signature};
      freezeEvents := freezeEvents + (if Carries(tx, FreezeTag(c)) then 1 else 0);
      upgradeEvents := upgradeEvents + (if Carries(tx, 31) then 1 else 0);
      unfreezeEvents := unfreezeEvents + (if Carries(tx, 35) then 1 else 0);
      i := i + 1;
    }
    assert txs[..i] == txs;
    CountOne(txs, FreezeTag(c));
    CountOne(txs, 31);
    CountOne(txs, 35);
    ok := freezeEvents == 1 && upgradeEvents == 1 && unfreezeEvents == 1;
  }

  lemma FirstFollows(c: Config, tx: Transaction)
    requires TransactionOk(c, tx)
    ensures Follows(tx, c.freeze, -1, None)
  {
  }

  lemma Duplicate(c: Config, txs: seq<Transaction>, i: nat)
    requires i < |txs| && exists j :: 0 <= j < i && txs[j].signature == txs[i].signature
    ensures !HistoryAccepted(c, txs)
  {
    hide TransactionOk, ExactlyOne;
    var j :| 0 <= j < i && txs[j].signature == txs[i].signature;
    assert !Compatible(txs[j], txs[i]);
  }

  lemma CountEmpty(tag: int)
    ensures Count([], tag) == 0
  {
  }

  lemma CountStep(txs: seq<Transaction>, i: nat, tag: int)
    requires i < |txs|
    ensures Count(txs[..i + 1], tag) == Count(txs[..i], tag) + (if Carries(txs[i], tag) then 1 else 0)
  {
    assert txs[..i + 1][..i] == txs[..i];
  }

  // ---------- who moved the program ----------

  lemma {:induction false} LoaderCpisMember(c: Config, instructions: seq<Instruction>, k: nat)
    requires k < |instructions| && instructions[k].programId == c.loader
    ensures LoaderCpis(c, instructions) != []
  {
    if k < |instructions| - 1 {
      LoaderCpisMember(c, instructions[..|instructions| - 1], k);
    }
  }

  lemma {:induction false} InnerMember(inner: seq<Group>, g: nat, k: nat)
    requires g < |inner| && k < |inner[g].instructions|
    ensures inner[g].instructions[k] in InnerInstructions(inner)
  {
    if g < |inner| - 1 {
      InnerMember(inner[..|inner| - 1], g, k);
    }
  }

  /** Some inner instruction of some group invokes the Loader. */
  predicate ReachesLoader(c: Config, tx: Transaction) {
    exists g, k :: 0 <= g < |tx.inner| && 0 <= k < |tx.inner[g].instructions|
      && tx.inner[g].instructions[k].programId == c.loader
  }

  lemma ReachesLoaderCpis(c: Config, tx: Transaction)
    requires ReachesLoader(c, tx)
    ensures TxLoaderCpis(c, tx) != []
  {
    var g, k :| 0 <= g < |tx.inner| && 0 <= k < |tx.inner[g].instructions|
      && tx.inner[g].instructions[k].programId == c.loader;
    InnerMember(tx.inner, g, k);
    var all := InnerInstructions(tx.inner);
    var i :| 0 <= i < |all| && all[i] == tx.inner[g].instructions[k];
    LoaderCpisMember(c, all, i);
  }

  lemma OneLoaderCpi(c: Config, instructions: seq<Instruction>)
    ensures |instructions| == 1 && |LoaderCpis(c, instructions)| == 1 ==> LoaderCpis(c, instructions) == instructions
  {
    if |instructions| == 1 {
      assert LoaderCpis(c, instructions[..0]) == [];
    }
  }

  /** Every successful transaction whose inner instructions reach the Loader is an extension, or it is the
      one upgrade: at the upgrade slot, in the verified envelope, with the verified Loader instruction as its
      only inner instruction. */
  lemma LoaderIsOwned(c: Config, txs: seq<Transaction>)
    requires HistoryAccepted(c, txs)
    ensures exists u: nat :: OnlyAt(txs, 31, u) && SlotOf(txs[u]) == c.upgrade
              && txs[u].topLevel == c.envelope && InnerInstructions(txs[u].inner) == c.innerCpis && |c.innerCpis| == 1
              && forall i :: 0 <= i < |txs| && txs[i].status.Succeeded? && ReachesLoader(c, txs[i]) ==>
                i == u || Tag(txs[i]) == 30
  {
    hide ReachesLoader, BasicOk, GroupsOk, TopLevelOk, PrefixOk, InnerProgramsOk, Compatible;
    var u: nat :| OnlyAt(txs, 31, u);
    assert TransactionOk(c, txs[u]);
    OneLoaderCpi(c, InnerInstructions(txs[u].inner));
    forall i | 0 <= i < |txs| && txs[i].status.Succeeded? && ReachesLoader(c, txs[i])
      ensures i == u || Tag(txs[i]) == 30
    {
      assert TransactionOk(c, txs[i]);
      ReachesLoaderCpis(c, txs[i]);
      assert Tag(txs[i]) == 31 ==> Carries(txs[i], 31);
    }
  }

  /** The three events stand at their recorded slots, and in the order of those slots. */
  lemma EventsAtTheirSlots(c: Config, txs: seq<Transaction>, f: nat, u: nat, d: nat)
    requires HistoryAccepted(c, txs) && OnlyAt(txs, FreezeTag(c), f) && OnlyAt(txs, 31, u) && OnlyAt(txs, 35, d)
    ensures SlotOf(txs[f]) == c.freeze && SlotOf(txs[u]) == c.upgrade && SlotOf(txs[d]) == c.unfreeze
    ensures c.freeze < c.upgrade ==> f < u
    ensures c.upgrade < c.unfreeze ==> u < d
  {
    hide BasicOk, GroupsOk, TopLevelOk, PrefixOk, InnerProgramsOk;
    assert TransactionOk(c, txs[f]) && TransactionOk(c, txs[u]) && TransactionOk(c, txs[d]);
    assert u < f ==> Compatible(txs[u], txs[f]);
    assert d < u ==> Compatible(txs[d], txs[u]);
  }

  // ---------- the events in bytes ----------

  /** A successful transaction whose last top-level instruction begins with byte `b`. */
  predicate Begins(tx: Transaction, b: Byte) {
    && tx.status.Succeeded? && tx.topLevel != []
    && tx.topLevel[|tx.topLevel| - 1].data != [] && tx.topLevel[|tx.topLevel| - 1].data[0] == b
  }

  ghost predicate OneBegins(txs: seq<Transaction>, b: Byte, i: nat) {
    i < |txs| && Begins(txs[i], b) && forall j :: 0 <= j < |txs| && Begins(txs[j], b) ==> j == i
  }

  lemma OnlyAtBegins(txs: seq<Transaction>, b: Byte, i: nat)
    ensures OnlyAt(txs, b, i) <==> OneBegins(txs, b, i)
  {
  }

  lemma EventHolds(c: Config, txs: seq<Transaction>, b: Byte, i: nat)
    requires HistoryAccepted(c, txs) && OneBegins(txs, b, i)
    ensures TransactionOk(c, txs[i]) && SuccessOk(c, txs[i]) && TransitionOk(c, txs[i]) && Tag(txs[i]) == b
  {
    hide BasicOk, GroupsOk, TopLevelOk, PrefixOk, InnerProgramsOk, Compatible, ExactlyOne;
  }

  /** One successful transaction is the freeze: byte 6 for an ordinary freeze, 14 for an emergency conversion,
      at the freeze slot, with the freeze checks passed. */
  lemma FreezeInBytes(c: Config, txs: seq<Transaction>) returns (f: nat)
    requires HistoryAccepted(c, txs)
    ensures c.ordinaryFreeze ==> OneBegins(txs, 6, f)
    ensures !c.ordinaryFreeze ==> OneBegins(txs, 14, f)
    ensures f < |txs| && SlotOf(txs[f]) == c.freeze
    ensures txs[f].topLevel != [] && c.freezeEvent(txs[f].topLevel[|txs[f].topLevel| - 1])
  {
    hide TransactionOk, SuccessOk, Compatible, OnlyAt, OneBegins;
    f :| OnlyAt(txs, FreezeTag(c), f);
    var b: Byte := if c.ordinaryFreeze then 6 else 14;
    OnlyAtBegins(txs, b, f);
    FoundAt(txs, b, f);
    EventHolds(c, txs, b, f);
  }

  lemma FoundAt(txs: seq<Transaction>, b: Byte, i: nat)
    requires OneBegins(txs, b, i)
    ensures i < |txs| && txs[i].topLevel != []
  {
  }

  /** One successful transaction is the unfreeze: byte 35, at the unfreeze slot, its checks passed. */
  lemma UnfreezeInBytes(c: Config, txs: seq<Transaction>) returns (d: nat)
    requires HistoryAccepted(c, txs)
    ensures OneBegins(txs, 35, d) && d < |txs| && SlotOf(txs[d]) == c.unfreeze && c.unfreezeEvent(txs[d].topLevel)
  {
    hide TransactionOk, SuccessOk, Compatible, OnlyAt, OneBegins;
    d :| OnlyAt(txs, 35, d);
    OnlyAtBegins(txs, 35, d);
    FoundAt(txs, 35, d);
    EventHolds(c, txs, 35, d);
  }

  /** One successful transaction is the upgrade: byte 31, at the upgrade slot, as verified. */
  lemma UpgradeInBytes(c: Config, txs: seq<Transaction>) returns (u: nat)
    requires HistoryAccepted(c, txs)
    ensures OneBegins(txs, 31, u) && u < |txs| && SlotOf(txs[u]) == c.upgrade
    ensures txs[u].topLevel == c.envelope && InnerInstructions(txs[u].inner) == c.innerCpis
  {
    hide TransactionOk, SuccessOk, Compatible, OnlyAt, OneBegins;
    u :| OnlyAt(txs, 31, u);
    OnlyAtBegins(txs, 31, u);
    FoundAt(txs, 31, u);
    EventHolds(c, txs, 31, u);
    OneLoaderCpi(c, InnerInstructions(txs[u].inner));
  }

  /** An instruction that may stand before the controller's: a compute-unit limit or price within bounds, or
      in first place a durable-nonce advance. */
  predicate MayPrecede(c: Config, i: nat, x: Instruction) {
    if x.programId == c.computeBudget then
      && x.accounts == []
      && ((|x.data| == 5 && x.data[0] == 2 && 1 <= FromLE(x.data[1..]) <= 1_400_000)
          || (|x.data| == 9 && x.data[0] == 3 && FromLE(x.data[1..]) <= 10_000_000))
    else
      && i == 0 && x.programId == c.system && x.data == [4, 0, 0, 0] && |x.accounts| == 3
      && x.accounts[1].pubkey == c.recentBlockhashes && x.accounts[2].isSigner
  }

  /** One controller instruction in last place, tagged 1 to 38 but not 26, behind instructions that may stand
      there, with compute-budget kinds pairwise different. */
  predicate SuccessShape(c: Config, top: seq<Instruction>) {
    && 1 <= |top| <= 64
    && (var last := top[|top| - 1];
        last.programId == c.controller && last.data != [] && 1 <= last.data[0] <= 38 && last.data[0] != 26)
    && (forall k :: 0 <= k < |top| - 1 ==> top[k].programId != c.controller && MayPrecede(c, k, top[k]))
    && forall k, m :: 0 <= k < m < |top| - 1 ==> !SameBudgetKind(c, top[k], top[m])
  }

  predicate SameBudgetKind(c: Config, x: Instruction, y: Instruction) {
    x.programId == c.computeBudget == y.programId && x.data != [] && y.data != [] && x.data[0] == y.data[0]
  }

  /** What every successful transaction of an accepted history looks like. */
  lemma SuccessInBytes(c: Config, txs: seq<Transaction>, i: nat)
    requires HistoryAccepted(c, txs) && i < |txs| && txs[i].status.Succeeded?
    ensures SuccessShape(c, txs[i].topLevel)
  {
    hide GroupsOk, InnerProgramsOk, TransitionOk, PrefixOk, TopLevelOk, MayPrecede, SameBudgetKind, ExactlyOne,
      Compatible;
    assert TransactionOk(c, txs[i]);
    var top := txs[i].topLevel;
    Bounded(txs[i]);
    LastIsController(c, top);
    forall k | 0 <= k < |top| - 1 ensures top[k].programId != c.controller && MayPrecede(c, k, top[k]) {
      Precedes(c, top, k);
    }
    forall k, m | 0 <= k < m < |top| - 1 ensures !SameBudgetKind(c, top[k], top[m]) {
      KindsDiffer(c, top, k, m);
    }
  }

  lemma LastIsController(c: Config, top: seq<Instruction>)
    requires TopLevelOk(c, top)
    ensures top != [] && top[|top| - 1].programId == c.controller
  {
  }

  lemma Precedes(c: Config, top: seq<Instruction>, k: nat)
    requires TopLevelOk(c, top) && PrefixOk(c, top[..|top| - 1]) && k < |top| - 1
    ensures top[k].programId != c.controller && MayPrecede(c, k, top[k])
  {
    hide ComputeTag, FromLE;
    var prefix := top[..|top| - 1];
    assert prefix[k] == top[k] && AdmittedBefore(c, top[k]);
    BudgetInBytes(top[k]);
  }

  lemma KindsDiffer(c: Config, top: seq<Instruction>, k: nat, m: nat)
    requires top != [] && PrefixOk(c, top[..|top| - 1]) && k < m < |top| - 1
    ensures !SameBudgetKind(c, top[k], top[m])
  {
    hide ComputeTag, FromLE, NonceOk;
    var prefix := top[..|top| - 1];
    assert prefix[k] == top[k] && prefix[m] == top[m];
    BudgetInBytes(top[k]);
    BudgetInBytes(top[m]);
  }

  lemma Bounded(tx: Transaction)
    requires BasicOk(tx)
    ensures 1 <= |tx.topLevel| <= 64
  {
  }

  lemma BudgetInBytes(x: Instruction)
    ensures ComputeTag(x).Some? ==>
      && x.accounts == [] && |x.data| in {5, 9} && ComputeTag(x) == Some(x.data[0])
      && (|x.data| == 5 ==> x.data[0] == 2 && 1 <= FromLE(x.data[1..]) <= 1_400_000)
      && (|x.data| == 9 ==> x.data[0] == 3 && FromLE(x.data[1..]) <= 10_000_000)
  {
    hide FromLE;
    if |x.data| == 5 { assert x.data[1..5] == x.data[1..]; }
    if |x.data| == 9 { assert x.data[1..9] == x.data[1..]; }
  }

  /** What every entry of an accepted history satisfies, in numbers, failed transactions included. */
  lemma EntryInNumbers(c: Config, txs: seq<Transaction>, i: nat)
    requires HistoryAccepted(c, txs) && i < |txs|
    ensures |txs| <= 4096 && c.freeze <= SlotOf(txs[i]) <= c.unfreeze && ParseU64(txs[i].slot) == Some(SlotOf(txs[i]))
    ensures 0 <= txs[i].transactionIndex < 0x1_0000_0000 && |txs[i].signature| == 64
    ensures txs[i].status == (if txs[i].errorSha256 == Zeros(32) then Succeeded else Failed)
    ensures 1 <= |txs[i].topLevel| <= 64 && |txs[i].inner| <= 64
    ensures forall k :: 0 <= k < |txs[i].topLevel| ==>
      |txs[i].topLevel[k].data| <= 16_384 && |txs[i].topLevel[k].accounts| <= 128
  {
    hide SuccessOk, GroupOk, Compatible, ExactlyOne, ParseU64;
  }

  /** The inner groups of an entry: which top-level instruction each belongs to, and what a successful one may
      invoke. */
  lemma GroupInNumbers(c: Config, txs: seq<Transaction>, i: nat, g: nat)
    requires HistoryAccepted(c, txs) && i < |txs| && g < |txs[i].inner|
    ensures 0 <= txs[i].inner[g].topLevelIndex < |txs[i].topLevel| && 1 <= |txs[i].inner[g].instructions| <= 64
    ensures forall k :: g < k < |txs[i].inner| ==> txs[i].inner[g].topLevelIndex < txs[i].inner[k].topLevelIndex
    ensures forall k :: 0 <= k < |txs[i].inner[g].instructions| ==>
      |txs[i].inner[g].instructions[k].data| <= 16_384 && |txs[i].inner[g].instructions[k].accounts| <= 128
    ensures txs[i].status.Succeeded? ==> forall k :: 0 <= k < |txs[i].inner[g].instructions| ==>
      txs[i].inner[g].instructions[k].programId in {c.loader, c.system}
  {
    hide BasicOk, TransitionOk, TopLevelOk, PrefixOk, Compatible, ExactlyOne, InnerProgramsOk, SlotOf;
    assert TransactionOk(c, txs[i]) && GroupOk(txs[i].inner[g], |txs[i].topLevel|);
    if txs[i].status.Succeeded? {
      GroupPrograms(c, txs[i].inner, g);
    }
  }

  lemma GroupPrograms(c: Config, inner: seq<Group>, g: nat)
    requires g < |inner| && InnerProgramsOk(c, InnerInstructions(inner))
    ensures forall k :: 0 <= k < |inner[g].instructions| ==> inner[g].instructions[k].programId in {c.loader, c.system}
  {
    forall k | 0 <= k < |inner[g].instructions| ensures inner[g].instructions[k].programId in {c.loader, c.system} {
      InnerMember(inner, g, k);
    }
  }

  // ---------- an accepted history ----------

  function Thirty2(b: Byte): Digest {
    seq<Byte>(32, _ => b)
  }

  const CONTROLLER := Thirty2(1)
  const BUDGET := Thirty2(2)
  const SYSTEM := Thirty2(3)
  const LOADER := Thirty2(4)

  function Call(tag: Byte): Instruction {
    Instruction(CONTROLLER, [tag], [])
  }

  function LoaderCall(): Instruction {
    Instruction(LOADER, [3, 0, 0, 0], [])
  }

  /** The largest compute-unit limit and price that are admitted, then the upgrade. */
  function Envelope(): seq<Instruction> {
    [Instruction(BUDGET, [2] + LE(1_400_000, 4), []), Instruction(BUDGET, [3] + LE(10_000_000, 8), []), Call(31)]
  }

  /** A transaction at the slot of one decimal digit. */
  function Executed(slot: Byte, top: seq<Instruction>, inner: seq<Group>): Transaction
    requires slot < 10
  {
    Transaction([48 + slot], Thirty2(slot), [48], 0, seq<Byte>(64, _ => slot), Succeeded, Zeros(32), top, inner)
  }

  function OrdinaryHistory(): seq<Transaction> {
    [Executed(5, [Call(6)], []), Upgrade(), Executed(7, [Call(35)], [])]
  }

  function OrdinaryConfig(ordinary: bool): Config {
    Config(
      CONTROLLER, BUDGET, SYSTEM, LOADER, Thirty2(5), 5, 7, 6, ordinary, _ => true, _ => true, Envelope(),
      [LoaderCall()])
  }

  lemma KeysDiffer(a: Byte, b: Byte)
    requires a != b
    ensures Thirty2(a) != Thirty2(b)
  {
    assert Thirty2(a)[0] != Thirty2(b)[0];
  }

  lemma AllKeysDiffer()
    ensures CONTROLLER != BUDGET && CONTROLLER != SYSTEM && CONTROLLER != LOADER && BUDGET != SYSTEM && BUDGET != LOADER
    ensures SYSTEM != LOADER
  {
    KeysDiffer(1, 2);
    KeysDiffer(1, 3);
    KeysDiffer(1, 4);
    KeysDiffer(2, 3);
    KeysDiffer(2, 4);
    KeysDiffer(3, 4);
  }

  lemma SlotIs(slot: Byte)
    requires slot < 10
    ensures ParseU64([48 + slot]) == Some(slot)
  {
    assert DecimalValue([48 + slot]) == slot;
  }

  lemma PlainCallOk(c: Config, slot: Byte, tag: Byte)
    requires slot < 10 && c.controller == CONTROLLER && 1 <= tag <= 38 && tag != 26 && tag != 31
      && c.freeze <= slot <= c.unfreeze
    requires tag == FreezeTag(c) ==> slot == c.freeze && c.freezeEvent(Call(tag))
    requires tag == 35 ==> slot == c.unfreeze && c.unfreezeEvent([Call(tag)])
    ensures TransactionOk(c, Executed(slot, [Call(tag)], []))
    ensures Tag(Executed(slot, [Call(tag)], [])) == tag && SlotOf(Executed(slot, [Call(tag)], [])) == slot
  {
    SlotIs(slot);
    SlotIs(0);
    var tx := Executed(slot, [Call(tag)], []);
    assert tx.topLevel[..|tx.topLevel| - 1] == [];
    assert InnerInstructions(tx.inner) == [];
  }

  function Upgrade(): Transaction {
    Executed(6, Envelope(), [Group(2, [LoaderCall()])])
  }

  /** A compute-unit limit is admitted from 1 to 1,400,000. */
  lemma LimitBounds(program: Key, n: nat)
    requires n < 0x1_0000_0000
    ensures ComputeTag(Instruction(program, [2] + LE(n, 4), [])) == if 1 <= n <= 1_400_000 then Some(2) else None
  {
    hide LE, FromLE;
    Limits();
    FromLEOfLE(n, 4);
    assert ([2] + LE(n, 4))[1..5] == LE(n, 4);
  }

  /** A compute-unit price is admitted up to 10,000,000. */
  lemma PriceBounds(program: Key, n: nat)
    requires n < 0x1_0000_0000_0000_0000
    ensures ComputeTag(Instruction(program, [3] + LE(n, 8), [])) == if n <= 10_000_000 then Some(3) else None
  {
    hide LE, FromLE;
    Limits();
    FromLEOfLE(n, 8);
    assert ([3] + LE(n, 8))[1..9] == LE(n, 8);
  }

  lemma EnvelopeTags()
    ensures ComputeTag(Envelope()[0]) == Some(2) && ComputeTag(Envelope()[1]) == Some(3)
  {
    hide LE, ComputeTag;
    LimitBounds(BUDGET, 1_400_000);
    PriceBounds(BUDGET, 10_000_000);
  }

  lemma EnvelopeTop(c: Config)
    requires c.controller == CONTROLLER && c.computeBudget == BUDGET && c.system == SYSTEM && c.loader == LOADER
    ensures TopLevelOk(c, Envelope()) && PrefixOk(c, Envelope()[..2])
  {
    AllKeysDiffer();
    EnvelopeTags();
    hide ComputeTag, Thirty2, LE;
  }

  lemma OneGroup(x: Instruction)
    ensures InnerInstructions([Group(2, [x])]) == [x]
  {
    var inner := [Group(2, [x])];
    assert inner[..0] == [] && inner[0].instructions == [x];
  }

  lemma OneCpi(c: Config)
    requires c.loader == LOADER
    ensures LoaderCpis(c, [LoaderCall()]) == [LoaderCall()] && InnerProgramsOk(c, [LoaderCall()])
  {
    hide Thirty2;
    assert [LoaderCall()][..0] == [] && LoaderCall().programId == c.loader;
  }

  lemma UpgradeInner(c: Config)
    requires c.loader == LOADER
    ensures GroupsOk(Upgrade().inner, 3) && InnerInstructions(Upgrade().inner) == [LoaderCall()]
    ensures TxLoaderCpis(c, Upgrade()) == [LoaderCall()] && InnerProgramsOk(c, InnerInstructions(Upgrade().inner))
  {
    hide Thirty2, LE, InnerInstructions, LoaderCpis, InnerProgramsOk, Envelope;
    OneGroup(LoaderCall());
    OneCpi(c);
  }

  lemma UpgradeBasic()
    ensures BasicOk(Upgrade()) && SlotOf(Upgrade()) == 6 && Tag(Upgrade()) == 31 && Upgrade().status == Succeeded
    ensures |Upgrade().topLevel| == 3 && Upgrade().topLevel == Envelope()
      && Envelope()[..|Envelope()| - 1] == Envelope()[..2]
  {
    SlotIs(6);
    SlotIs(0);
    hide ParseU64, LE, Thirty2;
  }

  lemma UpgradeOk(c: Config)
    requires c.controller == CONTROLLER && c.computeBudget == BUDGET && c.system == SYSTEM && c.loader == LOADER
    requires c.freeze <= 6 <= c.unfreeze && c.upgrade == 6 && c.envelope == Envelope() && c.innerCpis == [LoaderCall()]
    ensures TransactionOk(c, Upgrade())
  {
    EnvelopeTop(c);
    UpgradeInner(c);
    UpgradeBasic();
    hide BasicOk, GroupsOk, TopLevelOk, PrefixOk, InnerProgramsOk, Envelope, Upgrade, LoaderCpis, Tag, SlotOf,
      LoaderCall, TxLoaderCpis;
  }

  lemma Later(a: Byte, b: Byte, top: seq<Instruction>, inner: seq<Group>, top': seq<Instruction>, inner': seq<Group>)
    requires a < b < 10
    ensures Compatible(Executed(a, top, inner), Executed(b, top', inner'))
  {
    SlotIs(a);
    SlotIs(b);
    hide ParseU64, Thirty2;
    assert Executed(a, top, inner).signature[0] != Executed(b, top', inner').signature[0];
  }

  /** Three transactions, one for each event, are an accepted ordinary history. */
  lemma OrdinaryHistoryIsAccepted()
    ensures HistoryAccepted(OrdinaryConfig(true), OrdinaryHistory())
  {
    hide TransactionOk, Compatible, ParseU64, Thirty2, Envelope, Tag, ExactlyOne;
    var c, txs := OrdinaryConfig(true), OrdinaryHistory();
    PlainCallOk(c, 5, 6);
    PlainCallOk(c, 7, 35);
    UpgradeOk(c);
    UpgradeBasic();
    var inner := [Group(2, [LoaderCall()])];
    Later(5, 6, [Call(6)], [], Envelope(), inner);
    Later(5, 7, [Call(6)], [], [Call(35)], []);
    Later(6, 7, Envelope(), inner, [Call(35)], []);
    OnlyOne(txs, 0, 6);
    OnlyOne(txs, 1, 31);
    OnlyOne(txs, 2, 35);
  }

  lemma OnlyOne(txs: seq<Transaction>, i: nat, tag: int)
    requires |txs| == 3 && i < 3 && txs[i].status.Succeeded? && Tag(txs[i]) == tag
    requires forall j :: 0 <= j < 3 && j != i ==> Tag(txs[j]) != tag
    ensures ExactlyOne(txs, tag)
  {
    assert OnlyAt(txs, tag, i);
  }
}
