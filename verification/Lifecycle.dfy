/** The shape checks of a Release 1 upgrade proposal record, and what they say about its history. */
module Lifecycle {
  import opened ByteStrings

  const APPROVAL_THRESHOLD := 3
  const EXPIRED_REASON := 1
  const COMPLETED_REASON := 2
  const SUPERSEDED_REASON := 3
  const RETIRED_REASON := 4

  datatype State =
    | Draft | BufferAdopted | BufferVerified | CouncilApproved | TokenReviewOpen | GovernanceSatisfied | Timelocked
    | Frozen | Extended | UpgradeExecuted | ProgramDataVerified | PoststateAccepted | UnfreezeApproved | Completed
    | Cancelled | Expired | SupersededByRollback | Retired

  datatype Record = Record(
    state: State, emergencyRollback: bool,
    councilApprovals: nat, cancellationApprovals: nat, unfreezeApprovals: nat,
    cancellationReason: nat, terminalReason: nat, extensionDelta: nat,
    creationSlot: nat, reviewStartSlot: nat, reviewEndSlot: nat, notBeforeSlot: nat, expirySlot: nat,
    firstApprovalSlot: nat, councilApprovedSlot: nat, governanceSatisfiedSlot: nat, queuedSlot: nat, frozenSlot: nat,
    extensionExecutedSlot: nat, upgradeExecutedSlot: nat, programdataVerifiedSlot: nat, poststateAcceptedSlot: nat,
    unfreezeApprovedSlot: nat, terminalSlot: nat)

  predicate WasUpgraded(s: State) {
    s in {UpgradeExecuted, ProgramDataVerified, PoststateAccepted, UnfreezeApproved, Completed, SupersededByRollback}
  }

  // ---------- what an accepted record is ----------

  predicate TimingOk(r: Record) {
    && r.creationSlot != 0 && r.creationSlot <= r.reviewStartSlot < r.reviewEndSlot <= r.notBeforeSlot < r.expirySlot
  }

  /** A vote has a first slot from its first approval on, and a decision slot exactly with its quorum; a
      cancellation has a reason exactly when it has begun, and its quorum is the state `Cancelled`. */
  predicate VotesOk(r: Record) {
    && r.councilApprovals <= APPROVAL_THRESHOLD && r.cancellationApprovals <= APPROVAL_THRESHOLD
    && r.unfreezeApprovals <= APPROVAL_THRESHOLD
    && (r.firstApprovalSlot != 0 <==> r.councilApprovals != 0)
    && (r.councilApprovedSlot != 0 <==> r.councilApprovals == APPROVAL_THRESHOLD)
    && (r.unfreezeApprovals != 0 ==> r.poststateAcceptedSlot != 0)
    && (r.unfreezeApprovedSlot != 0 <==> r.unfreezeApprovals == APPROVAL_THRESHOLD)
    && (r.cancellationApprovals != 0 <==> r.cancellationReason != 0)
    && (r.cancellationApprovals == APPROVAL_THRESHOLD <==> r.state == Cancelled)
  }

  /** Of the nine milestones from quorum to unfreeze exactly the first p are recorded, the extension only
      where one is planned. */
  predicate Reached(r: Record, p: nat) {
    && (r.councilApprovedSlot != 0 <==> p >= 1)
    && (r.governanceSatisfiedSlot != 0 <==> p >= 2)
    && (r.queuedSlot != 0 <==> p >= 3)
    && (r.frozenSlot != 0 <==> p >= 4)
    && (r.extensionExecutedSlot != 0 <==> p >= 5 && r.extensionDelta != 0)
    && (r.upgradeExecutedSlot != 0 <==> p >= 6)
    && (r.programdataVerifiedSlot != 0 <==> p >= 7)
    && (r.poststateAcceptedSlot != 0 <==> p >= 8)
    && (r.unfreezeApprovedSlot != 0 <==> p >= 9)
  }

  /** How many milestones a state stands for. */
  predicate Stage(r: Record, p: nat) {
    match r.state
    case Draft => p == 0 && r.councilApprovals == 0
    case BufferAdopted => p == 0 && r.councilApprovals == 0
    case BufferVerified => p == 0
    case CouncilApproved => p == 1
    case TokenReviewOpen => false
    case GovernanceSatisfied => p == 2
    case Timelocked => p == 3
    case Frozen => p == 4
    case Extended => p == 5 && r.extensionDelta != 0
    case UpgradeExecuted => p == 6
    case ProgramDataVerified => p == 7
    case PoststateAccepted => p == 8
    case UnfreezeApproved => p == 9
    case Completed => p == 9
    case Cancelled => p <= 3
    case Expired => p <= 3
    case SupersededByRollback => 6 <= p <= 7
    case Retired => p == 3
  }

  predicate Progress(r: Record, p: nat) {
    Stage(r, p) && Reached(r, p)
  }

  /** The votes fall in the review window, everything up to the upgrade before expiry, the freeze not
      before its time, and the extension strictly before the upgrade. */
  predicate WindowsOk(r: Record) {
    && (r.firstApprovalSlot != 0 ==> r.reviewStartSlot <= r.firstApprovalSlot <= r.reviewEndSlot)
    && r.councilApprovedSlot <= r.reviewEndSlot
    && (r.frozenSlot != 0 ==> r.notBeforeSlot <= r.frozenSlot)
    && (r.extensionExecutedSlot != 0 && r.upgradeExecutedSlot != 0 ==> r.extensionExecutedSlot < r.upgradeExecutedSlot)
    && r.councilApprovedSlot < r.expirySlot && r.governanceSatisfiedSlot < r.expirySlot && r.queuedSlot < r.expirySlot
    && r.frozenSlot < r.expirySlot && r.extensionExecutedSlot < r.expirySlot && r.upgradeExecutedSlot < r.expirySlot
  }

  function ExpectedReason(r: Record): nat {
    match r.state
    case Completed => COMPLETED_REASON
    case Cancelled => r.cancellationReason
    case Expired => EXPIRED_REASON
    case SupersededByRollback => SUPERSEDED_REASON
    case Retired => RETIRED_REASON
    case _ => 0
  }

  /** An ended record has its state's reason and a slot; only a rollback is retired, and never superseded. */
  predicate EndOk(r: Record) {
    && r.terminalReason == ExpectedReason(r)
    && (r.terminalSlot != 0 <==> r.terminalReason != 0)
    && (r.state == Cancelled ==> r.terminalSlot < r.expirySlot)
    && (r.state == Expired ==> r.terminalSlot >= r.expirySlot)
    && (r.state == Retired ==> r.emergencyRollback)
    && (r.state == SupersededByRollback ==> !r.emergencyRollback)
  }

  // ---------- the order of the recorded slots ----------

  function Slots(r: Record): (slots: seq<nat>)
    ensures |slots| == 12
  {
    [r.creationSlot, r.firstApprovalSlot, r.councilApprovedSlot, r.governanceSatisfiedSlot, r.queuedSlot, r.frozenSlot,
     r.extensionExecutedSlot, r.upgradeExecutedSlot, r.programdataVerifiedSlot, r.poststateAcceptedSlot,
     r.unfreezeApprovedSlot, r.terminalSlot]
  }

  /** Any two recorded slots, however many unrecorded ones lie between them, are in order. */
  predicate InOrder(slots: seq<nat>) {
    forall i, j :: 0 <= i < j < |slots| && slots[i] != 0 && slots[j] != 0 ==> slots[i] <= slots[j]
  }

  /** The running comparison with the last recorded slot decides the order of every pair. */
  method CheckOrder(slots: seq<nat>) returns (ok: bool)
    ensures ok <==> InOrder(slots)
  {
    var previous := 0;
    for k := 0 to |slots|
      invariant InOrder(slots[..k])
      invariant forall i :: 0 <= i < k ==> slots[i] <= previous
      invariant previous == 0 || exists i :: 0 <= i < k && slots[i] == previous
    {
      if slots[k] != 0 {
        if slots[k] < previous {
          return false;
        }
        previous := slots[k];
      }
    }
    assert slots[..|slots|] == slots;
    ok := true;
  }

  ghost predicate LifecycleOk(r: Record) {
    && TimingOk(r) && VotesOk(r) && WindowsOk(r) && EndOk(r) && InOrder(Slots(r))
    && exists p: nat :: Progress(r, p)
  }

  // ---------- the validator ----------

  lemma VoteInOrder(r: Record)
    requires InOrder(Slots(r)) && r.firstApprovalSlot != 0 && r.councilApprovedSlot != 0
    ensures r.firstApprovalSlot <= r.councilApprovedSlot
  {
    assert Slots(r)[1] <= Slots(r)[2];
  }

  /** Class, vote counts, cancellation, and the slots up to the queue.  Only unacceptable records are turned
      away, and what is left holds of the rest. */
  method CheckVotes(r: Record) returns (ok: bool)
    requires TimingOk(r)
    ensures LifecycleOk(r) ==> ok
    ensures ok ==>
      && (r.state == Retired ==> r.emergencyRollback) && (r.state == SupersededByRollback ==> !r.emergencyRollback)
      && r.councilApprovals <= APPROVAL_THRESHOLD && r.cancellationApprovals <= APPROVAL_THRESHOLD
      && r.unfreezeApprovals <= APPROVAL_THRESHOLD
      && (r.firstApprovalSlot != 0 <==> r.councilApprovals != 0)
      && (r.councilApprovedSlot != 0 <==> r.councilApprovals == APPROVAL_THRESHOLD)
      && (r.cancellationApprovals != 0 <==> r.cancellationReason != 0)
      && (r.cancellationApprovals == APPROVAL_THRESHOLD <==> r.state == Cancelled)
      && (r.firstApprovalSlot != 0 ==> r.reviewStartSlot <= r.firstApprovalSlot <= r.reviewEndSlot)
      && r.councilApprovedSlot <= r.reviewEndSlot
      && (r.governanceSatisfiedSlot != 0 ==> r.councilApprovedSlot != 0)
        && (r.queuedSlot != 0 ==> r.governanceSatisfiedSlot != 0)
      && r.governanceSatisfiedSlot < r.expirySlot && r.queuedSlot < r.expirySlot
  {
    hide InOrder, Slots;
    if InOrder(Slots(r)) && r.firstApprovalSlot != 0 && r.councilApprovedSlot != 0 { VoteInOrder(r); }
    if (r.state == Retired && !r.emergencyRollback) || (r.state == SupersededByRollback && r.emergencyRollback) {
      return false;
    }
    if r.councilApprovals > APPROVAL_THRESHOLD || r.cancellationApprovals > APPROVAL_THRESHOLD
       || r.unfreezeApprovals > APPROVAL_THRESHOLD {
      return false;
    }
    var cancellationStarted := r.cancellationApprovals != 0;
    if cancellationStarted != (r.cancellationReason != 0) {
      return false;
    }
    if r.state == Cancelled {
      if r.cancellationApprovals != APPROVAL_THRESHOLD || r.terminalReason != r.cancellationReason {
        return false;
      }
    } else if r.cancellationApprovals == APPROVAL_THRESHOLD {
      return false;
    }

    var firstApproval, councilApproved := r.firstApprovalSlot != 0, r.councilApprovedSlot != 0;
    if firstApproval != (r.councilApprovals != 0) || councilApproved != (r.councilApprovals == APPROVAL_THRESHOLD) {
      return false;
    }
    if firstApproval && (r.firstApprovalSlot < r.reviewStartSlot || r.firstApprovalSlot > r.reviewEndSlot
                         || r.firstApprovalSlot >= r.expirySlot) {
      return false;
    }
    if councilApproved && (r.councilApprovedSlot < r.firstApprovalSlot || r.councilApprovedSlot > r.reviewEndSlot
                           || r.councilApprovedSlot >= r.expirySlot) {
      return false;
    }

    var satisfied, queued := r.governanceSatisfiedSlot != 0, r.queuedSlot != 0;
    if (satisfied && !councilApproved) || (queued && !satisfied)
      || (satisfied && r.governanceSatisfiedSlot >= r.expirySlot)
       || (queued && r.queuedSlot >= r.expirySlot) {
      return false;
    }
    ok := true;
  }

  /** The timing, the checks state by state, then the slot loop: together they accept exactly the records
      whose recorded milestones are the first ones, up to where their state stands. */
  method ValidateLifecycle(r: Record) returns (ok: bool)
    ensures ok <==> LifecycleOk(r)
  {
    hide InOrder, Slots;
    if r.creationSlot == 0 || r.creationSlot > r.reviewStartSlot || r.reviewStartSlot >= r.reviewEndSlot
       || r.reviewEndSlot > r.notBeforeSlot || r.notBeforeSlot >= r.expirySlot {
      return false;
    }
    var votes := CheckVotes(r);
    if !votes {
      return false;
    }
    var satisfied, queued := r.governanceSatisfiedSlot != 0, r.queuedSlot != 0;
    var quorum := r.councilApprovals == APPROVAL_THRESHOLD;
    var prefreezeShape;
    match r.state {
      case Draft => prefreezeShape := r.councilApprovals == 0 && !satisfied && !queued;
      case BufferAdopted => prefreezeShape := r.councilApprovals == 0 && !satisfied && !queued;
      case BufferVerified => prefreezeShape := r.councilApprovals < APPROVAL_THRESHOLD && !satisfied && !queued;
      case CouncilApproved => prefreezeShape := quorum && !satisfied && !queued;
      case GovernanceSatisfied => prefreezeShape := quorum && satisfied && !queued;
      case Timelocked => prefreezeShape := quorum && satisfied && queued;
      case Retired => prefreezeShape := quorum && satisfied && queued;
      case Cancelled => prefreezeShape := true;
      case Expired => prefreezeShape := true;
      case TokenReviewOpen => prefreezeShape := false;
      case _ => prefreezeShape := quorum && satisfied && queued;
    }
    if !prefreezeShape {
      return false;
    }

    var upgraded := WasUpgraded(r.state);
    var frozenRequired := r.state == Frozen || r.state == Extended || upgraded;
    if (r.frozenSlot != 0) != frozenRequired
       || (frozenRequired && (r.frozenSlot < r.notBeforeSlot || r.frozenSlot >= r.expirySlot)) {
      return false;
    }
    var extensionRequired := r.extensionDelta != 0;
    var extensionSlotRequired := extensionRequired && (r.state == Extended || upgraded);
    if (r.state == Extended && !extensionRequired) || (r.extensionExecutedSlot != 0) != extensionSlotRequired
       || r.extensionExecutedSlot >= r.expirySlot {
      return false;
    }
    if (r.upgradeExecutedSlot != 0) != upgraded || r.upgradeExecutedSlot >= r.expirySlot
       || (extensionSlotRequired && upgraded && r.extensionExecutedSlot >= r.upgradeExecutedSlot) {
      return false;
    }
    var verifiedRequired := r.state in {ProgramDataVerified, PoststateAccepted, UnfreezeApproved, Completed};
    var verifiedAllowed := verifiedRequired || r.state == SupersededByRollback;
    if (verifiedRequired && r.programdataVerifiedSlot == 0) || (!verifiedAllowed && r.programdataVerifiedSlot != 0) {
      return false;
    }
    var accepted := r.state in {PoststateAccepted, UnfreezeApproved, Completed};
    if (r.poststateAcceptedSlot != 0) != accepted {
      return false;
    }
    var approved := r.state in {UnfreezeApproved, Completed};
    var unfreezeShape := if r.state == PoststateAccepted then r.unfreezeApprovals < APPROVAL_THRESHOLD
                         else if approved then r.unfreezeApprovals == APPROVAL_THRESHOLD
                         else r.unfreezeApprovals == 0;
    if !unfreezeShape || (r.unfreezeApprovedSlot != 0) != approved {
      return false;
    }
    var expectedReason :=
      if r.state == Completed then COMPLETED_REASON
      else if r.state == Cancelled then r.cancellationReason
      else if r.state == Expired then EXPIRED_REASON
      else if r.state == SupersededByRollback then SUPERSEDED_REASON
      else if r.state == Retired then RETIRED_REASON
      else 0;
    if (r.terminalSlot != 0) != (expectedReason != 0) || r.terminalReason != expectedReason
       || (r.state == Cancelled && r.terminalSlot >= r.expirySlot)
         || (r.state == Expired && r.terminalSlot < r.expirySlot) {
      return false;
    }
    ghost var stage := if r.state in {Cancelled, Expired, SupersededByRollback} then Recorded(r) else StageOf(r.state);
    ok := CheckOrder(Slots(r));
    assert Progress(r, stage);
  }

  /** The number of milestones of a state that stands for one. */
  ghost function StageOf(s: State): nat {
    match s
    case CouncilApproved => 1
    case GovernanceSatisfied => 2
    case Timelocked => 3
    case Retired => 3
    case Frozen => 4
    case Extended => 5
    case UpgradeExecuted => 6
    case ProgramDataVerified => 7
    case PoststateAccepted => 8
    case UnfreezeApproved => 9
    case Completed => 9
    case _ => 0
  }

  /** How far the recorded slots reach where the state leaves it open. */
  ghost function Recorded(r: Record): nat {
    if r.programdataVerifiedSlot != 0 then 7 else if r.upgradeExecutedSlot != 0 then 6
    else if r.queuedSlot != 0 then 3 else if r.governanceSatisfiedSlot != 0 then 2
    else if r.councilApprovedSlot != 0 then 1 else 0
  }

  // ---------- what an accepted record says ----------

  /** The whole timeline of a proposal whose upgrade ran: inside the review window for the votes, inside the
      execution window for the freeze and the upgrade, and in this order. */
  lemma UpgradedTimeline(r: Record)
    requires LifecycleOk(r) && WasUpgraded(r.state)
    ensures 0 < r.creationSlot <= r.reviewStartSlot <= r.firstApprovalSlot <= r.councilApprovedSlot <= r.reviewEndSlot
    ensures r.reviewEndSlot <= r.notBeforeSlot <= r.frozenSlot <= r.upgradeExecutedSlot < r.expirySlot
    ensures r.councilApprovedSlot <= r.governanceSatisfiedSlot <= r.queuedSlot <= r.frozenSlot
    ensures r.extensionDelta != 0 ==> r.frozenSlot <= r.extensionExecutedSlot < r.upgradeExecutedSlot
  {
    var s := Slots(r);
    assert s[1] <= s[2];
    assert s[2] <= s[3] <= s[4] <= s[5] <= s[7];
    assert s[6] != 0 ==> s[5] <= s[6];
  }

  lemma CompletedTimeline(r: Record)
    requires LifecycleOk(r) && r.state == Completed
    ensures r.upgradeExecutedSlot <= r.programdataVerifiedSlot <= r.poststateAcceptedSlot
    ensures r.poststateAcceptedSlot <= r.unfreezeApprovedSlot <= r.terminalSlot
    ensures r.councilApprovals == r.unfreezeApprovals == APPROVAL_THRESHOLD
      && r.cancellationApprovals < APPROVAL_THRESHOLD
  {
    var s := Slots(r);
    assert s[7] <= s[8] <= s[9] <= s[10] <= s[11];
  }

  /** The state read back from the slots, the quorum counts and the terminal reason. */
  function StateOf(r: Record): Option<State> {
    if r.cancellationApprovals == APPROVAL_THRESHOLD then Some(Cancelled)
    else if r.frozenSlot != 0 then
      Some(if r.unfreezeApprovedSlot != 0 then (if r.terminalSlot != 0 then Completed else UnfreezeApproved)
           else if r.poststateAcceptedSlot != 0 then PoststateAccepted
           else if r.terminalSlot != 0 then SupersededByRollback
           else if r.programdataVerifiedSlot != 0 then ProgramDataVerified
           else if r.upgradeExecutedSlot != 0 then UpgradeExecuted
           else if r.extensionExecutedSlot != 0 then Extended else Frozen)
    else if r.terminalSlot != 0 then Some(if r.terminalReason == RETIRED_REASON then Retired else Expired)
    else if r.queuedSlot != 0 then Some(Timelocked)
    else if r.governanceSatisfiedSlot != 0 then Some(GovernanceSatisfied)
    else if r.councilApprovedSlot != 0 then Some(CouncilApproved)
    else if r.firstApprovalSlot != 0 then Some(BufferVerified)
    else None
  }

  /** The state field of an accepted record is redundant: the other fields fix it, except that before the
      first approval they do not tell the three buffer states apart. */
  lemma StateIsDetermined(r: Record)
    requires LifecycleOk(r)
    ensures StateOf(r) == if r.state in {Draft, BufferAdopted} || (r.state == BufferVerified && r.councilApprovals == 0)
                          then None else Some(r.state)
  {
    hide InOrder, Slots;
  }

  /** From the freeze on, which slots are recorded is all it takes. */
  lemma FrozenStateFromSlots(a: Record, b: Record)
    requires LifecycleOk(a) && LifecycleOk(b) && a.frozenSlot != 0
    requires forall i :: 5 <= i < 12 ==> (Slots(a)[i] != 0) == (Slots(b)[i] != 0)
    ensures a.state == b.state
  {
    var s, t := Slots(a), Slots(b);
    assert forall i :: 5 <= i < 12 ==> (s[i] != 0) == (t[i] != 0);
    assert (s[5] != 0) == (t[5] != 0) && (s[6] != 0) == (t[6] != 0) && (s[8] != 0) == (t[8] != 0)
      && (s[7] != 0) == (t[7] != 0);
    assert (s[9] != 0) == (t[9] != 0) && (s[10] != 0) == (t[10] != 0) && (s[11] != 0) == (t[11] != 0);
    StateIsDetermined(a);
    StateIsDetermined(b);
  }

  /** The three early states cannot be told apart: a record accepted in one is accepted in the others. */
  lemma EarlyStatesShareAShape(r: Record, s: State)
    requires LifecycleOk(r) && StateOf(r).None? && s in {Draft, BufferAdopted, BufferVerified}
    ensures LifecycleOk(r.(state := s))
  {
    StateIsDetermined(r);
    assert Slots(r.(state := s)) == Slots(r);
    assert Progress(r.(state := s), 0);
  }

  /** Reason and end of an accepted record, state by state. */
  lemma ReasonByState(r: Record)
    requires LifecycleOk(r)
    ensures r.state == Expired ==> r.terminalReason == 1 && r.terminalSlot >= r.expirySlot
    ensures r.state == Completed ==> r.terminalReason == 2 && r.terminalSlot != 0
    ensures r.state == SupersededByRollback ==> r.terminalReason == 3 && r.terminalSlot != 0 && !r.emergencyRollback
    ensures r.state == Retired ==> r.terminalReason == 4 && r.terminalSlot != 0 && r.emergencyRollback
    ensures r.state == Cancelled ==>
      r.terminalReason == r.cancellationReason != 0 && 0 < r.terminalSlot < r.expirySlot && r.cancellationApprovals == 3
    ensures r.state !in {Expired, Completed, SupersededByRollback, Retired, Cancelled} ==>
      r.terminalReason == 0 && r.terminalSlot == 0
  {
    hide InOrder, Slots, Stage, Reached;
  }

  /** Three approvals are a quorum, and no vote has more. */
  lemma QuorumIsThree(r: Record)
    requires LifecycleOk(r)
    ensures r.councilApprovedSlot != 0 <==> r.councilApprovals == 3
    ensures r.unfreezeApprovedSlot != 0 <==> r.unfreezeApprovals == 3
    ensures r.state == Cancelled <==> r.cancellationApprovals == 3
    ensures r.councilApprovals <= 3 && r.unfreezeApprovals <= 3 && r.cancellationApprovals <= 3
  {
    hide InOrder, Slots, Stage, Reached;
  }

  // ---------- there are such records ----------

  /** A routine proposal just created, and one carried through with an extension of 8 bytes. */
  const DRAFT := Record(Draft, false, 0, 0, 0, 0, 0, 8, 1, 1, 5, 6, 20, 0, 0, 0, 0, 0, 0, 0, 0, 0, 0, 0)
  const COMPLETED := Record(Completed, false, 3, 0, 3, 0, COMPLETED_REASON, 8, 1, 1, 5, 6, 20, 2, 3, 4, 5, 7, 8, 9, 10,
    11, 12, 12)

  lemma DraftIsAccepted()
    ensures LifecycleOk(DRAFT) && LifecycleOk(DRAFT.(state := BufferAdopted))
  {
    hide Slots;
    assert Progress(DRAFT, 0);
    DraftSlots();
    EarlyStatesShareAShape(DRAFT, BufferAdopted);
  }

  lemma DraftSlots()
    ensures InOrder(Slots(DRAFT))
  {
  }

  lemma CompletedIsAccepted()
    ensures LifecycleOk(COMPLETED)
  {
    hide Slots;
    assert Progress(COMPLETED, 9);
    CompletedSlots();
  }

  lemma CompletedSlots()
    ensures InOrder(Slots(COMPLETED))
  {
  }
}
