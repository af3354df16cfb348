/** The digests of the ceremony accounts: what each one leaves out of its fixed image. */
module CeremonyDigests {
  import opened ByteStrings
  import opened SchemaCodec

  datatype AccountDigest =
    | CapacityPolicy | ControllerRelease | ProgramDataObservation | CurrentDeployment | DeploymentPlan
    | ControllerImmutability | HandoffProposal | HandoffReceipt | ActivationProposal | ActivationReceipt
    | ActivationReceiptPlan

  function StoredDigest(name: string): Field<string> {
    Field(name, Raw(32))
  }

  function Lifecycle(): seq<Field<string>> {
    [Field("state", U8), Field("approvalBitset", U8), Field("approvalCount", U8), Field("firstApprovalSlot", U64),
     Field("councilApprovedSlot", U64), Field("queuedSlot", U64), Field("executedSlot", U64),
       Field("terminalSlot", U64),
     Field("terminalReasonCode", U16), StoredDigest("proposalDigest")]
  }

  /** The excluded fields of each digest, with the kinds its schema gives them. */
  function ExcludedFields(digest: AccountDigest): seq<Field<string>> {
    match digest
    case CapacityPolicy => [StoredDigest("policyDigest"), Field("creationSlot", U64)]
    case ControllerRelease => [StoredDigest("releaseDigest"), Field("creationSlot", U64)]
    case ProgramDataObservation => [StoredDigest("observationDigest")]
    case CurrentDeployment => [StoredDigest("deploymentDigest")]
    case DeploymentPlan => [StoredDigest("deploymentDigest"), Field("lastUpdatedSlot", U64)]
    case ControllerImmutability => [StoredDigest("receiptDigest")]
    case HandoffProposal => Lifecycle()
    case HandoffReceipt => [StoredDigest("receiptDigest")]
    case ActivationProposal => Lifecycle()
    case ActivationReceipt => [StoredDigest("receiptDigest")]
    case ActivationReceiptPlan => [StoredDigest("currentDeploymentDigest"), Field("finalizedSlot", U64),
      StoredDigest("receiptDigest")]
  }

  ghost function Excluded(digest: AccountDigest): set<string> {
    set f | f in ExcludedFields(digest) :: f.name
  }

  /** No digest of the ceremony excludes an optional key: each is defined on every record whose other
      fields encode. */
  lemma OwnDigestsAreDefined(
    h: HashFn, domain: Bytes, digest: AccountDigest, record: Record<string>, schema: seq<Field<string>>)
    requires DistinctNames(schema) && forall f :: f in ExcludedFields(digest) ==> f in schema
    ensures FixedImageDigest(h, domain, record, schema, Excluded(digest)).Some?
      <==> forall i :: 0 <= i < |schema| && schema[i].name !in Excluded(digest) ==>
             EncodeField(schema[i].kind, Get(record, schema[i].name)).Some?
  {
    hide FixedImageDigest, EncodeField;
    DigestDefinedIff(h, domain, record, schema, Excluded(digest));
    forall i | 0 <= i < |schema| && schema[i].name in Excluded(digest) ensures !schema[i].kind.OptionalKey? {
      var f :| f in ExcludedFields(digest) && f.name == schema[i].name;
      assert f == schema[i] by {
        var j :| 0 <= j < |schema| && schema[j] == f;
        hide ExcludedFields;
      }
      NoneOptional(digest, f);
    }
  }

  lemma NoneOptional(digest: AccountDigest, f: Field<string>)
    requires f in ExcludedFields(digest)
    ensures !f.kind.OptionalKey?
  {
  }

  /** Excluding an optional key, the one field of this schema, leaves no record with a digest. */
  lemma OptionalKeyCannotBeExcluded(h: HashFn, domain: Bytes, record: Record<string>)
    ensures var schema := [Field("preImmutabilityAuthority", OptionalKey)];
      FixedImageDigest(h, domain, record, schema, {"preImmutabilityAuthority"}) == None
  {
    hide FixedImageDigest;
    var schema := [Field("preImmutabilityAuthority", OptionalKey)];
    assert schema[0].name in {"preImmutabilityAuthority"};
    DigestDefinedIff(h, domain, record, schema, {"preImmutabilityAuthority"});
  }
}
