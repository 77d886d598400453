/**
 * Evidence value objects: what is recorded, what is signed, and when a sealed range is well formed.
 *
 * Canonical JSON is modelled as an injective encoding: a `Payload` stands for its own bytes.
 */
module Evidence {
  import opened Bytes
  import opened Text

  type Id = string

  type Time = real

  /** Chain seed for the first record of a segment. */
  const GENESIS: Bytes := ZEROS

  datatype Effect = Deny | RequireApproval | Allow

  /** `body` stands for the fields that no rule here reads. */
  datatype IntentRecord = IntentRecord(
    decisionId: Id, segmentId: Id, tenantId: Id, createdAt: Time, effect: Effect, body: Bytes)

  datatype OutcomeRecord = OutcomeRecord(decisionId: Id, completedAt: Time, body: Bytes)

  /** The canonical bytes that are signed, for intents, outcomes and anchors. */
  datatype Payload =
    | IntentPayload(seqNo: int, prev: Bytes, intent: IntentRecord)
    | OutcomePayload(seqNo: int, prev: Bytes, outcome: OutcomeRecord)
    | AnchorPayload(anchorId: Id, segmentId: Id, tenantId: Id, merkleRoot: Bytes, treeSize: int,
                    firstSeq: int, lastSeq: int, sealedAt: Time)

  /** A keyed MAC: the code of a payload under the key with this id. */
  type Mac = (Id, Payload) -> Bytes

  /** The signer as one call finds it: the signing key, the keys it can verify under, and whether it answers. */
  datatype Signer = Signer(keyId: Id, known: set<Id>, available: bool) {
    predicate CanVerify(k: Id) { available && k in known }
  }

  datatype Receipt = Receipt(decisionId: Id, segmentId: Id, seqNo: int, mac: Bytes, keyId: Id, persistedAt: Time)

  datatype EvidenceError =
    | SigningUnavailable
    | SegmentNotFound
    | NothingToSeal
    | UnanchoredRange
    | WriteOnceConflict
    | UnknownReceipt
    | DecisionMismatch
    | SequenceGap
    | AnchorUnverifiable
    | InvalidRange

  /** Errors of the evidence-write family, which callers of the sealer catch. */
  predicate IsWriteError(e: EvidenceError) {
    e.SegmentNotFound? || e.NothingToSeal? || e.UnanchoredRange? || e.WriteOnceConflict? || e.UnknownReceipt?
  }

  datatype WormAnchor = WormAnchor(
    anchorId: Id, segmentId: Id, tenantId: Id, merkleRoot: Bytes, treeSize: int,
    firstSeq: int, lastSeq: int, sealedAt: Time, rootSignature: Bytes, keyId: Id)
  {
    /** The sequence-range rules of the constructor. */
    predicate Valid() { 0 <= firstSeq <= lastSeq && treeSize == lastSeq - firstSeq + 1 }

    function SigningPayload(): Payload {
      AnchorPayload(anchorId, segmentId, tenantId, merkleRoot, treeSize, firstSeq, lastSeq, sealedAt)
    }

    predicate Covers(seqNo: int) { firstSeq <= seqNo <= lastSeq }
  }

  /** `f"{segment_id}:{first_seq}-{last_seq}"`. */
  function AnchorId(segmentId: Id, firstSeq: nat, lastSeq: nat): Id {
    segmentId + ":" + Decimal(firstSeq) + "-" + Decimal(lastSeq)
  }

  /** An anchor id names one range of one segment, whatever characters the segment id contains. */
  lemma AnchorIdInjective(s: Id, f: nat, l: nat, s': Id, f': nat, l': nat)
    requires AnchorId(s, f, l) == AnchorId(s', f', l')
    ensures s == s' && f == f' && l == l'
  {
    var range, range' := Decimal(f) + "-" + Decimal(l), Decimal(f') + "-" + Decimal(l');
    assert AnchorId(s, f, l) == s + [':'] + range && AnchorId(s', f', l') == s' + [':'] + range';
    SplitAtLast(s, range, s', range', ':');
    SplitAtLast(Decimal(f), Decimal(l), Decimal(f'), Decimal(l'), '-');
    DecimalInjective(f, f');
    DecimalInjective(l, l');
  }

  /** A segment as the retention policy sees it; `seal` holds sealed_at and last_seq of the current anchor. */
  datatype EvidenceSegment = EvidenceSegment(
    segmentId: Id, tenantId: Id, openedAt: Time, firstSeq: nat, seal: Option<WormAnchor>)
  {
    /** `first_seq == last_seq + 1` is the fully purged case. */
    predicate Valid() {
      seal.Some? ==> seal.value.sealedAt >= openedAt && seal.value.lastSeq >= firstSeq - 1
    }
  }
}
