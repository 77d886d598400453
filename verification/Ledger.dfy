/**
 * What each critical section of the evidence store does to its state: an append-only MAC chain
 * per segment, with a receipts index, that can be purged below a sealed boundary.
 */
module Ledger {
  import opened Bytes
  import opened Evidence
  import opened Chain
  import opened Sorting

  datatype StoredRecord = StoredRecord(record: IntentRecord, seqNo: int, prev: Bytes, mac: Bytes, keyId: Id)

  datatype StoredOutcome = StoredOutcome(record: OutcomeRecord, seqNo: int, prev: Bytes, mac: Bytes, keyId: Id)

  datatype SegmentLeaf = SegmentLeaf(seqNo: int, mac: Bytes)

  datatype Store = Store(
    segments: map<Id, seq<StoredRecord>>,
    receipts: map<Id, Receipt>,
    outcomes: map<Id, StoredOutcome>,
    outcomeChain: map<Id, seq<StoredOutcome>>,
    outcomeKeys: set<(Id, Time)>,
    chainAnchor: map<Id, Bytes>,
    purged: map<Id, nat>,
    wormAnchors: map<Id, WormAnchor>,
    tenants: map<Id, Id>,
    openedAt: map<Id, Time>)

  const EMPTY: Store := Store(map[], map[], map[], map[], {}, map[], map[], map[], map[], map[])

  /** `dict.get(key, default)`. */
  function Get<V>(m: map<Id, V>, k: Id, default: V): V { if k in m then m[k] else default }

  /** `dict.setdefault(key, default)`. */
  function SetDefault<V>(m: map<Id, V>, k: Id, default: V): map<Id, V> { if k in m then m else m[k := default] }

  function Live(s: Store, segmentId: Id): seq<StoredRecord> { Get(s.segments, segmentId, []) }

  function PurgedCount(s: Store, segmentId: Id): nat { Get(s.purged, segmentId, 0) }

  function LinkOf(r: StoredRecord): Link {
    Link(r.seqNo, r.prev, r.mac, r.keyId, IntentPayload(r.seqNo, r.prev, r.record))
  }

  function Links(rs: seq<StoredRecord>): (links: seq<Link>)
    ensures |links| == |rs| && forall i :: 0 <= i < |rs| ==> links[i] == LinkOf(rs[i])
  {
    seq(|rs|, i requires 0 <= i < |rs| => LinkOf(rs[i]))
  }

  function OutcomeLinkOf(r: StoredOutcome): Link {
    Link(r.seqNo, r.prev, r.mac, r.keyId, OutcomePayload(r.seqNo, r.prev, r.record))
  }

  function OutcomeLinks(rs: seq<StoredOutcome>): (links: seq<Link>)
    ensures |links| == |rs| && forall i :: 0 <= i < |rs| ==> links[i] == OutcomeLinkOf(rs[i])
  {
    seq(|rs|, i requires 0 <= i < |rs| => OutcomeLinkOf(rs[i]))
  }

  // ---------------------------------------------------------------------------------------
  // Appending
  // ---------------------------------------------------------------------------------------

  function ReceiptOf(r: StoredRecord): Receipt {
    Receipt(r.record.decisionId, r.record.segmentId, r.seqNo, r.mac, r.keyId, r.record.createdAt)
  }

  /** The segment, its tenant and its opening time exist from the first append attempt on. */
  function OpenSegment(s: Store, record: IntentRecord): Store {
    s.(segments := SetDefault(s.segments, record.segmentId, []),
       tenants := SetDefault(s.tenants, record.segmentId, record.tenantId),
       openedAt := SetDefault(s.openedAt, record.segmentId, record.createdAt))
  }

  /** The record that an append makes: numbered, linked to the last live record, and signed. */
  function NextRecord(s: Store, mac: Mac, record: IntentRecord, keyId: Id): StoredRecord {
    var live := Live(s, record.segmentId);
    var seqNo := PurgedCount(s, record.segmentId) + |live|;
    var prev := if live == [] then GENESIS else live[|live| - 1].mac;
    StoredRecord(record, seqNo, prev, mac(keyId, IntentPayload(seqNo, prev, record)), keyId)
  }

  function AppendIntent(s: Store, mac: Mac, record: IntentRecord, signer: Signer):
    (Store, Result<Receipt, EvidenceError>)
  {
    if record.decisionId in s.receipts then (s, Ok(s.receipts[record.decisionId]))
    else if !signer.available then (OpenSegment(s, record), Err(SigningUnavailable))
    else
      var stored := NextRecord(s, mac, record, signer.keyId);
      var started := OpenSegment(s, record);
      (started.(segments := started.segments[record.segmentId := Live(s, record.segmentId) + [stored]],
               receipts := s.receipts[record.decisionId := ReceiptOf(stored)]),
       Ok(ReceiptOf(stored)))
  }

  function OutcomesOf(s: Store, segmentId: Id): seq<StoredOutcome> { Get(s.outcomeChain, segmentId, []) }

  function NextOutcome(s: Store, mac: Mac, segmentId: Id, record: OutcomeRecord, keyId: Id): StoredOutcome {
    var chain := OutcomesOf(s, segmentId);
    var prev := if chain == [] then GENESIS else chain[|chain| - 1].mac;
    StoredOutcome(record, |chain|, prev, mac(keyId, OutcomePayload(|chain|, prev, record)), keyId)
  }

  function AppendOutcome(s: Store, mac: Mac, receipt: Receipt, record: OutcomeRecord, signer: Signer):
    (Store, Result<(), EvidenceError>)
  {
    if receipt.decisionId != record.decisionId then (s, Err(DecisionMismatch))
    else if receipt.decisionId !in s.receipts then (s, Err(UnknownReceipt))
    else if (record.decisionId, record.completedAt) in s.outcomeKeys then (s, Ok(()))
    else if !signer.available then
      (s.(outcomeChain := SetDefault(s.outcomeChain, receipt.segmentId, [])), Err(SigningUnavailable))
    else
      var stored := NextOutcome(s, mac, receipt.segmentId, record, signer.keyId);
      (s.(outcomeChain := s.outcomeChain[receipt.segmentId := OutcomesOf(s, receipt.segmentId) + [stored]],
          outcomes := s.outcomes[record.decisionId := stored],
          outcomeKeys := s.outcomeKeys + {(record.decisionId, record.completedAt)}),
       Ok(()))
  }

  /** The outcome last recorded for a decision. */
  function OutcomeFor(s: Store, decisionId: Id): Option<OutcomeRecord> {
    if decisionId in s.outcomes then Some(s.outcomes[decisionId].record) else None
  }

  // ---------------------------------------------------------------------------------------
  // Verifying
  // ---------------------------------------------------------------------------------------

  /** The link that the first live record must carry. */
  function ExpectedPrev(s: Store, segmentId: Id): Bytes {
    if PurgedCount(s, segmentId) > 0 then Get(s.chainAnchor, segmentId, GENESIS) else GENESIS
  }

  function VerifyIntents(s: Store, mac: Mac, signer: Signer, segmentId: Id): Verdict {
    if segmentId !in s.segments then Verdict(Unverifiable, 0, None)
    else
      var v := Walk(mac, signer, Links(s.segments[segmentId]), PurgedCount(s, segmentId), ExpectedPrev(s, segmentId));
      if v.status == Intact && PurgedCount(s, segmentId) > 0 && segmentId in s.chainAnchor
      then v.(status := SealedPurged)
      else v
  }

  function VerifyOutcomes(s: Store, mac: Mac, signer: Signer, segmentId: Id): Verdict {
    Walk(mac, signer, OutcomeLinks(OutcomesOf(s, segmentId)), 0, GENESIS)
  }

  // ---------------------------------------------------------------------------------------
  // Retention
  // ---------------------------------------------------------------------------------------

  /** How many leading records lie below `beforeSeq`. */
  function KeepFrom(live: seq<StoredRecord>, beforeSeq: int): (n: nat)
    ensures n <= |live|
    ensures forall i :: 0 <= i < n ==> live[i].seqNo < beforeSeq
    ensures n < |live| ==> live[n].seqNo >= beforeSeq
  {
    if live == [] || live[0].seqNo >= beforeSeq then 0 else 1 + KeepFrom(live[1..], beforeSeq)
  }

  function DecisionIds(rs: seq<StoredRecord>): set<Id> {
    if rs == [] then {} else DecisionIds(rs[..|rs| - 1]) + {rs[|rs| - 1].record.decisionId}
  }

  function SealAndPurge(s: Store, segmentId: Id, beforeSeq: int): (Store, nat) {
    var live := Live(s, segmentId);
    var n := KeepFrom(live, beforeSeq);
    if n == 0 then (s, 0)
    else
      (s.(receipts := s.receipts - DecisionIds(live[..n]),
          outcomes := s.outcomes - DecisionIds(live[..n]),
          segments := s.segments[segmentId := live[n..]],
          chainAnchor := s.chainAnchor[segmentId := live[n - 1].mac],
          purged := s.purged[segmentId := PurgedCount(s, segmentId) + n]),
       n)
  }

  function SegmentState(s: Store, segmentId: Id): Result<Option<EvidenceSegment>, EvidenceError> {
    if segmentId !in s.segments then Ok(None)
    else
      var started := Get(s.openedAt, segmentId, 0.0);
      var state := EvidenceSegment(
        segmentId, Get(s.tenants, segmentId, "unknown"), if started == 0.0 then 1.0 else started,
        PurgedCount(s, segmentId),
        if segmentId in s.wormAnchors then Some(s.wormAnchors[segmentId]) else None);
      if state.Valid() then Ok(Some(state)) else Err(InvalidRange)
  }

  predicate SeqAtMost(a: StoredRecord, b: StoredRecord) { a.seqNo <= b.seqNo }

  function SortBySeq(rs: seq<StoredRecord>): seq<StoredRecord> { Sort(SeqAtMost, rs) }

  function LeavesBefore(rs: seq<StoredRecord>, beforeSeq: Option<int>): seq<SegmentLeaf> {
    if rs == [] then []
    else
      (if beforeSeq.None? || rs[0].seqNo < beforeSeq.value then [SegmentLeaf(rs[0].seqNo, rs[0].mac)] else []) +
      LeavesBefore(rs[1..], beforeSeq)
  }

  lemma NoLeaves(beforeSeq: Option<int>)
    ensures LeavesBefore([], beforeSeq) == []
  {
  }

  lemma LeavesFrom(rs: seq<StoredRecord>, beforeSeq: Option<int>, i: nat)
    requires i < |rs|
    ensures LeavesBefore(rs[i..], beforeSeq) ==
            (if beforeSeq.None? || rs[i].seqNo < beforeSeq.value then [SegmentLeaf(rs[i].seqNo, rs[i].mac)] else []) +
            LeavesBefore(rs[i + 1..], beforeSeq)
  {
    assert rs[i..][1..] == rs[i + 1..];
  }

  function SegmentLeaves(s: Store, segmentId: Id, beforeSeq: Option<int>): seq<SegmentLeaf> {
    LeavesBefore(SortBySeq(Live(s, segmentId)), beforeSeq)
  }

  function MarkSealed(s: Store, segmentId: Id, anchor: WormAnchor): (Store, Result<(), EvidenceError>) {
    if segmentId !in s.segments then (s, Err(SegmentNotFound))
    else (s.(wormAnchors := s.wormAnchors[segmentId := anchor]), Ok(()))
  }

  /** The check that precedes a deletion; it runs in a critical section of its own. */
  predicate PurgeAllowed(s: Store, segmentId: Id, beforeSeq: int) {
    segmentId in s.wormAnchors && s.wormAnchors[segmentId].lastSeq == beforeSeq - 1
  }

  function PurgeBefore(s: Store, segmentId: Id, beforeSeq: int): (Store, Result<nat, EvidenceError>) {
    if !PurgeAllowed(s, segmentId, beforeSeq) then (s, Err(UnanchoredRange))
    else
      var (s', n) := SealAndPurge(s, segmentId, beforeSeq);
      (s', Ok(n))
  }

  predicate HasReceipt(s: Store, receipt: Receipt) {
    receipt.decisionId in s.receipts && s.receipts[receipt.decisionId] == receipt
  }
}
