/** The in-memory evidence store, which updates its dictionaries in place under a lock. */
module EvidenceStore {
  import opened Bytes
  import opened Evidence
  import opened Chain
  import opened Ledger

  /** The length of the prefix below `beforeSeq`, and the code of its last record. */
  method FindKeepFrom(segment: seq<StoredRecord>, beforeSeq: int) returns (keepFrom: nat, anchor: Option<Bytes>)
    ensures keepFrom == KeepFrom(segment, beforeSeq)
    ensures anchor == if keepFrom == 0 then None else Some(segment[keepFrom - 1].mac)
  {
    keepFrom, anchor := 0, None;
    while keepFrom < |segment| && segment[keepFrom].seqNo < beforeSeq
      invariant keepFrom <= |segment|
      invariant KeepFrom(segment, beforeSeq) == keepFrom + KeepFrom(segment[keepFrom..], beforeSeq)
      invariant anchor == if keepFrom == 0 then None else Some(segment[keepFrom - 1].mac)
    {
      assert segment[keepFrom..][1..] == segment[keepFrom + 1..];
      anchor := Some(segment[keepFrom].mac);
      keepFrom := keepFrom + 1;
    }
  }

  method CollectLeaves(records: seq<StoredRecord>, beforeSeq: Option<int>) returns (leaves: seq<SegmentLeaf>)
    ensures leaves == LeavesBefore(records, beforeSeq)
  {
    hide LeavesBefore;
    leaves := [];
    NoLeaves(beforeSeq);
    assert records[0..] == records && records[|records|..] == [];
    for i := 0 to |records|
      invariant LeavesBefore(records, beforeSeq) == leaves + LeavesBefore(records[i..], beforeSeq)
    {
      ghost var rest := LeavesBefore(records[i + 1..], beforeSeq);
      LeavesFrom(records, beforeSeq, i);
      if beforeSeq.None? || records[i].seqNo < beforeSeq.value {
        var leaf := SegmentLeaf(records[i].seqNo, records[i].mac);
        assert leaves + ([leaf] + rest) == (leaves + [leaf]) + rest;
        leaves := leaves + [leaf];
      } else {
        assert [] + rest == rest;
      }
    }
  }

  /** The verification loop, from the first expected number and code on. */
  method WalkRecords(mac: Mac, signer: Signer, segment: seq<StoredRecord>, gone: nat,
                     anchor: Bytes) returns (v: Verdict)
    ensures v == Walk(mac, signer, Links(segment), gone, anchor)
  {
    var expectedSeq, expectedPrev := gone, anchor;
    ghost var links := Links(segment);
    for i := 0 to |segment|
      invariant expectedSeq == gone + i
      invariant Walk(mac, signer, links, gone, anchor) ==
                  Shift(Walk(mac, signer, links[i..], expectedSeq, expectedPrev), i)
    {
      var stored := segment[i];
      assert links[i..][0] == LinkOf(stored) && links[i..][1..] == links[i + 1..];
      if stored.seqNo != expectedSeq { return Verdict(Broken, expectedSeq - gone, Some(stored.seqNo)); }
      if stored.prev != expectedPrev { return Verdict(Broken, expectedSeq - gone, Some(stored.seqNo)); }
      if !signer.CanVerify(stored.keyId) { return Verdict(Unverifiable, expectedSeq - gone, None); }
      if stored.mac != mac(stored.keyId, IntentPayload(stored.seqNo, stored.prev, stored.record)) {
        return Verdict(Broken, expectedSeq - gone, Some(stored.seqNo));
      }
      expectedPrev := stored.mac;
      expectedSeq := expectedSeq + 1;
    }
    return Verdict(Intact, |segment|, None);
  }

  class InMemoryEvidenceStore {
    const mac: Mac

    var segments: map<Id, seq<StoredRecord>>
    var receipts: map<Id, Receipt>
    var outcomes: map<Id, StoredOutcome>
    var outcomeChain: map<Id, seq<StoredOutcome>>
    var outcomeKeys: set<(Id, Time)>
    var chainAnchor: map<Id, Bytes>
    var purged: map<Id, nat>
    var wormAnchors: map<Id, WormAnchor>
    var tenants: map<Id, Id>
    var openedAt: map<Id, Time>

    ghost function View(): Store
      reads this
    {
      Store(segments, receipts, outcomes, outcomeChain, outcomeKeys, chainAnchor, purged, wormAnchors, tenants,
            openedAt)
    }

    constructor (mac: Mac)
      ensures View() == EMPTY && this.mac == mac
    {
      this.mac := mac;
      segments, receipts, outcomes, outcomeChain, outcomeKeys := map[], map[], map[], map[], {};
      chainAnchor, purged, wormAnchors, tenants, openedAt := map[], map[], map[], map[], map[];
    }

    /** The three `setdefault` calls that precede every append. */
    method EnsureSegment(record: IntentRecord)
      modifies this`segments, this`tenants, this`openedAt
      ensures View() == OpenSegment(old(View()), record)
    {
      var id := record.segmentId;
      if id !in segments { segments := segments[id := []]; }
      if id !in tenants { tenants := tenants[id := record.tenantId]; }
      if id !in openedAt { openedAt := openedAt[id := record.createdAt]; }
    }

    method AppendIntent(record: IntentRecord, signer: Signer) returns (r: Result<Receipt, EvidenceError>)
      modifies this
      ensures View() == Ledger.AppendIntent(old(View()), mac, record, signer).0
      ensures r == Ledger.AppendIntent(old(View()), mac, record, signer).1
    {
      if record.decisionId in receipts { return Ok(receipts[record.decisionId]); }
      ghost var before := View();
      var id := record.segmentId;
      EnsureSegment(record);
      var segment := segments[id];
      var seqNo := (if id in purged then purged[id] else 0) + |segment|;
      var prev := if segment != [] then segment[|segment| - 1].mac else GENESIS;
      if !signer.available { return Err(SigningUnavailable); }
      var code := mac(signer.keyId, IntentPayload(seqNo, prev, record));
      var stored := StoredRecord(record, seqNo, prev, code, signer.keyId);
      assert stored == NextRecord(before, mac, record, signer.keyId);
      segments := segments[id := segment + [stored]];
      var receipt := Receipt(record.decisionId, id, seqNo, code, signer.keyId, record.createdAt);
      receipts := receipts[record.decisionId := receipt];
      return Ok(receipt);
    }

    method AppendOutcome(receipt: Receipt, record: OutcomeRecord, signer: Signer) returns (r: Result<(), EvidenceError>)
      modifies this
      ensures View() == Ledger.AppendOutcome(old(View()), mac, receipt, record, signer).0
      ensures r == Ledger.AppendOutcome(old(View()), mac, receipt, record, signer).1
    {
      if receipt.decisionId != record.decisionId { return Err(DecisionMismatch); }
      if receipt.decisionId !in receipts { return Err(UnknownReceipt); }
      var key := (record.decisionId, record.completedAt);
      if key in outcomeKeys { return Ok(()); }
      var id := receipt.segmentId;
      if id !in outcomeChain { outcomeChain := outcomeChain[id := []]; }
      var chain := outcomeChain[id];
      var seqNo := |chain|;
      var prev := if chain != [] then chain[|chain| - 1].mac else GENESIS;
      if !signer.available { return Err(SigningUnavailable); }
      var code := mac(signer.keyId, OutcomePayload(seqNo, prev, record));
      var stored := StoredOutcome(record, seqNo, prev, code, signer.keyId);
      outcomeChain := outcomeChain[id := chain + [stored]];
      assert outcomeChain == old(outcomeChain)[id := chain + [stored]];
      outcomes := outcomes[record.decisionId := stored];
      outcomeKeys := outcomeKeys + {key};
      return Ok(());
    }

    method Verify(segmentId: Id, signer: Signer) returns (intents: Verdict, outcomeVerdict: Verdict)
      ensures intents == VerifyIntents(View(), mac, signer, segmentId)
      ensures outcomeVerdict == VerifyOutcomes(View(), mac, signer, segmentId)
    {
      outcomeVerdict := VerifyOutcomeChain(segmentId, signer);
      if segmentId !in segments { return Verdict(Unverifiable, 0, None), outcomeVerdict; }
      var gone := if segmentId in purged then purged[segmentId] else 0;
      var anchor := if gone > 0 && segmentId in chainAnchor then chainAnchor[segmentId] else GENESIS;
      intents := WalkRecords(mac, signer, segments[segmentId], gone, anchor);
      if intents.status == Intact && gone > 0 && segmentId in chainAnchor {
        intents := intents.(status := SealedPurged);
      }
    }

    method VerifyOutcomeChain(segmentId: Id, signer: Signer) returns (v: Verdict)
      ensures v == VerifyOutcomes(View(), mac, signer, segmentId)
    {
      var chain := if segmentId in outcomeChain then outcomeChain[segmentId] else [];
      var expectedSeq, expectedPrev, checked := 0, GENESIS, 0;
      ghost var links := OutcomeLinks(chain);
      for i := 0 to |chain|
        invariant expectedSeq == checked == i
        invariant Walk(mac, signer, links, 0, GENESIS) ==
                  Shift(Walk(mac, signer, links[i..], expectedSeq, expectedPrev), i)
      {
        var stored := chain[i];
        assert links[i..][0] == OutcomeLinkOf(stored) && links[i..][1..] == links[i + 1..];
        if stored.seqNo != expectedSeq || stored.prev != expectedPrev {
          return Verdict(Broken, checked, Some(stored.seqNo));
        }
        if !signer.CanVerify(stored.keyId) { return Verdict(Unverifiable, checked, None); }
        if stored.mac != mac(stored.keyId, OutcomePayload(stored.seqNo, stored.prev, stored.record)) {
          return Verdict(Broken, checked, Some(stored.seqNo));
        }
        expectedPrev := stored.mac;
        expectedSeq := expectedSeq + 1;
        checked := checked + 1;
      }
      return Verdict(Intact, checked, None);
    }

    /** Drop the receipts and outcomes of purged records. */
    method ForgetDecisions(records: seq<StoredRecord>)
      modifies this`receipts, this`outcomes
      ensures receipts == old(receipts) - DecisionIds(records)
      ensures outcomes == old(outcomes) - DecisionIds(records)
    {
      for i := 0 to |records|
        invariant receipts == old(receipts) - DecisionIds(records[..i])
        invariant outcomes == old(outcomes) - DecisionIds(records[..i])
      {
        assert records[..i + 1][..i] == records[..i];
        receipts := receipts - {records[i].record.decisionId};
        outcomes := outcomes - {records[i].record.decisionId};
      }
      assert records[..|records|] == records;
    }

    method SealAndPurge(segmentId: Id, beforeSeq: int) returns (count: nat)
      modifies this
      ensures View() == Ledger.SealAndPurge(old(View()), segmentId, beforeSeq).0
      ensures count == Ledger.SealAndPurge(old(View()), segmentId, beforeSeq).1
    {
      hide KeepFrom, DecisionIds;
      var segment := if segmentId in segments then segments[segmentId] else [];
      ghost var before := View();
      assert segment == Live(before, segmentId);
      var keepFrom, anchor := FindKeepFrom(segment, beforeSeq);
      if anchor.None? { return 0; }
      ForgetDecisions(segment[..keepFrom]);
      segments := segments[segmentId := segment[keepFrom..]];
      chainAnchor := chainAnchor[segmentId := anchor.value];
      purged := purged[segmentId := (if segmentId in purged then purged[segmentId] else 0) + keepFrom];
      return keepFrom;
    }

    method GetOutcome(decisionId: Id) returns (o: Option<OutcomeRecord>)
      ensures o == OutcomeFor(View(), decisionId)
    {
      return if decisionId in outcomes then Some(outcomes[decisionId].record) else None;
    }

    method GetSegmentState(segmentId: Id) returns (r: Result<Option<EvidenceSegment>, EvidenceError>)
      ensures r == SegmentState(View(), segmentId)
    {
      if segmentId !in segments { return Ok(None); }
      var started := if segmentId in openedAt then openedAt[segmentId] else 0.0;
      var state := EvidenceSegment(
        segmentId, if segmentId in tenants then tenants[segmentId] else "unknown",
        if started == 0.0 then 1.0 else started, if segmentId in purged then purged[segmentId] else 0,
        if segmentId in wormAnchors then Some(wormAnchors[segmentId]) else None);
      return if state.Valid() then Ok(Some(state)) else Err(InvalidRange);
    }

    method GetSegmentLeaves(segmentId: Id, beforeSeq: Option<int>) returns (leaves: seq<SegmentLeaf>)
      ensures leaves == SegmentLeaves(View(), segmentId, beforeSeq)
    {
      leaves := CollectLeaves(SortBySeq(if segmentId in segments then segments[segmentId] else []), beforeSeq);
    }

    method MarkSealed(segmentId: Id, anchor: WormAnchor) returns (r: Result<(), EvidenceError>)
      modifies this
      ensures View() == Ledger.MarkSealed(old(View()), segmentId, anchor).0
      ensures r == Ledger.MarkSealed(old(View()), segmentId, anchor).1
    {
      if segmentId !in segments { return Err(SegmentNotFound); }
      wormAnchors := wormAnchors[segmentId := anchor];
      return Ok(());
    }

    method PurgeBefore(segmentId: Id, beforeSeq: int) returns (r: Result<nat, EvidenceError>)
      modifies this
      ensures View() == Ledger.PurgeBefore(old(View()), segmentId, beforeSeq).0
      ensures r == Ledger.PurgeBefore(old(View()), segmentId, beforeSeq).1
    {
      if segmentId !in wormAnchors || wormAnchors[segmentId].lastSeq != beforeSeq - 1 { return Err(UnanchoredRange); }
      var n := SealAndPurge(segmentId, beforeSeq);
      return Ok(n);
    }

    method CheckReceipt(receipt: Receipt) returns (ok: bool)
      ensures ok <==> HasReceipt(View(), receipt)
    {
      ok := receipt.decisionId in receipts && receipts[receipt.decisionId] == receipt;
    }
  }
}
