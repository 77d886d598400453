/**
 * What the operations of the evidence store return and leave, told by the history.
 *
 * Every statement is about a state that some run reaches, and gives all cases of the operation.
 */
module StoreAudit {
  import opened Bytes
  import opened Evidence
  import opened Chain
  import opened Ledger
  import opened Merkle
  import opened Sealing
  import opened Retention
  import opened Audit
  import opened OutcomeAudit
  import opened PurgeAudit
  import Scheduling
  import SR = ScheduleRuns

  // ---------------------------------------------------------------------------------------
  // A segment's tenant and opening time
  // ---------------------------------------------------------------------------------------

  /** A segment has both from the moment it is opened. */
  ghost predicate Opened(w: World) {
    w.store.segments.Keys == w.hist.Keys && w.store.tenants.Keys == w.hist.Keys && w.store.openedAt.Keys == w.hist.Keys
  }

  lemma AppendOpens(w: World, mac: Mac, record: IntentRecord, signer: Signer)
    requires Opened(w)
    ensures Opened(AppendStep(w, mac, record, signer))
  {
    hide NextRecord, ReceiptOf, LinkOf;
  }

  lemma OtherOpens(w: World, mac: Mac, h: Hash, a: Action)
    requires Opened(w) && !a.Append?
    ensures Opened(Step(w, mac, h, a))
  {
    hide OutcomeStep, PurgeDeleteStep, PrepareAnchor, CoveringAnchor, Find, SegmentState;
    if a.Outcome? { OutcomeOpens(w, mac, a.receipt, a.outcome, a.signer); }
    if a.PurgeDelete? { PurgeOpens(w, a.segmentId, a.beforeSeq); }
  }

  lemma OutcomeOpens(w: World, mac: Mac, receipt: Receipt, outcome: OutcomeRecord, signer: Signer)
    requires Opened(w)
    ensures Opened(OutcomeStep(w, mac, receipt, outcome, signer))
  {
    hide NextOutcome;
  }

  lemma PurgeOpens(w: World, id: Id, before: int)
    requires Opened(w)
    ensures Opened(PurgeDeleteStep(w, id, before))
  {
    hide DecisionIds;
    if KeepFrom(Live(w.store, id), before) > 0 { assert id in w.store.segments; }
  }

  lemma {:induction false} RunOpens(trace: seq<World>, mac: Mac, h: Hash, i: nat)
    requires IsTrace(trace, mac, h) && i < |trace|
    ensures Opened(trace[i])
  {
    if i > 0 {
      hide AppendStep, Opened;
      var j := i - 1;
      RunOpens(trace, mac, h, j);
      assert Next(trace[j], trace[j + 1], mac, h);
      var a :| trace[i] == Step(trace[j], mac, h, a);
      if a.Append? { AppendOpens(trace[j], mac, a.record, a.signer); } else { OtherOpens(trace[j], mac, h, a); }
    }
  }

  lemma ReachableIsOpened(w: World, mac: Mac, h: Hash)
    requires Reachable(w, mac, h)
    ensures Opened(w)
  {
    hide Opened, Next;
    var trace :| IsTrace(trace, mac, h) && trace[|trace| - 1] == w;
    RunOpens(trace, mac, h, |trace| - 1);
  }

  // ---------------------------------------------------------------------------------------
  // Appending an intent
  // ---------------------------------------------------------------------------------------

  /** The code the next record must link to. */
  function LastCode(live: seq<StoredRecord>): Bytes { if live == [] then GENESIS else live[|live| - 1].mac }

  /** The first attempt to append names the tenant and the opening time, and later ones do not change them. */
  ghost predicate Names(s: Store, s': Store, known: bool, record: IntentRecord) {
    && s'.tenants == (if known then s.tenants else s.tenants[record.segmentId := record.tenantId])
    && s'.openedAt == (if known then s.openedAt else s.openedAt[record.segmentId := record.createdAt])
  }

  /** What an append returns and leaves, with the number it gives out. */
  ghost predicate Appends(s: Store, s': Store, mac: Mac, record: IntentRecord, signer: Signer, n: int, known: bool,
                          r: Result<Receipt, EvidenceError>)
  {
    var id, d, live := record.segmentId, record.decisionId, Live(s, record.segmentId);
    var code := mac(signer.keyId, IntentPayload(n, LastCode(live), record));
    if d in s.receipts then s' == s && r == Ok(s.receipts[d])
    else
      && Names(s, s', known, record) && id in s'.segments
      && (forall k :: k != id ==> Live(s', k) == Live(s, k))
      && if !signer.available then r == Err(SigningUnavailable) && s'.receipts == s.receipts && Live(s', id) == live
         else
           && r == Ok(Receipt(d, id, n, code, signer.keyId, record.createdAt))
           && s'.receipts == s.receipts[d := r.value]
           && Live(s', id) == live + [StoredRecord(record, n, LastCode(live), code, signer.keyId)]
  }

  lemma AppendTells(s: Store, mac: Mac, record: IntentRecord, signer: Signer)
    requires record.segmentId in s.tenants <==> record.segmentId in s.openedAt
    ensures var (s', r) := AppendIntent(s, mac, record, signer);
            var n := PurgedCount(s, record.segmentId) + |Live(s, record.segmentId)|;
            Appends(s, s', mac, record, signer, n, record.segmentId in s.tenants, r)
  {
  }

  /**
   * Appending an intent, exactly. A known decision gets its old receipt and leaves no trace. A new one
   * is numbered by the length of the history, linked, signed with the current key, and its receipt says
   * so; without a signature nothing is written, though the segment is open from then on.
   */
  lemma AppendExactly(w: World, mac: Mac, h: Hash, record: IntentRecord, signer: Signer)
    requires Reachable(w, mac, h)
    ensures var (s', r) := AppendIntent(w.store, mac, record, signer);
            var id := record.segmentId;
            Appends(w.store, s', mac, record, signer, |Get(w.hist, id, [])|, id in w.hist, r)
  {
    hide Reachable, AppendIntent, Appends;
    ReachableIsOpened(w, mac, h);
    ReachableLength(w, mac, h, record.segmentId);
    AppendTells(w.store, mac, record, signer);
  }

  lemma ReachableLength(w: World, mac: Mac, h: Hash, id: Id)
    requires Reachable(w, mac, h)
    ensures PurgedCount(w.store, id) + |Live(w.store, id)| == |Get(w.hist, id, [])|
  {
    ReachableKeeps(w, mac, h);
    assert SegmentAt(mac, w.store, w.hist, w.emptied, id);
  }

  // ---------------------------------------------------------------------------------------
  // Sealing
  // ---------------------------------------------------------------------------------------

  /** Where the range of a seal below a boundary ends. */
  function SealEnd(hist: seq<StoredRecord>, before: int): int { if before < |hist| then before else |hist| }

  /** Another seal of the same range, of another time or key, is stored already. */
  ghost predicate Conflicts(anchors: Anchors, id: Id, first: int, last: int, now: Time, keyId: Id) {
    exists a :: a in anchors && a.segmentId == id && a.firstSeq == first && a.lastSeq == last &&
                (a.sealedAt != now || a.keyId != keyId)
  }

  /** The leaves below a boundary are those of the live records up to it. */
  lemma LeavesBelow(w: World, mac: Mac, id: Id, before: int)
    requires SegmentsOk(mac, w.store, w.hist, w.emptied)
    ensures var p, hist, leaves :=
              PurgedCount(w.store, id), Get(w.hist, id, []), SegmentLeaves(w.store, id, Some(before));
            && (leaves == [] <==> SealEnd(hist, before) <= p)
            && (leaves != [] ==> |leaves| == SealEnd(hist, before) - p)
            && forall i :: 0 <= i < |leaves| ==> leaves[i].seqNo == p + i
  {
    hide SegmentsOk, SegmentOk, IsRun, SortBySeq, LeavesBefore;
    var p, live := PurgedCount(w.store, id), Live(w.store, id);
    LiveLeaves(w, mac, id, before);
    assert SegmentAt(mac, w.store, w.hist, w.emptied, id) by { SegmentOf(w, mac, id); }
    LiveIsRun(w, mac, id);
    SortedRun(live, p);
    LeavesOfRun(live, p, before);
    KeptCount(live, p, before);
  }

  lemma SegmentOf(w: World, mac: Mac, id: Id)
    requires SegmentsOk(mac, w.store, w.hist, w.emptied)
    ensures SegmentAt(mac, w.store, w.hist, w.emptied, id)
  {
  }

  lemma KeptCount(live: seq<StoredRecord>, p: nat, before: int)
    requires IsRun(live, p)
    ensures KeepFrom(live, before) ==
            if before <= p then 0 else if before < p + |live| then before - p else |live|
  {
    var n := KeepFrom(live, before);
    assert n < |live| ==> live[n].seqNo == p + n;
    assert n > 0 ==> live[n - 1].seqNo == p + n - 1;
  }

  /** What preparing a seal refuses, and what it makes. */
  lemma PreparesExactly(w: World, mac: Mac, h: Hash, signer: Signer, state: EvidenceSegment, before: int, now: Time)
    requires SegmentsOk(mac, w.store, w.hist, w.emptied)
    ensures var id, r := state.segmentId, PrepareAnchor(w.store, mac, h, signer, state, before, now);
            var p, end := PurgedCount(w.store, id), SealEnd(Get(w.hist, id, []), before);
            && (r == Err(NothingToSeal) <==> end <= p)
            && (r == Err(SigningUnavailable) <==> p < end && !signer.available)
            && (r.Ok? <==> p < end && signer.available)
            && (r.Ok? ==> r.value.firstSeq == p && r.value.lastSeq == end - 1)
  {
    hide SegmentsOk, SegmentLeaves, MerkleRoot;
    LeavesBelow(w, mac, state.segmentId, before);
  }

  lemma StoredOrFresh(w: World, mac: Mac, h: Hash, b: WormAnchor)
    requires AnchorsOk(mac, h, w.store, w.hist, (set x | x in w.anchors) + w.seals) && Labelled(w)
    requires AnchorOk(mac, h, w.store, w.hist, b) && b.segmentId in w.store.tenants
    requires b.tenantId == w.store.tenants[b.segmentId]
    ensures Put(w.anchors, b).1.Ok? <==> !Conflicts(w.anchors, b.segmentId, b.firstSeq, b.lastSeq, b.sealedAt, b.keyId)
    ensures Put(w.anchors, b).1.Err? ==> Put(w.anchors, b).1 == Err(WriteOnceConflict)
    ensures Put(w.anchors, b).1.Ok? ==> b in Put(w.anchors, b).0
  {
    hide MerkleRoot, AnchorOk, Find;
    forall a | a in w.anchors && a.segmentId == b.segmentId && a.firstSeq == b.firstSeq && a.lastSeq == b.lastSeq
      ensures Find(w.anchors, b.anchorId) == Some(a) && (a == b <==> a.sealedAt == b.sealedAt && a.keyId == b.keyId)
    {
      assert AnchorOk(mac, h, w.store, w.hist, a);
      SameRange(mac, h, w.store, w.hist, a, b);
      FindsItself(w.anchors, a);
    }
    if Find(w.anchors, b.anchorId).Some? {
      var x := Find(w.anchors, b.anchorId).value;
      assert AnchorOk(mac, h, w.store, w.hist, x);
      SameId(mac, h, w.store, w.hist, x, b);
    }
  }

  lemma SameId(mac: Mac, h: Hash, s: Store, hist: map<Id, seq<StoredRecord>>, x: WormAnchor, b: WormAnchor)
    requires AnchorOk(mac, h, s, hist, x) && AnchorOk(mac, h, s, hist, b) && x.anchorId == b.anchorId
    ensures x.segmentId == b.segmentId && x.firstSeq == b.firstSeq && x.lastSeq == b.lastSeq
  {
    AnchorIdInjective(x.segmentId, x.firstSeq, x.lastSeq, b.segmentId, b.firstSeq, b.lastSeq);
  }

  /** The anchor that a seal prepares from the current state, and whether storage takes it. */
  lemma PreparedSeal(w: World, mac: Mac, h: Hash, signer: Signer, state: EvidenceSegment, before: int, now: Time)
    requires SegmentsOk(mac, w.store, w.hist, w.emptied) && Labelled(w)
    requires AnchorsOk(mac, h, w.store, w.hist, (set x | x in w.anchors) + w.seals)
    requires state.segmentId in w.hist && state.segmentId in w.store.tenants
    requires state.tenantId == w.store.tenants[state.segmentId]
    ensures var id, r := state.segmentId, PrepareAnchor(w.store, mac, h, signer, state, before, now);
            var p, end := PurgedCount(w.store, id), SealEnd(Get(w.hist, id, []), before);
            && (r == Err(NothingToSeal) <==> end <= p)
            && (r == Err(SigningUnavailable) <==> p < end && !signer.available)
            && (r.Ok? <==> p < end && signer.available)
            && (r.Ok? ==>
                && var a := r.value;
                && (a.segmentId, a.firstSeq, a.lastSeq, a.sealedAt, a.keyId) == (id, p, end - 1, now, signer.keyId)
                && AnchorOk(mac, h, w.store, w.hist, a)
                && (Put(w.anchors, a).1.Ok? <==> !Conflicts(w.anchors, id, p, end - 1, now, signer.keyId))
                && (Put(w.anchors, a).1.Err? ==> Put(w.anchors, a).1 == Err(WriteOnceConflict))
                && (Put(w.anchors, a).1.Ok? ==> a in Put(w.anchors, a).0))
  {
    hide SegmentsOk, AnchorOk, AnchorsOk, Labelled, PrepareAnchor, Conflicts, Put;
    PreparesExactly(w, mac, h, signer, state, before, now);
    var r := PrepareAnchor(w.store, mac, h, signer, state, before, now);
    if r.Ok? {
      PreparedAnchor(w, mac, h, state, before, now, signer);
      PreparedStamps(w.store, mac, h, state, before, now, signer);
      StoredOrFresh(w, mac, h, r.value);
    }
  }

  /** Sealing in terms of its parts, for a segment that exists. */
  lemma SealUnfolds(s: Store, anchors: Anchors, mac: Mac, h: Hash, signer: Signer, id: Id, before: int, now: Time)
    ensures var c := Seal(s, anchors, mac, h, signer, id, before, now);
            match SegmentState(s, id)
            case Err(e) => c == (s, anchors, Err(e))
            case Ok(None) => c == (s, anchors, Err(SegmentNotFound))
            case Ok(Some(state)) =>
              var r := PrepareAnchor(s, mac, h, signer, state, before, now);
              if r.Err? then c == (s, anchors, r)
              else if Put(anchors, r.value).1.Err? then c == (s, anchors, Err(Put(anchors, r.value).1.error))
              else id in s.segments ==>
                     c == (s.(wormAnchors := s.wormAnchors[id := r.value]), Put(anchors, r.value).0, r)
  {
    hide PrepareAnchor, Put, SegmentState;
  }

  /**
   * Sealing, exactly. The range runs from the first live record to the boundary or the end of the
   * history; it must not be empty, and the signer must answer. The seal is stored and recorded, unless
   * the same range was sealed before at another time or with another key.
   */
  lemma SealExactly(w: World, mac: Mac, h: Hash, signer: Signer, id: Id, before: int, now: Time)
    requires Reachable(w, mac, h)
    ensures var (s', anchors', r) := Seal(w.store, w.anchors, mac, h, signer, id, before, now);
            var p, end := PurgedCount(w.store, id), SealEnd(Get(w.hist, id, []), before);
            var state := SegmentState(w.store, id);
            && (r == Err(SegmentNotFound) <==> id !in w.hist)
            && (r == Err(InvalidRange) <==> state.Err?)
            && (r == Err(NothingToSeal) <==> id in w.hist && state.Ok? && end <= p)
            && (r == Err(SigningUnavailable) <==> id in w.hist && state.Ok? && p < end && !signer.available)
            && (r == Err(WriteOnceConflict) <==>
                && id in w.hist && state.Ok? && p < end && signer.available
                && Conflicts(w.anchors, id, p, end - 1, now, signer.keyId))
            && (r.Ok? <==>
                && id in w.hist && state.Ok? && p < end && signer.available
                && !Conflicts(w.anchors, id, p, end - 1, now, signer.keyId))
            && (r.Err? ==> s' == w.store && anchors' == w.anchors)
            && (r.Ok? ==>
                && var a := r.value;
                && (a.segmentId, a.firstSeq, a.lastSeq, a.sealedAt, a.keyId) == (id, p, end - 1, now, signer.keyId)
                && AnchorOk(mac, h, w.store, w.hist, a) && a in anchors'
                && s' == w.store.(wormAnchors := w.store.wormAnchors[id := a]))
  {
    hide Reachable, PrepareAnchor, Conflicts, Put, Seal, SegmentState, AnchorOk, AnchorsOk, SegmentsOk, Labelled;
    ReachableIsOpened(w, mac, h);
    StateOf(w, id);
    SealUnfolds(w.store, w.anchors, mac, h, signer, id, before, now);
    var state := SegmentState(w.store, id);
    if state.Ok? && state.value.Some? {
      ReachableParts(w, mac, h);
      PreparedSeal(w, mac, h, signer, state.value.value, before, now);
    }
  }

  lemma ReachableParts(w: World, mac: Mac, h: Hash)
    requires Reachable(w, mac, h)
    ensures SegmentsOk(mac, w.store, w.hist, w.emptied) && Labelled(w)
    ensures AnchorsOk(mac, h, w.store, w.hist, (set x | x in w.anchors) + w.seals)
  {
    hide Reachable, SegmentsOk, LogOk, ReceiptsOk, OutcomesOk, PurgedOk, PurgesOk, AnchorsOk, Labelled;
    ReachableKeeps(w, mac, h);
    ReachableLabels(w, mac, h);
  }

  /**
   * The state of a segment: none exactly if it was never opened, and otherwise its tenant, its opening
   * time, where 0 stands for 1, the number of records purged and the recorded seal. It is out of range
   * exactly if that seal is older than the segment or ends before what was purged.
   */
  lemma StateOf(w: World, id: Id)
    requires Opened(w)
    ensures var state, t := SegmentState(w.store, id), Get(w.store.openedAt, id, 0.0);
            var start, seal := if t == 0.0 then 1.0 else t, Lookup(w.store.wormAnchors, id);
            && (state == Ok(None) <==> id !in w.hist)
            && (state.Err? <==>
                && id in w.hist && seal.Some?
                && (seal.value.sealedAt < start || seal.value.lastSeq + 1 < PurgedCount(w.store, id)))
            && (state.Err? ==> state == Err(InvalidRange))
            && (state.Ok? && state.value.Some? ==>
                state.value.value == EvidenceSegment(id, w.store.tenants[id], start, PurgedCount(w.store, id), seal))
  {
  }

  /** Recording a seal succeeds exactly for a known segment, and is what its state then shows. */
  lemma MarkExactly(s: Store, id: Id, a: WormAnchor)
    ensures var (s', r) := MarkSealed(s, id, a);
            && (r.Ok? <==> id in s.segments) && (r.Err? ==> r == Err(SegmentNotFound) && s' == s)
            && (r.Ok? ==> Lookup(s'.wormAnchors, id) == Some(a) && s'.(wormAnchors := s.wormAnchors) == s)
            && (r.Ok? && SegmentState(s', id).Ok? ==> SegmentState(s', id).value.value.seal == Some(a))
            && forall k :: k != id ==> Lookup(s'.wormAnchors, k) == Lookup(s.wormAnchors, k)
  {
  }

  // ---------------------------------------------------------------------------------------
  // Recording an outcome
  // ---------------------------------------------------------------------------------------

  /** Some chain holds an outcome of the decision and time. */
  ghost predicate IsTold(s: Store, d: Id, t: Time) {
    exists id, i :: IsOutcomeAt(s, id, i) && KeyAt(s, id, i) == (d, t)
  }

  /**
   * Recording an outcome, exactly: its two refusals, the failure of the signer, and success, which adds
   * one signed record to the chain named by the receipt if the decision and time are new, makes it the
   * decision's last outcome, and otherwise does nothing.
   */
  lemma OutcomeExactly(w: World, mac: Mac, h: Hash, receipt: Receipt, o: OutcomeRecord, signer: Signer)
    requires Reachable(w, mac, h)
    ensures var (s', r) := AppendOutcome(w.store, mac, receipt, o, signer);
            var fits, live := receipt.decisionId == o.decisionId, receipt.decisionId in w.store.receipts;
            var told := IsTold(w.store, o.decisionId, o.completedAt);
            var stored := NextOutcome(w.store, mac, receipt.segmentId, o, signer.keyId);
            && (r == Err(DecisionMismatch) <==> !fits)
            && (r == Err(UnknownReceipt) <==> fits && !live)
            && (r == Err(SigningUnavailable) <==> fits && live && !told && !signer.available)
            && (r.Ok? <==> fits && live && (told || signer.available))
            && (forall k :: OutcomesOf(s', k) == OutcomesOf(w.store, k) +
                  if r.Ok? && !told && k == receipt.segmentId then [stored] else [])
            && s'.outcomes == (if r.Ok? && !told then w.store.outcomes[o.decisionId := stored] else w.store.outcomes)
            && (r.Ok? && !told ==> OutcomeFor(s', o.decisionId) == Some(o))
            && (r.Err? || told ==> s'.receipts == w.store.receipts && s'.segments == w.store.segments)
  {
    assert IsTold(w.store, o.decisionId, o.completedAt) <==> (o.decisionId, o.completedAt) in w.store.outcomeKeys by {
      ToldIsKeyed(w, mac, h, o.decisionId, o.completedAt);
    }
    hide Reachable, IsTold;
  }

  lemma ToldIsKeyed(w: World, mac: Mac, h: Hash, d: Id, t: Time)
    requires Reachable(w, mac, h)
    ensures IsTold(w.store, d, t) <==> (d, t) in w.store.outcomeKeys
  {
    hide Reachable, ToldOnce;
    OutcomesAreToldOnce(w, mac, h);
  }

  /** What was last recorded for a decision stands in a chain, and is forgotten with the decision's receipt. */
  ghost predicate Indexed(s: Store) {
    forall d :: d in s.outcomes ==>
      && d in s.receipts && s.outcomes[d].record.decisionId == d
      && exists id, i :: IsOutcomeAt(s, id, i) && OutcomesOf(s, id)[i] == s.outcomes[d]
  }

  /** Outcomes stay in their chains. */
  ghost predicate ChainsGrow(s: Store, s': Store) { forall id :: OutcomesOf(s, id) <= OutcomesOf(s', id) }

  lemma IndexedStays(s: Store, s': Store)
    requires Indexed(s) && ChainsGrow(s, s')
    requires forall d :: d in s'.outcomes ==> d in s'.receipts && d in s.outcomes && s'.outcomes[d] == s.outcomes[d]
    ensures Indexed(s')
  {
    forall d | d in s'.outcomes
      ensures exists id, i :: IsOutcomeAt(s', id, i) && OutcomesOf(s', id)[i] == s'.outcomes[d]
    {
      var id, i :| IsOutcomeAt(s, id, i) && OutcomesOf(s, id)[i] == s.outcomes[d];
      assert OutcomesOf(s, id) <= OutcomesOf(s', id);
      assert IsOutcomeAt(s', id, i) && OutcomesOf(s', id)[i] == s'.outcomes[d];
    }
  }

  lemma OutcomeIndexes(w: World, mac: Mac, receipt: Receipt, o: OutcomeRecord, signer: Signer)
    requires Indexed(w.store)
    ensures Indexed(OutcomeStep(w, mac, receipt, o, signer).store)
  {
    var s, s', id := w.store, OutcomeStep(w, mac, receipt, o, signer).store, receipt.segmentId;
    if SignsOutcome(s, receipt, o, signer) {
      var stored, n := NextOutcome(s, mac, id, o, signer.keyId), |OutcomesOf(s, id)|;
      assert IsOutcomeAt(s', id, n) && OutcomesOf(s', id)[n] == stored;
      forall d | d in s'.outcomes && d != o.decisionId
        ensures exists k, i :: IsOutcomeAt(s', k, i) && OutcomesOf(s', k)[i] == s'.outcomes[d]
      {
        var k, i :| IsOutcomeAt(s, k, i) && OutcomesOf(s, k)[i] == s.outcomes[d];
        assert IsOutcomeAt(s', k, i) && OutcomesOf(s', k)[i] == s'.outcomes[d];
      }
    } else {
      IndexedStays(s, s');
    }
  }

  lemma OtherIndexes(w: World, mac: Mac, h: Hash, a: Action)
    requires Indexed(w.store) && !a.Outcome?
    ensures Indexed(Step(w, mac, h, a).store)
  {
    hide Step, Indexed, ChainsGrow;
    IndexedIsHeld(w.store);
    OtherForgets(w, mac, h, a);
    IndexedStays(w.store, Step(w, mac, h, a).store);
  }

  /** No other step records an outcome, and a purge forgets it together with the receipt. */
  ghost predicate Forgets(s: Store, s': Store) {
    && ChainsGrow(s, s')
    && forall d :: d in s'.outcomes ==> d in s'.receipts && d in s.outcomes && s'.outcomes[d] == s.outcomes[d]
  }

  lemma AppendForgets(w: World, mac: Mac, record: IntentRecord, signer: Signer)
    requires w.store.outcomes.Keys <= w.store.receipts.Keys
    ensures Forgets(w.store, AppendStep(w, mac, record, signer).store)
  {
    hide NextRecord, ReceiptOf;
  }

  lemma PurgeForgets(w: World, id: Id, before: int)
    requires w.store.outcomes.Keys <= w.store.receipts.Keys
    ensures Forgets(w.store, PurgeDeleteStep(w, id, before).store)
  {
    hide DecisionIds;
  }

  lemma OtherForgets(w: World, mac: Mac, h: Hash, a: Action)
    requires w.store.outcomes.Keys <= w.store.receipts.Keys && !a.Outcome?
    ensures Forgets(w.store, Step(w, mac, h, a).store)
  {
    hide AppendStep, PurgeDeleteStep, PrepareAnchor, CoveringAnchor, Find, SegmentState;
    match a
    case Append(record, signer) => AppendForgets(w, mac, record, signer);
    case PurgeDelete(id, before) => PurgeForgets(w, id, before);
    case _ =>
  }

  lemma IndexedIsHeld(s: Store)
    requires Indexed(s)
    ensures s.outcomes.Keys <= s.receipts.Keys
  {
  }

  lemma {:induction false} RunIndexes(trace: seq<World>, mac: Mac, h: Hash, i: nat)
    requires IsTrace(trace, mac, h) && i < |trace|
    ensures Indexed(trace[i].store)
  {
    if i > 0 {
      hide OutcomeStep, Indexed;
      var j := i - 1;
      RunIndexes(trace, mac, h, j);
      assert Next(trace[j], trace[j + 1], mac, h);
      var a :| trace[i] == Step(trace[j], mac, h, a);
      if a.Outcome? {
        OutcomeIndexes(trace[j], mac, a.receipt, a.outcome, a.signer);
      } else {
        OtherIndexes(trace[j], mac, h, a);
      }
    }
  }

  /** In every reachable state a decision's outcome is one recorded for it, and only live decisions have one. */
  lemma OutcomesAreIndexed(w: World, mac: Mac, h: Hash)
    requires Reachable(w, mac, h)
    ensures Indexed(w.store)
  {
    hide Indexed, Next;
    var trace :| IsTrace(trace, mac, h) && trace[|trace| - 1] == w;
    RunIndexes(trace, mac, h, |trace| - 1);
  }

  // ---------------------------------------------------------------------------------------
  // Considering a segment
  // ---------------------------------------------------------------------------------------

  /** The leaves of everything live end with the last record of the history. */
  lemma AllLeavesEnd(w: World, mac: Mac, h: Hash, id: Id)
    requires Reachable(w, mac, h)
    ensures var leaves, live := SegmentLeaves(w.store, id, None), Live(w.store, id);
            && (leaves == [] <==> live == [])
            && (leaves != [] ==> leaves[|leaves| - 1].seqNo == |Get(w.hist, id, [])| - 1)
  {
    ReachableKeeps(w, mac, h);
    SegmentOf(w, mac, id);
    hide Reachable, SegmentsOk, LogOk, ReceiptsOk, OutcomesOk, AnchorsOk, PurgedOk, PurgesOk, SegmentOk, SegmentLeaves;
    SR.WholeSegmentLeaves(w, mac, id);
    LiveIsRun(w, mac, id);
  }

  /** Sealing is due: something is live, and the segment is old enough. */
  predicate SealDue(w: World, state: EvidenceSegment, policy: Scheduling.Policy, now: Time) {
    Live(w.store, state.segmentId) != [] && now >= state.openedAt + policy.sealAfter
  }

  predicate PurgeDue(w: World, seal: WormAnchor, policy: Scheduling.Policy, id: Id, now: Time) {
    PurgedCount(w.store, id) <= seal.lastSeq && now >= seal.sealedAt + policy.purgeGrace
  }

  /**
   * What the scheduler does with a segment in any reachable state, also one that others seal and purge.
   * An unsealed segment that is due is sealed whole if the signer answers and no other seal of the same
   * range is in the way; a sealed one that is due is purged up to its seal. An unreadable state is a
   * failure, and the only way to raise is a due purge behind an anchor that cannot be verified.
   */
  lemma ConsiderExactly(w: World, mac: Mac, h: Hash, signer: Signer, policy: Scheduling.Policy, id: Id, now: Time)
    requires Reachable(w, mac, h)
    ensures var c, state := Scheduling.Consider(w.store, w.anchors, mac, h, signer, policy, id, now),
                            SegmentState(w.store, id);
            var same, n := (c.0, c.1) == (w.store, w.anchors), |Get(w.hist, id, [])|;
            match state
            case Err(_) => c.2 == Ok(Scheduling.Failed) && same
            case Ok(None) => c.2 == Ok(Scheduling.Skipped) && same && id !in w.hist
            case Ok(Some(state)) => if state.seal.None? then
              if !SealDue(w, state, policy, now) then c.2 == Ok(Scheduling.Skipped) && same
              else if !signer.available || Conflicts(w.anchors, id, PurgedCount(w.store, id), n - 1, now, signer.keyId)
              then c.2 == Ok(Scheduling.Failed) && same
              else
                && c.2 == Ok(Scheduling.Sealed) && id in c.0.wormAnchors && var a := c.0.wormAnchors[id];
                && a in c.1 && a.firstSeq == PurgedCount(w.store, id) && a.lastSeq == n - 1 && a.sealedAt == now
            else
              var seal := state.seal.value;
              if !PurgeDue(w, seal, policy, id, now) then c.2 == Ok(Scheduling.Skipped) && same
              else if exists i :: IsCovering(w.anchors, id, seal.lastSeq + 1, i) &&
                                  !signer.CanVerify(w.anchors[i].keyId)
              then c.2 == Err(AnchorUnverifiable) && same
              else
                && c.2 == Ok(Scheduling.Purged) && c.1 == w.anchors && seal.lastSeq < n
                && PurgedCount(c.0, id) == seal.lastSeq + 1
                && Live(c.0, id) == Get(w.hist, id, [])[seal.lastSeq + 1..]
  {
    hide Reachable, Seal, Purge, SegmentState, SegmentLeaves, Conflicts, IsCovering, AnchorOk;
    ReachableIsOpened(w, mac, h);
    StateOf(w, id);
    AllLeavesEnd(w, mac, h, id);
    ReachableLength(w, mac, h, id);
    var state := SegmentState(w.store, id);
    if state.Ok? && state.value.Some? {
      if state.value.value.seal.None? {
        SealExactly(w, mac, h, signer, id, |Get(w.hist, id, [])|, now);
      } else {
        PurgeExactly(w, mac, h, signer, id, state.value.value.seal.value.lastSeq + 1);
      }
    }
  }
}
