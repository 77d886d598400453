/**
 * Evidence, sealing and purging as one concurrent system.
 *
 * Every critical section of the store and of the anchor storage is one step, and the steps of
 * different appends, seals and purges interleave freely. A seal reads the segment's state, reads
 * its leaves and signs an anchor over them, stores the anchor, and records it, in four steps; a
 * purge checks the anchor storage, checks the store, and deletes in three.
 */
module Retention {
  import opened Bytes
  import opened Evidence
  import opened Chain
  import opened Ledger
  import opened Merkle
  import opened Sealing
  import opened Sorting

  /**
   * The stores, and what only an observer sees: every record ever appended, every payload ever
   * signed, which segments their last purge left empty, and how far seals and purges under way are.
   */
  datatype World = World(
    store: Store,
    anchors: Anchors,
    hist: map<Id, seq<StoredRecord>>,
    log: SigningLog,
    emptied: set<Id>,
    states: set<EvidenceSegment>,
    seals: set<WormAnchor>,
    checked: set<(Id, int)>,
    allowed: set<(Id, int)>)

  const INITIAL: World := World(EMPTY, [], map[], {}, {}, {}, {}, {}, {})

  datatype Action =
    | Append(record: IntentRecord, signer: Signer)
    | Outcome(receipt: Receipt, outcome: OutcomeRecord, signer: Signer)
    | SealLook(segmentId: Id)
    | SealPrepare(state: EvidenceSegment, beforeSeq: int, now: Time, signer: Signer)
    | SealStore(anchor: WormAnchor)
    | SealMark(anchor: WormAnchor)
    | PurgeCheck(segmentId: Id, beforeSeq: int, signer: Signer)
    | PurgeAllow(segmentId: Id, beforeSeq: int)
    | PurgeDelete(segmentId: Id, beforeSeq: int)

  function AppendStep(w: World, mac: Mac, record: IntentRecord, signer: Signer): World {
    var id := record.segmentId;
    var store := AppendIntent(w.store, mac, record, signer).0;
    if record.decisionId in w.store.receipts then w
    else if !signer.available then w.(store := store, hist := SetDefault(w.hist, id, []))
    else
      var stored := NextRecord(w.store, mac, record, signer.keyId);
      w.(store := store,
         hist := w.hist[id := Get(w.hist, id, []) + [stored]],
         log := w.log + {(stored.keyId, LinkOf(stored).payload)})
  }

  function OutcomeStep(w: World, mac: Mac, receipt: Receipt, outcome: OutcomeRecord, signer: Signer): World {
    var stored := NextOutcome(w.store, mac, receipt.segmentId, outcome, signer.keyId);
    w.(store := AppendOutcome(w.store, mac, receipt, outcome, signer).0,
       log := if SignsOutcome(w.store, receipt, outcome, signer)
              then w.log + {(stored.keyId, OutcomeLinkOf(stored).payload)} else w.log)
  }

  /** Whether recording an outcome gets as far as signing it. */
  predicate SignsOutcome(s: Store, receipt: Receipt, outcome: OutcomeRecord, signer: Signer) {
    && receipt.decisionId == outcome.decisionId && receipt.decisionId in s.receipts
    && (outcome.decisionId, outcome.completedAt) !in s.outcomeKeys && signer.available
  }

  function SealLookStep(w: World, segmentId: Id): World {
    match SegmentState(w.store, segmentId)
    case Ok(Some(state)) => w.(states := w.states + {state})
    case _ => w
  }

  function SealPrepareStep(w: World, mac: Mac, h: Hash, state: EvidenceSegment, beforeSeq: int, now: Time,
                           signer: Signer): World {
    if state !in w.states then w
    else
      match PrepareAnchor(w.store, mac, h, signer, state, beforeSeq, now)
      case Err(_) => w
      case Ok(anchor) => w.(seals := w.seals + {anchor}, log := w.log + {(anchor.keyId, anchor.SigningPayload())})
  }

  function PurgeDeleteStep(w: World, segmentId: Id, beforeSeq: int): World {
    var (store, n) := SealAndPurge(w.store, segmentId, beforeSeq);
    w.(store := store,
       emptied := if n == 0 then w.emptied
                  else if Live(store, segmentId) == [] then w.emptied + {segmentId}
                  else w.emptied - {segmentId})
  }

  function SealStoreStep(w: World, anchor: WormAnchor): World {
    if anchor in w.seals then w.(anchors := Put(w.anchors, anchor).0) else w
  }

  function SealMarkStep(w: World, anchor: WormAnchor): World {
    if anchor in w.anchors then w.(store := MarkSealed(w.store, anchor.segmentId, anchor).0) else w
  }

  function PurgeCheckStep(w: World, mac: Mac, segmentId: Id, beforeSeq: int, signer: Signer): World {
    match CoveringAnchor(mac, signer, w.anchors, segmentId, beforeSeq)
    case Ok(Some(_)) => w.(checked := w.checked + {(segmentId, beforeSeq)})
    case _ => w
  }

  function PurgeAllowStep(w: World, segmentId: Id, beforeSeq: int): World {
    if (segmentId, beforeSeq) in w.checked && PurgeAllowed(w.store, segmentId, beforeSeq)
    then w.(allowed := w.allowed + {(segmentId, beforeSeq)}) else w
  }

  function Step(w: World, mac: Mac, h: Hash, a: Action): World {
    match a
    case Append(record, signer) => AppendStep(w, mac, record, signer)
    case Outcome(receipt, outcome, signer) => OutcomeStep(w, mac, receipt, outcome, signer)
    case SealLook(id) => SealLookStep(w, id)
    case SealPrepare(state, before, now, signer) => SealPrepareStep(w, mac, h, state, before, now, signer)
    case SealStore(anchor) => SealStoreStep(w, anchor)
    case SealMark(anchor) => SealMarkStep(w, anchor)
    case PurgeCheck(id, before, signer) => PurgeCheckStep(w, mac, id, before, signer)
    case PurgeAllow(id, before) => PurgeAllowStep(w, id, before)
    case PurgeDelete(id, before) => if (id, before) in w.allowed then PurgeDeleteStep(w, id, before) else w
  }

  /** Some step leads from one state to the next. */
  ghost predicate Next(w: World, w': World, mac: Mac, h: Hash) { exists a :: w' == Step(w, mac, h, a) }

  /** A run: the initial state, and then one step after another, in any interleaving. */
  ghost predicate IsTrace(trace: seq<World>, mac: Mac, h: Hash) {
    && trace != [] && trace[0] == INITIAL
    && forall i {:trigger Next(trace[i], trace[i + 1], mac, h)} :: 0 <= i < |trace| - 1 ==>
      Next(trace[i], trace[i + 1], mac, h)
  }

  // ---------------------------------------------------------------------------------------
  // What every step keeps
  // ---------------------------------------------------------------------------------------

  /** Every record is numbered by its position, names its segment, and carries its code. */
  ghost predicate Rows(mac: Mac, id: Id, hist: seq<StoredRecord>) {
    forall i {:trigger hist[i]} :: 0 <= i < |hist| ==>
      && hist[i].seqNo == i && hist[i].record.segmentId == id
      && hist[i].mac == mac(hist[i].keyId, LinkOf(hist[i]).payload)
  }

  /** From the first live record on, each record links to the one before it. */
  ghost predicate Chained(hist: seq<StoredRecord>, p: nat) {
    forall i {:trigger hist[i].prev} :: p < i < |hist| ==> hist[i].prev == hist[i - 1].mac
  }

  /** A segment: its history is numbered and signed, and what is live is what was not purged. */
  ghost predicate SegmentOk(mac: Mac, id: Id, hist: seq<StoredRecord>, live: seq<StoredRecord>, p: nat,
                            anchor: Option<Bytes>, emptied: bool)
  {
    && p <= |hist| && live == hist[p..]
    && Rows(mac, id, hist) && Chained(hist, p)
    && (p < |hist| ==> hist[p].prev == if p == 0 || emptied then GENESIS else hist[p - 1].mac)
    && anchor == (if p == 0 then None else Some(hist[p - 1].mac))
    && (p == |hist| && p > 0 ==> emptied)
    && (emptied ==> p > 0)
  }

  function Lookup<V>(m: map<Id, V>, k: Id): Option<V> { if k in m then Some(m[k]) else None }

  ghost predicate SegmentAt(mac: Mac, s: Store, hist: map<Id, seq<StoredRecord>>, emptied: set<Id>, id: Id) {
    SegmentOk(mac, id, Get(hist, id, []), Live(s, id), PurgedCount(s, id), Lookup(s.chainAnchor, id), id in emptied)
  }

  ghost predicate SegmentsOk(mac: Mac, s: Store, hist: map<Id, seq<StoredRecord>>, emptied: set<Id>) {
    && s.segments.Keys == hist.Keys
    && forall id :: SegmentAt(mac, s, hist, emptied, id)
  }

  /** Intents were signed only as the history records them. */
  ghost predicate LogOk(hist: map<Id, seq<StoredRecord>>, log: SigningLog) {
    forall k, p :: (k, p) in log && p.IntentPayload? ==>
      var id := p.intent.segmentId;
      && id in hist && 0 <= p.seqNo < |hist[id]|
      && hist[id][p.seqNo].keyId == k && LinkOf(hist[id][p.seqNo]).payload == p
  }

  ghost predicate IsLiveAt(s: Store, hist: map<Id, seq<StoredRecord>>, id: Id, i: int) {
    id in hist && PurgedCount(s, id) <= i < |hist[id]|
  }

  /** The receipts index and the live records determine each other. */
  ghost predicate ReceiptsOk(s: Store, hist: map<Id, seq<StoredRecord>>) {
    && (forall id, i :: IsLiveAt(s, hist, id, i) ==>
          && hist[id][i].record.decisionId in s.receipts
          && s.receipts[hist[id][i].record.decisionId] == ReceiptOf(hist[id][i]))
    && (forall d :: d in s.receipts ==>
          && IsLiveAt(s, hist, s.receipts[d].segmentId, s.receipts[d].seqNo)
          && hist[s.receipts[d].segmentId][s.receipts[d].seqNo].record.decisionId == d)
  }

  ghost predicate OutcomesOk(mac: Mac, s: Store) {
    forall id :: id in s.outcomeChain ==> Linked(mac, OutcomeLinks(s.outcomeChain[id]), 0, GENESIS)
  }

  function Macs(rs: seq<StoredRecord>): (macs: seq<Bytes>)
    ensures |macs| == |rs| && forall i :: 0 <= i < |rs| ==> macs[i] == rs[i].mac
  {
    seq(|rs|, i requires 0 <= i < |rs| => rs[i].mac)
  }

  /** An anchor attests, under a genuine signature, the codes of a range of its segment's history. */
  ghost predicate AnchorOk(mac: Mac, h: Hash, s: Store, hist: map<Id, seq<StoredRecord>>, a: WormAnchor) {
    && a.segmentId in hist && a.Valid() && a.lastSeq < |hist[a.segmentId]|
    && a.firstSeq <= PurgedCount(s, a.segmentId)
    && a.anchorId == AnchorId(a.segmentId, a.firstSeq, a.lastSeq)
    && a.merkleRoot == MerkleRoot(h, Macs(hist[a.segmentId][a.firstSeq..a.lastSeq + 1]))
    && Authentic(mac, a)
  }

  ghost predicate AnchorsOk(mac: Mac, h: Hash, s: Store, hist: map<Id, seq<StoredRecord>>, anchors: set<WormAnchor>) {
    forall a :: a in anchors ==> AnchorOk(mac, h, s, hist, a)
  }

  ghost predicate Covered(anchors: Anchors, id: Id, i: int) {
    exists a :: a in anchors && a.segmentId == id && a.Covers(i)
  }

  ghost predicate PurgedOk(s: Store, anchors: Anchors) {
    forall id, i :: 0 <= i < PurgedCount(s, id) ==> Covered(anchors, id, i)
  }

  ghost predicate Ends(anchors: Anchors, id: Id, before: int) {
    exists a :: a in anchors && a.segmentId == id && a.lastSeq == before - 1
  }

  ghost predicate PurgesOk(anchors: Anchors, purges: set<(Id, int)>) {
    forall id, before :: (id, before) in purges ==> Ends(anchors, id, before)
  }

  ghost predicate Inv(w: World, mac: Mac, h: Hash) {
    && SegmentsOk(mac, w.store, w.hist, w.emptied)
    && LogOk(w.hist, w.log)
    && ReceiptsOk(w.store, w.hist)
    && OutcomesOk(mac, w.store)
    && AnchorsOk(mac, h, w.store, w.hist, (set a | a in w.anchors) + w.seals)
    && PurgedOk(w.store, w.anchors)
    && PurgesOk(w.anchors, w.checked + w.allowed)
  }

  // ---------------------------------------------------------------------------------------
  // Appending
  // ---------------------------------------------------------------------------------------

  lemma AppendSegment(mac: Mac, id: Id, hist: seq<StoredRecord>, live: seq<StoredRecord>, p: nat,
                      anchor: Option<Bytes>, emptied: bool, r: StoredRecord)
    requires SegmentOk(mac, id, hist, live, p, anchor, emptied)
    requires r.record.segmentId == id && r.seqNo == p + |live|
    requires r.prev == if live == [] then GENESIS else live[|live| - 1].mac
    requires r.mac == mac(r.keyId, LinkOf(r).payload)
    ensures SegmentOk(mac, id, hist + [r], live + [r], p, anchor, emptied)
  {
    hide Rows, Chained;
    assert (hist + [r])[p..] == hist[p..] + [r];
    RowsSnoc(mac, id, hist, r);
    LastLive(hist, live, p);
    ChainedSnoc(hist, p, r);
  }

  lemma LastLive(hist: seq<StoredRecord>, live: seq<StoredRecord>, p: nat)
    requires p <= |hist| && live == hist[p..]
    ensures p < |hist| ==> live != [] && live[|live| - 1] == hist[|hist| - 1]
  {
  }

  lemma RowsSnoc(mac: Mac, id: Id, hist: seq<StoredRecord>, r: StoredRecord)
    requires Rows(mac, id, hist) && r.seqNo == |hist| && r.record.segmentId == id
    requires r.mac == mac(r.keyId, LinkOf(r).payload)
    ensures Rows(mac, id, hist + [r])
  {
  }

  lemma ChainedSnoc(hist: seq<StoredRecord>, p: nat, r: StoredRecord)
    requires Chained(hist, p) && (p < |hist| ==> r.prev == hist[|hist| - 1].mac)
    ensures Chained(hist + [r], p)
  {
    var longer := hist + [r];
    forall i | p < i < |longer| ensures longer[i].prev == longer[i - 1].mac {
      assert i < |hist| ==> longer[i] == hist[i] && longer[i].prev == hist[i].prev;
    }
  }

  /** What one segment looks like in a store. */
  ghost predicate SameSegment(s: Store, hist: map<Id, seq<StoredRecord>>, emptied: set<Id>,
                              s': Store, hist': map<Id, seq<StoredRecord>>, emptied': set<Id>, id: Id)
  {
    && Get(hist, id, []) == Get(hist', id, []) && Live(s, id) == Live(s', id)
    && PurgedCount(s, id) == PurgedCount(s', id)
    && Lookup(s.chainAnchor, id) == Lookup(s'.chainAnchor, id) && (id in emptied <==> id in emptied')
  }

  lemma OthersKeep(mac: Mac, s: Store, hist: map<Id, seq<StoredRecord>>, emptied: set<Id>,
                   s': Store, hist': map<Id, seq<StoredRecord>>, emptied': set<Id>, id: Id)
    requires SegmentsOk(mac, s, hist, emptied)
    requires s'.segments.Keys == hist'.Keys
    requires forall k :: k != id ==> SameSegment(s, hist, emptied, s', hist', emptied', k)
    requires SegmentAt(mac, s', hist', emptied', id)
    ensures SegmentsOk(mac, s', hist', emptied')
  {
    forall k ensures SegmentAt(mac, s', hist', emptied', k) {
      assert SegmentAt(mac, s, hist, emptied, k);
      assert k != id ==> SameSegment(s, hist, emptied, s', hist', emptied', k);
    }
  }

  /** Two worlds that differ, if at all, in what they know of one segment. */
  ghost predicate Spares(w: World, w': World, id: Id) {
    && w'.store.segments - {id} == w.store.segments - {id} && w'.hist - {id} == w.hist - {id}
    && (w'.store.purged, w'.store.chainAnchor, w'.emptied) == (w.store.purged, w.store.chainAnchor, w.emptied)
  }

  lemma AppendSpares(w: World, mac: Mac, record: IntentRecord, signer: Signer)
    requires w.store.segments.Keys == w.hist.Keys
    ensures var w' := AppendStep(w, mac, record, signer);
            Spares(w, w', record.segmentId) && w'.store.segments.Keys == w'.hist.Keys
  {
    hide NextRecord, LinkOf, ReceiptOf;
  }

  lemma SparesOthers(w: World, w': World, id: Id)
    requires Spares(w, w', id)
    ensures forall k :: k != id ==> SameSegment(w.store, w.hist, w.emptied, w'.store, w'.hist, w'.emptied, k)
  {
    forall k | k != id ensures SameSegment(w.store, w.hist, w.emptied, w'.store, w'.hist, w'.emptied, k) {
      assert k in w.store.segments - {id} <==> k in w'.store.segments - {id};
      assert k in w.hist - {id} <==> k in w'.hist - {id};
      assert k in w.store.segments ==> w.store.segments[k] == (w.store.segments - {id})[k];
      assert k in w.hist ==> w.hist[k] == (w.hist - {id})[k];
    }
  }

  /** An append adds one numbered, linked and signed record, and disturbs nothing else. */
  lemma AppendKeepsSegments(w: World, mac: Mac, record: IntentRecord, signer: Signer)
    requires SegmentsOk(mac, w.store, w.hist, w.emptied)
    ensures var w' := AppendStep(w, mac, record, signer); SegmentsOk(mac, w'.store, w'.hist, w'.emptied)
  {
    hide SegmentOk, SameSegment, Spares;
    AppendSpares(w, mac, record, signer);
    SparesOthers(w, AppendStep(w, mac, record, signer), record.segmentId);
    if record.decisionId !in w.store.receipts {
      var w', id := AppendStep(w, mac, record, signer), record.segmentId;
      assert SegmentAt(mac, w.store, w.hist, w.emptied, id);
      if signer.available {
        AppendSegment(mac, id, Get(w.hist, id, []), Live(w.store, id), PurgedCount(w.store, id),
                      Lookup(w.store.chainAnchor, id),
                      id in w.emptied, NextRecord(w.store, mac, record, signer.keyId));
      }
      OthersKeep(mac, w.store, w.hist, w.emptied, w'.store, w'.hist, w'.emptied, id);
    }
  }

  ghost predicate Grows(s: Store, hist: map<Id, seq<StoredRecord>>, s': Store, hist': map<Id, seq<StoredRecord>>) {
    && (forall id :: id in hist ==> id in hist' && hist[id] <= hist'[id])
    && (forall id :: PurgedCount(s, id) <= PurgedCount(s', id))
  }

  /** An anchor stays good while history and purges only grow. */
  lemma AnchorsKeep(mac: Mac, h: Hash, s: Store, hist: map<Id, seq<StoredRecord>>,
                    s': Store, hist': map<Id, seq<StoredRecord>>, anchors: set<WormAnchor>)
    requires AnchorsOk(mac, h, s, hist, anchors) && Grows(s, hist, s', hist')
    ensures AnchorsOk(mac, h, s', hist', anchors)
  {
    forall a | a in anchors ensures AnchorOk(mac, h, s', hist', a) {
      assert AnchorOk(mac, h, s, hist, a);
      var id := a.segmentId;
      assert hist'[id][a.firstSeq..a.lastSeq + 1] == hist[id][a.firstSeq..a.lastSeq + 1];
    }
  }

  lemma AppendGrows(w: World, mac: Mac, record: IntentRecord, signer: Signer)
    ensures var w' := AppendStep(w, mac, record, signer); Grows(w.store, w.hist, w'.store, w'.hist)
  {
  }

  lemma AppendKeepsLog(w: World, mac: Mac, record: IntentRecord, signer: Signer)
    requires SegmentsOk(mac, w.store, w.hist, w.emptied) && LogOk(w.hist, w.log)
    ensures var w' := AppendStep(w, mac, record, signer); LogOk(w'.hist, w'.log)
  {
    var w' := AppendStep(w, mac, record, signer);
    AppendGrows(w, mac, record, signer);
    assert SegmentAt(mac, w.store, w.hist, w.emptied, record.segmentId);
    forall k, p | (k, p) in w'.log && p.IntentPayload?
      ensures var id := p.intent.segmentId;
              && id in w'.hist && 0 <= p.seqNo < |w'.hist[id]|
              && w'.hist[id][p.seqNo].keyId == k && LinkOf(w'.hist[id][p.seqNo]).payload == p
    {
      if (k, p) in w.log { assert w.hist[p.intent.segmentId] <= w'.hist[p.intent.segmentId]; }
    }
  }

  lemma NewReceipt(s: Store, hist: map<Id, seq<StoredRecord>>, s': Store, hist': map<Id, seq<StoredRecord>>,
                   r: StoredRecord)
    requires ReceiptsOk(s, hist)
    requires r.record.decisionId !in s.receipts
    requires r.seqNo == |Get(hist, r.record.segmentId, [])| && PurgedCount(s, r.record.segmentId) <= r.seqNo
    requires hist' == hist[r.record.segmentId := Get(hist, r.record.segmentId, []) + [r]]
    requires s'.purged == s.purged && s'.receipts == s.receipts[r.record.decisionId := ReceiptOf(r)]
    ensures ReceiptsOk(s', hist')
  {
    forall k, i | IsLiveAt(s', hist', k, i)
      ensures && hist'[k][i].record.decisionId in s'.receipts
              && s'.receipts[hist'[k][i].record.decisionId] == ReceiptOf(hist'[k][i])
    {
      assert hist'[k][i] != r || k != r.record.segmentId || i != r.seqNo ==>
               IsLiveAt(s, hist, k, i) && hist'[k][i] == hist[k][i];
    }
    forall d | d in s'.receipts
      ensures && IsLiveAt(s', hist', s'.receipts[d].segmentId, s'.receipts[d].seqNo)
              && hist'[s'.receipts[d].segmentId][s'.receipts[d].seqNo].record.decisionId == d
    {
      assert d != r.record.decisionId ==> IsLiveAt(s, hist, s.receipts[d].segmentId, s.receipts[d].seqNo);
    }
  }

  lemma AppendKeepsReceipts(w: World, mac: Mac, record: IntentRecord, signer: Signer)
    requires SegmentsOk(mac, w.store, w.hist, w.emptied) && ReceiptsOk(w.store, w.hist)
    ensures var w' := AppendStep(w, mac, record, signer); ReceiptsOk(w'.store, w'.hist)
  {
    hide ReceiptsOk, SegmentOk, AppendStep;
    var w' := AppendStep(w, mac, record, signer);
    if record.decisionId !in w.store.receipts && signer.available {
      assert SegmentAt(mac, w.store, w.hist, w.emptied, record.segmentId);
      LiveIsRun(w, mac, record.segmentId);
      SignedAppend(w, mac, record, signer);
      NewReceipt(w.store, w.hist, w'.store, w'.hist, NextRecord(w.store, mac, record, signer.keyId));
    } else {
      hide SegmentsOk;
      RefusedAppend(w, mac, record, signer);
      SameReceipts(w.store, w.hist, w'.store, w'.hist);
    }
  }

  lemma SignedAppend(w: World, mac: Mac, record: IntentRecord, signer: Signer)
    requires record.decisionId !in w.store.receipts && signer.available
    ensures var w', r := AppendStep(w, mac, record, signer), NextRecord(w.store, mac, record, signer.keyId);
            && r.record == record
            && r.seqNo == PurgedCount(w.store, record.segmentId) + |Live(w.store, record.segmentId)|
            && w'.hist == w.hist[record.segmentId := Get(w.hist, record.segmentId, []) + [r]]
            && w'.store.purged == w.store.purged
            && w'.store.receipts == w.store.receipts[record.decisionId := ReceiptOf(r)]
  {
  }

  /** An append that stops before signing at most opens an empty segment. */
  lemma RefusedAppend(w: World, mac: Mac, record: IntentRecord, signer: Signer)
    requires record.decisionId in w.store.receipts || !signer.available
    ensures var w' := AppendStep(w, mac, record, signer);
            && w'.store.receipts == w.store.receipts && w'.store.purged == w.store.purged
            && (w'.hist == w.hist || w'.hist == SetDefault(w.hist, record.segmentId, []))
  {
  }

  lemma SameReceipts(s: Store, hist: map<Id, seq<StoredRecord>>, s': Store, hist': map<Id, seq<StoredRecord>>)
    requires ReceiptsOk(s, hist) && s'.receipts == s.receipts && s'.purged == s.purged
    requires hist' == hist || exists id :: hist' == SetDefault(hist, id, [])
    ensures ReceiptsOk(s', hist')
  {
    forall k, i ensures IsLiveAt(s', hist', k, i) <==> IsLiveAt(s, hist, k, i) {
    }
  }

  lemma AppendKeeps(w: World, mac: Mac, h: Hash, record: IntentRecord, signer: Signer)
    requires Inv(w, mac, h)
    ensures Inv(AppendStep(w, mac, record, signer), mac, h)
  {
    var w' := AppendStep(w, mac, record, signer);
    AppendKeepsSegments(w, mac, record, signer);
    AppendKeepsLog(w, mac, record, signer);
    AppendKeepsReceipts(w, mac, record, signer);
    AppendGrows(w, mac, record, signer);
    AnchorsKeep(mac, h, w.store, w.hist, w'.store, w'.hist, (set a | a in w.anchors) + w.seals);
  }

  // ---------------------------------------------------------------------------------------
  // Outcomes
  // ---------------------------------------------------------------------------------------

  lemma LinkedAppend(mac: Mac, chain: seq<StoredOutcome>, r: StoredOutcome)
    requires Linked(mac, OutcomeLinks(chain), 0, GENESIS)
    requires r.seqNo == |chain| && r.prev == if chain == [] then GENESIS else chain[|chain| - 1].mac
    requires r.mac == mac(r.keyId, OutcomeLinkOf(r).payload)
    ensures Linked(mac, OutcomeLinks(chain + [r]), 0, GENESIS)
  {
    assert OutcomeLinks(chain + [r]) == OutcomeLinks(chain) + [OutcomeLinkOf(r)];
    LinkedSnoc(mac, OutcomeLinks(chain), OutcomeLinkOf(r), 0, GENESIS);
  }

  lemma OutcomeKeepsChains(w: World, mac: Mac, receipt: Receipt, outcome: OutcomeRecord, signer: Signer)
    requires OutcomesOk(mac, w.store)
    ensures OutcomesOk(mac, OutcomeStep(w, mac, receipt, outcome, signer).store)
  {
    var id := receipt.segmentId;
    var chain := OutcomesOf(w.store, id);
    assert Linked(mac, OutcomeLinks(chain), 0, GENESIS);
    if signer.available { LinkedAppend(mac, chain, NextOutcome(w.store, mac, id, outcome, signer.keyId)); }
  }

  /** Nothing but outcome chains, outcome keys and recorded seals differ. */
  ghost predicate SameIntents(s: Store, s': Store) {
    && s.segments == s'.segments && s.receipts == s'.receipts && s.purged == s'.purged
    && s.chainAnchor == s'.chainAnchor
  }

  lemma SameIntentsKeeps(mac: Mac, h: Hash, s: Store, s': Store, hist: map<Id, seq<StoredRecord>>, emptied: set<Id>,
                         anchors: Anchors, all: set<WormAnchor>)
    requires SameIntents(s, s')
    requires SegmentsOk(mac, s, hist, emptied) && ReceiptsOk(s, hist) && AnchorsOk(mac, h, s, hist, all)
    requires PurgedOk(s, anchors)
    ensures SegmentsOk(mac, s', hist, emptied) && ReceiptsOk(s', hist) && AnchorsOk(mac, h, s', hist, all)
    ensures PurgedOk(s', anchors)
  {
    forall id ensures SegmentAt(mac, s', hist, emptied, id) {
      assert SegmentAt(mac, s, hist, emptied, id);
    }
    forall id, i ensures IsLiveAt(s', hist, id, i) <==> IsLiveAt(s, hist, id, i) {
    }
    AnchorsKeep(mac, h, s, hist, s', hist, all);
    forall id, i | 0 <= i < PurgedCount(s', id) ensures Covered(anchors, id, i) {
      assert 0 <= i < PurgedCount(s, id);
    }
  }

  lemma OutcomeKeeps(w: World, mac: Mac, h: Hash, receipt: Receipt, outcome: OutcomeRecord, signer: Signer)
    requires Inv(w, mac, h)
    ensures Inv(OutcomeStep(w, mac, receipt, outcome, signer), mac, h)
  {
    hide SegmentsOk, ReceiptsOk, OutcomesOk, AnchorsOk, PurgedOk, PurgesOk;
    var w' := OutcomeStep(w, mac, receipt, outcome, signer);
    OutcomeKeepsChains(w, mac, receipt, outcome, signer);
    SameIntentsKeeps(mac, h, w.store, w'.store, w.hist, w.emptied, w.anchors, (set a | a in w.anchors) + w.seals);
  }

  // ---------------------------------------------------------------------------------------
  // Sealing
  // ---------------------------------------------------------------------------------------

  ghost predicate IsRun(rs: seq<StoredRecord>, p: int) { forall i :: 0 <= i < |rs| ==> rs[i].seqNo == p + i }

  lemma SortedRun(rs: seq<StoredRecord>, p: int)
    requires IsRun(rs, p)
    ensures SortBySeq(rs) == rs
  {
    hide Sort;
    SortIsIdle(SeqAtMost, rs);
  }

  lemma {:induction false} LeavesOfRun(rs: seq<StoredRecord>, p: int, before: int)
    requires IsRun(rs, p)
    ensures var n, leaves := KeepFrom(rs, before), LeavesBefore(rs, Some(before));
            |leaves| == n && forall i :: 0 <= i < n ==> leaves[i] == SegmentLeaf(rs[i].seqNo, rs[i].mac)
  {
    if rs != [] {
      var tail := rs[1..];
      assert IsRun(tail, p + 1) by { assert forall i :: 0 <= i < |tail| ==> tail[i] == rs[i + 1]; }
      LeavesOfRun(tail, p + 1, before);
      assert tail != [] ==> tail[0].seqNo == rs[0].seqNo + 1;
      if rs[0].seqNo < before {
        var rest := LeavesBefore(tail, Some(before));
        assert LeavesBefore(rs, Some(before)) == [SegmentLeaf(rs[0].seqNo, rs[0].mac)] + rest;
      }
    }
  }

  /** The anchor a seal prepares attests exactly a range that starts at the first live record. */
  lemma PreparedAnchor(w: World, mac: Mac, h: Hash, state: EvidenceSegment, before: int, now: Time, signer: Signer)
    requires SegmentsOk(mac, w.store, w.hist, w.emptied)
    requires PrepareAnchor(w.store, mac, h, signer, state, before, now).Ok?
    ensures var a := PrepareAnchor(w.store, mac, h, signer, state, before, now).value;
            && AnchorOk(mac, h, w.store, w.hist, a) && a.segmentId == state.segmentId
            && a.firstSeq == PurgedCount(w.store, state.segmentId)
  {
    var id := state.segmentId;
    var p, n := PurgedCount(w.store, id), |SegmentLeaves(w.store, id, Some(before))|;
    LiveLeaves(w, mac, id, before);
    assert Get(w.hist, id, []) == w.hist[id];
  }

  lemma LiveIsRun(w: World, mac: Mac, id: Id)
    requires SegmentAt(mac, w.store, w.hist, w.emptied, id)
    ensures IsRun(Live(w.store, id), PurgedCount(w.store, id))
    ensures PurgedCount(w.store, id) <= |Get(w.hist, id, [])|
    ensures Live(w.store, id) == Get(w.hist, id, [])[PurgedCount(w.store, id)..]
  {
  }

  lemma LiveLeaves(w: World, mac: Mac, id: Id, before: int)
    requires SegmentsOk(mac, w.store, w.hist, w.emptied)
    ensures var p, hist, leaves :=
              PurgedCount(w.store, id), Get(w.hist, id, []), SegmentLeaves(w.store, id, Some(before));
            && p + |leaves| <= |hist|
            && LeafMacs(leaves) == Macs(hist[p..p + |leaves|])
            && forall i :: 0 <= i < |leaves| ==> leaves[i].seqNo == p + i
  {
    hide SegmentOk, IsRun, SortBySeq, LeavesBefore;
    var p, live := PurgedCount(w.store, id), Live(w.store, id);
    LiveIsRun(w, mac, id);
    SortedRun(live, p);
    LeavesOfRun(live, p, before);
  }

  lemma SealLookKeeps(w: World, mac: Mac, h: Hash, id: Id)
    requires Inv(w, mac, h)
    ensures Inv(SealLookStep(w, id), mac, h)
  {
  }

  lemma SealPrepareKeeps(w: World, mac: Mac, h: Hash, state: EvidenceSegment, before: int, now: Time, signer: Signer)
    requires Inv(w, mac, h)
    ensures Inv(SealPrepareStep(w, mac, h, state, before, now, signer), mac, h)
  {
    if PrepareAnchor(w.store, mac, h, signer, state, before, now).Ok? {
      PreparedAnchor(w, mac, h, state, before, now, signer);
    }
  }

  lemma MoreAnchors(s: Store, anchors: Anchors, anchors': Anchors, purges: set<(Id, int)>)
    requires PurgedOk(s, anchors) && PurgesOk(anchors, purges)
    requires forall a :: a in anchors ==> a in anchors'
    ensures PurgedOk(s, anchors') && PurgesOk(anchors', purges)
  {
    forall id, i | 0 <= i < PurgedCount(s, id) ensures Covered(anchors', id, i) {
      assert Covered(anchors, id, i);
    }
    forall id, before | (id, before) in purges ensures Ends(anchors', id, before) {
      assert Ends(anchors, id, before);
    }
  }

  lemma SealStoreKeeps(w: World, mac: Mac, h: Hash, anchor: WormAnchor)
    requires Inv(w, mac, h)
    ensures Inv(SealStoreStep(w, anchor), mac, h)
  {
    MoreAnchors(w.store, w.anchors, Put(w.anchors, anchor).0, w.checked + w.allowed);
  }

  lemma SealMarkKeeps(w: World, mac: Mac, h: Hash, anchor: WormAnchor)
    requires Inv(w, mac, h)
    ensures Inv(SealMarkStep(w, anchor), mac, h)
  {
    var store := MarkSealed(w.store, anchor.segmentId, anchor).0;
    SameIntentsKeeps(mac, h, w.store, store, w.hist, w.emptied, w.anchors, (set a | a in w.anchors) + w.seals);
  }

  // ---------------------------------------------------------------------------------------
  // Purging
  // ---------------------------------------------------------------------------------------

  lemma PurgeSegment(mac: Mac, id: Id, hist: seq<StoredRecord>, live: seq<StoredRecord>, p: nat,
                     anchor: Option<Bytes>, emptied: bool, n: nat)
    requires SegmentOk(mac, id, hist, live, p, anchor, emptied)
    requires 0 < n <= |live|
    ensures SegmentOk(mac, id, hist, live[n..], p + n, Some(live[n - 1].mac), live[n..] == [])
  {
    assert live[n..] == hist[p + n..];
    assert live[n - 1] == hist[p + n - 1];
  }

  /** What a purge of `n` records does: it drops them and their receipts and keeps the last code. */
  ghost predicate Purges(w: World, w': World, id: Id, n: nat) {
    var live := Live(w.store, id);
    && 0 < n <= |live|
    && w'.hist == w.hist && w'.anchors == w.anchors
    && w'.store.segments == w.store.segments[id := live[n..]]
    && w'.store.purged == w.store.purged[id := PurgedCount(w.store, id) + n]
    && w'.store.chainAnchor == w.store.chainAnchor[id := live[n - 1].mac]
    && w'.store.receipts == w.store.receipts - DecisionIds(live[..n])
    && w'.emptied == if live[n..] == [] then w.emptied + {id} else w.emptied - {id}
  }

  lemma PurgeEffect(w: World, id: Id, before: int)
    ensures var w', n := PurgeDeleteStep(w, id, before), KeepFrom(Live(w.store, id), before);
            if n == 0 then w' == w else Purges(w, w', id, n)
  {
  }

  lemma PurgeSpares(w: World, w': World, id: Id, n: nat)
    requires Purges(w, w', id, n)
    ensures forall k :: k != id ==> SameSegment(w.store, w.hist, w.emptied, w'.store, w'.hist, w'.emptied, k)
  {
  }

  lemma PurgeKeepsSegments(w: World, w': World, mac: Mac, id: Id, n: nat)
    requires SegmentsOk(mac, w.store, w.hist, w.emptied) && Purges(w, w', id, n) && id in w.hist
    ensures SegmentsOk(mac, w'.store, w'.hist, w'.emptied)
  {
    hide SegmentOk, SameSegment;
    PurgeSpares(w, w', id, n);
    assert SegmentAt(mac, w.store, w.hist, w.emptied, id);
    PurgeSegment(mac, id, w.hist[id], Live(w.store, id), PurgedCount(w.store, id), Lookup(w.store.chainAnchor, id),
                 id in w.emptied, n);
    OthersKeep(mac, w.store, w.hist, w.emptied, w'.store, w'.hist, w'.emptied, id);
  }

  lemma {:induction false} InDecisionIds(rs: seq<StoredRecord>, d: Id)
    ensures d in DecisionIds(rs) <==> exists i :: 0 <= i < |rs| && rs[i].record.decisionId == d
  {
    if rs != [] {
      var init, last := rs[..|rs| - 1], rs[|rs| - 1];
      InDecisionIds(init, d);
      if i :| 0 <= i < |rs| && rs[i].record.decisionId == d {
        assert i < |init| ==> init[i].record.decisionId == d;
      }
      if i :| 0 <= i < |init| && init[i].record.decisionId == d {
        assert rs[i].record.decisionId == d;
      }
    }
  }

  /** Purging drops the receipts of the purged records and of no others. */
  lemma PurgeKeepsReceipts(w: World, w': World, mac: Mac, id: Id, n: nat)
    requires SegmentsOk(mac, w.store, w.hist, w.emptied) && ReceiptsOk(w.store, w.hist) && Purges(w, w', id, n)
    requires id in w.hist
    ensures ReceiptsOk(w'.store, w'.hist)
  {
    hide ReceiptsOk, DecisionIds, SegmentOk;
    var live, p := Live(w.store, id), PurgedCount(w.store, id);
    LiveIsRun(w, mac, id);
    assert live[..n] == w.hist[id][p..p + n];
    HistoryIsNumbered(mac, w.store, w.hist, w.emptied);
    DropReceipts(w.store, w.hist, w'.store, id, live[..n]);
  }

  ghost predicate Numbered(hist: map<Id, seq<StoredRecord>>) {
    forall k, i {:trigger hist[k][i]} :: k in hist && 0 <= i < |hist[k]| ==>
             hist[k][i].seqNo == i && hist[k][i].record.segmentId == k
  }

  lemma HistoryIsNumbered(mac: Mac, s: Store, hist: map<Id, seq<StoredRecord>>, emptied: set<Id>)
    requires SegmentsOk(mac, s, hist, emptied)
    ensures Numbered(hist)
  {
    forall k, i | k in hist && 0 <= i < |hist[k]| ensures hist[k][i].seqNo == i && hist[k][i].record.segmentId == k {
      assert SegmentAt(mac, s, hist, emptied, k);
    }
  }

  ghost predicate DropsReceipts(s: Store, hist: map<Id, seq<StoredRecord>>, s': Store, id: Id,
                                gone: seq<StoredRecord>) {
    && id in hist && PurgedCount(s, id) + |gone| <= |hist[id]|
    && gone == hist[id][PurgedCount(s, id)..PurgedCount(s, id) + |gone|]
    && Numbered(hist)
    && s'.receipts == s.receipts - DecisionIds(gone)
    && s'.purged == s.purged[id := PurgedCount(s, id) + |gone|]
  }

  lemma LiveIsNotDropped(s: Store, hist: map<Id, seq<StoredRecord>>, s': Store, id: Id, gone: seq<StoredRecord>, k: Id,
                         i: int)
    requires ReceiptsOk(s, hist) && DropsReceipts(s, hist, s', id, gone)
    requires IsLiveAt(s', hist, k, i)
    ensures IsLiveAt(s, hist, k, i) && hist[k][i].record.decisionId !in DecisionIds(gone)
  {
    var p, d := PurgedCount(s, id), hist[k][i].record.decisionId;
    assert IsLiveAt(s, hist, k, i);
    forall j | 0 <= j < |gone| ensures gone[j].record.decisionId != d {
      assert gone[j] == hist[id][p + j] && IsLiveAt(s, hist, id, p + j);
    }
    InDecisionIds(gone, d);
  }

  lemma InSlice(hist: seq<StoredRecord>, p: nat, gone: seq<StoredRecord>, i: nat)
    requires p + |gone| <= |hist| && gone == hist[p..p + |gone|] && p <= i < p + |gone|
    ensures hist[i].record.decisionId in DecisionIds(gone)
  {
    assert gone[i - p] == hist[i];
    InDecisionIds(gone, hist[i].record.decisionId);
  }

  lemma KeptIsLive(s: Store, hist: map<Id, seq<StoredRecord>>, s': Store, id: Id, gone: seq<StoredRecord>, d: Id)
    requires ReceiptsOk(s, hist) && DropsReceipts(s, hist, s', id, gone)
    requires d in s'.receipts
    ensures IsLiveAt(s', hist, s.receipts[d].segmentId, s.receipts[d].seqNo)
  {
    hide DecisionIds;
    var p, k, i := PurgedCount(s, id), s.receipts[d].segmentId, s.receipts[d].seqNo;
    assert IsLiveAt(s, hist, k, i);
    if k == id && i < p + |gone| { InSlice(hist[id], p, gone, i); }
  }

  lemma DropReceipts(s: Store, hist: map<Id, seq<StoredRecord>>, s': Store, id: Id, gone: seq<StoredRecord>)
    requires ReceiptsOk(s, hist) && DropsReceipts(s, hist, s', id, gone)
    ensures ReceiptsOk(s', hist)
  {
    forall k, i | IsLiveAt(s', hist, k, i)
      ensures && hist[k][i].record.decisionId in s'.receipts
              && s'.receipts[hist[k][i].record.decisionId] == ReceiptOf(hist[k][i])
    {
      LiveIsNotDropped(s, hist, s', id, gone, k, i);
    }
    forall d | d in s'.receipts
      ensures && IsLiveAt(s', hist, s'.receipts[d].segmentId, s'.receipts[d].seqNo)
              && hist[s'.receipts[d].segmentId][s'.receipts[d].seqNo].record.decisionId == d
    {
      KeptIsLive(s, hist, s', id, gone, d);
    }
  }

  /** What a purge deletes lies in the range of the anchor that allowed it. */
  lemma PurgeKeepsCovered(w: World, w': World, mac: Mac, h: Hash, id: Id, before: int, a: WormAnchor)
    requires SegmentsOk(mac, w.store, w.hist, w.emptied) && PurgedOk(w.store, w.anchors)
    requires a in w.anchors && a.segmentId == id && a.lastSeq == before - 1 && AnchorOk(mac, h, w.store, w.hist, a)
    requires Purges(w, w', id, KeepFrom(Live(w.store, id), before))
    ensures PurgedOk(w'.store, w.anchors)
  {
    var p, live := PurgedCount(w.store, id), Live(w.store, id);
    assert SegmentAt(mac, w.store, w.hist, w.emptied, id);
    forall k, i | 0 <= i < PurgedCount(w'.store, k) ensures Covered(w.anchors, k, i) {
      if k == id && p <= i {
        assert live[i - p].seqNo == i;
        assert a.Covers(i);
      } else {
        assert 0 <= i < PurgedCount(w.store, k);
      }
    }
  }

  lemma PurgeDeleteKeeps(w: World, mac: Mac, h: Hash, id: Id, before: int)
    requires Inv(w, mac, h) && (id, before) in w.allowed
    ensures Inv(PurgeDeleteStep(w, id, before), mac, h)
  {
    hide ReceiptsOk, PurgedOk, LogOk;
    var w', n := PurgeDeleteStep(w, id, before), KeepFrom(Live(w.store, id), before);
    PurgeEffect(w, id, before);
    if n > 0 {
      assert Ends(w.anchors, id, before);
      var a :| a in w.anchors && a.segmentId == id && a.lastSeq == before - 1;
      PurgeKeepsSegments(w, w', mac, id, n);
      PurgeKeepsReceipts(w, w', mac, id, n);
      PurgeKeepsCovered(w, w', mac, h, id, before, a);
      AnchorsKeep(mac, h, w.store, w.hist, w'.store, w'.hist, (set x | x in w.anchors) + w.seals);
    }
  }

  // ---------------------------------------------------------------------------------------
  // Every run
  // ---------------------------------------------------------------------------------------

  lemma PurgeCheckKeeps(w: World, mac: Mac, h: Hash, id: Id, before: int, signer: Signer)
    requires Inv(w, mac, h)
    ensures Inv(PurgeCheckStep(w, mac, id, before, signer), mac, h)
  {
    if CoveringAnchor(mac, signer, w.anchors, id, before).Ok?
    && CoveringAnchor(mac, signer, w.anchors, id, before).value.Some? {
      assert Ends(w.anchors, id, before);
    }
  }

  lemma PurgeAllowKeeps(w: World, mac: Mac, h: Hash, id: Id, before: int)
    requires Inv(w, mac, h)
    ensures Inv(PurgeAllowStep(w, id, before), mac, h)
  {
  }

  lemma StepKeeps(w: World, mac: Mac, h: Hash, a: Action)
    requires Inv(w, mac, h)
    ensures Inv(Step(w, mac, h, a), mac, h)
  {
    hide Inv, AppendStep, OutcomeStep, SealLookStep, SealPrepareStep, SealStoreStep;
    hide SealMarkStep, PurgeCheckStep, PurgeAllowStep, PurgeDeleteStep;
    match a
    case Append(record, signer) => AppendKeeps(w, mac, h, record, signer);
    case Outcome(receipt, outcome, signer) => OutcomeKeeps(w, mac, h, receipt, outcome, signer);
    case SealLook(id) => SealLookKeeps(w, mac, h, id);
    case SealPrepare(state, before, now, signer) => SealPrepareKeeps(w, mac, h, state, before, now, signer);
    case SealStore(anchor) => SealStoreKeeps(w, mac, h, anchor);
    case SealMark(anchor) => SealMarkKeeps(w, mac, h, anchor);
    case PurgeCheck(id, before, signer) => PurgeCheckKeeps(w, mac, h, id, before, signer);
    case PurgeAllow(id, before) => PurgeAllowKeeps(w, mac, h, id, before);
    case PurgeDelete(id, before) => if (id, before) in w.allowed { PurgeDeleteKeeps(w, mac, h, id, before); }
  }

  lemma StartKeeps(mac: Mac, h: Hash)
    ensures Inv(INITIAL, mac, h)
  {
  }

  lemma {:induction false} RunKeeps(trace: seq<World>, mac: Mac, h: Hash, i: nat)
    requires IsTrace(trace, mac, h) && i < |trace|
    ensures Inv(trace[i], mac, h)
  {
    hide Step;
    if i == 0 {
      StartKeeps(mac, h);
    } else {
      hide Inv;
      RunKeeps(trace, mac, h, i - 1);
      var j := i - 1;
      assert Next(trace[j], trace[j + 1], mac, h);
      var a :| trace[i] == Step(trace[i - 1], mac, h, a);
      StepKeeps(trace[i - 1], mac, h, a);
    }
  }

  // ---------------------------------------------------------------------------------------
  // Anchor ids and tenants
  // ---------------------------------------------------------------------------------------

  ghost predicate IdsDistinct(anchors: Anchors) {
    forall i, j :: 0 <= i < j < |anchors| ==> anchors[i].anchorId != anchors[j].anchorId
  }

  /** Every segment has a tenant, which its anchors and the states read of it name. */
  ghost predicate TenantsOk(s: Store, states: set<EvidenceSegment>, anchors: set<WormAnchor>) {
    && s.segments.Keys <= s.tenants.Keys
    && (forall t :: t in states ==> t.segmentId in s.tenants && t.tenantId == s.tenants[t.segmentId])
    && forall a :: a in anchors ==> a.segmentId in s.tenants && a.tenantId == s.tenants[a.segmentId]
  }

  ghost predicate Labelled(w: World) {
    IdsDistinct(w.anchors) && TenantsOk(w.store, w.states, (set a | a in w.anchors) + w.seals)
  }

  lemma PutKeepsDistinct(anchors: Anchors, a: WormAnchor)
    requires IdsDistinct(anchors)
    ensures IdsDistinct(Put(anchors, a).0)
  {
    hide Find;
    if Find(anchors, a.anchorId).None? {
      assert forall i :: 0 <= i < |anchors| ==> anchors[i] in anchors;
    }
  }

  lemma PreparedStamps(s: Store, mac: Mac, h: Hash, state: EvidenceSegment, before: int, now: Time, signer: Signer)
    requires PrepareAnchor(s, mac, h, signer, state, before, now).Ok?
    ensures var a := PrepareAnchor(s, mac, h, signer, state, before, now).value;
            && (a.segmentId, a.tenantId) == (state.segmentId, state.tenantId)
            && a.sealedAt == now && a.keyId == signer.keyId
  {
    hide SegmentLeaves, MerkleRoot, Contiguous;
  }

  ghost predicate KeepsTenants(s: Store, s': Store) {
    && (s.segments.Keys <= s.tenants.Keys ==> s'.segments.Keys <= s'.tenants.Keys)
    && forall id :: id in s.tenants ==> id in s'.tenants && s'.tenants[id] == s.tenants[id]
  }

  lemma AppendKeepsTenants(w: World, mac: Mac, record: IntentRecord, signer: Signer)
    ensures KeepsTenants(w.store, AppendStep(w, mac, record, signer).store)
  {
    hide NextRecord, ReceiptOf, LinkOf;
  }

  lemma OutcomeKeepsTenants(w: World, mac: Mac, receipt: Receipt, outcome: OutcomeRecord, signer: Signer)
    ensures KeepsTenants(w.store, OutcomeStep(w, mac, receipt, outcome, signer).store)
  {
    hide NextOutcome;
  }

  lemma PurgeKeepsTenants(w: World, id: Id, before: int)
    ensures KeepsTenants(w.store, PurgeDeleteStep(w, id, before).store)
  {
    hide DecisionIds;
  }

  lemma StepKeepsTenants(w: World, mac: Mac, h: Hash, a: Action)
    ensures KeepsTenants(w.store, Step(w, mac, h, a).store)
  {
    hide AppendStep, OutcomeStep, PurgeDeleteStep, PrepareAnchor, CoveringAnchor, Put;
    match a
    case Append(record, signer) => AppendKeepsTenants(w, mac, record, signer);
    case Outcome(receipt, outcome, signer) => OutcomeKeepsTenants(w, mac, receipt, outcome, signer);
    case PurgeDelete(id, before) => PurgeKeepsTenants(w, id, before);
    case _ =>
  }

  /** A step leaves the anchors alone, prepares one, or stores a prepared one. */
  lemma StepAnchors(w: World, mac: Mac, h: Hash, a: Action)
    requires Labelled(w)
    ensures var w' := Step(w, mac, h, a);
            && IdsDistinct(w'.anchors) && TenantsOk(w.store, w'.states, (set x | x in w'.anchors) + w'.seals)
  {
    hide AppendIntent, AppendOutcome, SealAndPurge, NextRecord, NextOutcome;
    hide PrepareAnchor, CoveringAnchor, Find, IdsDistinct;
    match a
    case SealPrepare(state, before, now, signer) =>
      if PrepareAnchor(w.store, mac, h, signer, state, before, now).Ok? {
        PreparedStamps(w.store, mac, h, state, before, now, signer);
      }
    case SealStore(anchor) => PutKeepsDistinct(w.anchors, anchor);
    case _ =>
  }

  lemma StepLabels(w: World, mac: Mac, h: Hash, a: Action)
    requires Labelled(w)
    ensures Labelled(Step(w, mac, h, a))
  {
    hide Step, IdsDistinct;
    StepKeepsTenants(w, mac, h, a);
    StepAnchors(w, mac, h, a);
  }

  lemma {:induction false} RunLabels(trace: seq<World>, mac: Mac, h: Hash, i: nat)
    requires IsTrace(trace, mac, h) && i < |trace|
    ensures Labelled(trace[i])
  {
    if i > 0 {
      hide Step, Labelled;
      RunLabels(trace, mac, h, i - 1);
      var j := i - 1;
      assert Next(trace[j], trace[j + 1], mac, h);
      var a :| trace[i] == Step(trace[i - 1], mac, h, a);
      StepLabels(trace[i - 1], mac, h, a);
    }
  }

  lemma {:induction false} FindsItself(anchors: Anchors, a: WormAnchor)
    requires IdsDistinct(anchors) && a in anchors
    ensures Find(anchors, a.anchorId) == Some(a)
  {
    if anchors[0] != a {
      assert a in anchors[1..];
      FindsItself(anchors[1..], a);
    }
  }
}
