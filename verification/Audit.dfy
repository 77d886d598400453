/** What an auditor may conclude, in every state that the evidence system can reach. */
module Audit {
  import opened Bytes
  import opened Evidence
  import opened Chain
  import opened Ledger
  import opened Merkle
  import opened Sealing
  import opened Retention
  import opened Sorting

  /** The states that some run ends in. */
  ghost predicate Reachable(w: World, mac: Mac, h: Hash) {
    exists trace :: IsTrace(trace, mac, h) && trace[|trace| - 1] == w
  }

  lemma ReachableKeeps(w: World, mac: Mac, h: Hash)
    requires Reachable(w, mac, h)
    ensures Inv(w, mac, h)
  {
    hide Inv, Next;
    var trace :| IsTrace(trace, mac, h) && trace[|trace| - 1] == w;
    RunKeeps(trace, mac, h, |trace| - 1);
  }

  // ---------------------------------------------------------------------------------------
  // Purged records stay provable
  // ---------------------------------------------------------------------------------------

  /** A signed anchor over a range of the history, with the root of exactly that range. */
  ghost predicate Attests(mac: Mac, h: Hash, a: WormAnchor, hist: seq<StoredRecord>) {
    && a.Valid() && a.lastSeq < |hist| && Authentic(mac, a)
    && a.merkleRoot == MerkleRoot(h, SealedMacs(a, hist))
  }

  function SealedMacs(a: WormAnchor, hist: seq<StoredRecord>): (macs: seq<Bytes>)
    requires a.Valid() && a.lastSeq < |hist|
    ensures |macs| == a.treeSize
  {
    Macs(hist[a.firstSeq..a.lastSeq + 1])
  }

  /** The proof built from the sealed leaves verifies the record's code against the anchor. */
  ghost predicate ProvesRecord(h: Hash, a: WormAnchor, hist: seq<StoredRecord>, i: nat)
    requires a.Valid() && a.lastSeq < |hist| && a.Covers(i)
  {
    var path := InclusionPath(h, SealedMacs(a, hist), i - a.firstSeq);
    Accepts(h, path, hist[i].mac, a.merkleRoot) && Locate(a.treeSize, Flags(path)) == Some(i - a.firstSeq)
  }

  lemma AttestedIsProvable(mac: Mac, h: Hash, a: WormAnchor, hist: seq<StoredRecord>, i: nat)
    requires IsHash(h) && Attests(mac, h, a, hist) && a.Covers(i)
    ensures ProvesRecord(h, a, hist, i)
  {
    var sealed := SealedMacs(a, hist);
    assert sealed[i - a.firstSeq] == hist[i].mac;
    InclusionComplete(h, sealed, i - a.firstSeq);
  }

  lemma AnchorsAttest(w: World, mac: Mac, h: Hash, a: WormAnchor)
    requires Reachable(w, mac, h) && a in w.anchors
    ensures a.segmentId in w.hist && Attests(mac, h, a, w.hist[a.segmentId])
  {
    ReachableKeeps(w, mac, h);
    assert AnchorOk(mac, h, w.store, w.hist, a);
  }

  /** Retention never destroys the ability to prove what was purged, however operations interleave. */
  lemma PurgedRecordsStayProvable(w: World, mac: Mac, h: Hash, id: Id, i: nat) returns (a: WormAnchor)
    requires Reachable(w, mac, h)
    requires IsHash(h) && i < PurgedCount(w.store, id)
    ensures a in w.anchors && a.segmentId == id && a.Covers(i)
    ensures id in w.hist && Attests(mac, h, a, w.hist[id]) && ProvesRecord(h, a, w.hist[id], i)
  {
    ReachableKeeps(w, mac, h);
    assert Covered(w.anchors, id, i);
    a :| a in w.anchors && a.segmentId == id && a.Covers(i);
    AnchorsAttest(w, mac, h, a);
    AttestedIsProvable(mac, h, a, w.hist[id], i);
  }

  lemma AttestedIsSound(mac: Mac, h: Hash, a: WormAnchor, hist: seq<StoredRecord>, leaf: Bytes, path: seq<PathEntry>)
    requires IsHash(h) && WellFormed(path) && Attests(mac, h, a, hist) && Accepts(h, path, leaf, a.merkleRoot)
    ensures CollisionBetween(h, HashedByProof(h, leaf, path), HashedBy(h, SealedMacs(a, hist))) ||
            (Locate(a.treeSize, Flags(path)).Some?
             && leaf == hist[a.firstSeq + Locate(a.treeSize, Flags(path)).value].mac)
  {
    var sealed := SealedMacs(a, hist);
    InclusionSound(h, sealed, leaf, path);
    if Locate(a.treeSize, Flags(path)).Some? {
      var at := Locate(a.treeSize, Flags(path)).value;
      assert sealed[at] == hist[a.firstSeq + at].mac;
    }
  }

  /**
   * And nothing else can be proved in its place: a proof that an anchor's root accepts carries the
   * code recorded at the position its path spells, or exhibits a collision.
   */
  lemma OnlyHistoryIsProvable(w: World, mac: Mac, h: Hash, a: WormAnchor, leaf: Bytes, path: seq<PathEntry>)
    requires Reachable(w, mac, h)
    requires IsHash(h) && WellFormed(path)
    requires a in w.anchors && Accepts(h, path, leaf, a.merkleRoot)
    ensures a.segmentId in w.hist && Attests(mac, h, a, w.hist[a.segmentId])
    ensures var hist := w.hist[a.segmentId];
            CollisionBetween(h, HashedByProof(h, leaf, path), HashedBy(h, SealedMacs(a, hist))) ||
            (Locate(a.treeSize, Flags(path)).Some?
             && leaf == hist[a.firstSeq + Locate(a.treeSize, Flags(path)).value].mac)
  {
    AnchorsAttest(w, mac, h, a);
    AttestedIsSound(mac, h, a, w.hist[a.segmentId], leaf, path);
  }

  // ---------------------------------------------------------------------------------------
  // Honest segments verify
  // ---------------------------------------------------------------------------------------

  ghost predicate KeysKept(signer: Signer, rs: seq<StoredRecord>) {
    forall i :: 0 <= i < |rs| ==> signer.CanVerify(rs[i].keyId)
  }

  /** The state that breaks verification: an append into a segment that its last purge emptied. */
  ghost predicate Orphaned(w: World, id: Id) { id in w.emptied && Live(w.store, id) != [] }

  /** Orphaned, and the expected code is not the genesis value by coincidence. */
  ghost predicate Severed(w: World, id: Id) { Orphaned(w, id) && ExpectedPrev(w.store, id) != GENESIS }

  lemma LiveAt(w: World, mac: Mac, id: Id, i: nat)
    requires SegmentAt(mac, w.store, w.hist, w.emptied, id) && i < |Live(w.store, id)|
    ensures var live := Live(w.store, id);
            LinkedAt(mac, LinkOf(live[i]), PurgedCount(w.store, id) + i,
                     if i > 0 then live[i - 1].mac else if Orphaned(w, id) then GENESIS else ExpectedPrev(w.store, id))
  {
    var live, p, hist := Live(w.store, id), PurgedCount(w.store, id), Get(w.hist, id, []);
    assert live[i] == hist[p + i];
    if i > 0 { assert live[i - 1] == hist[p + i - 1]; }
  }

  lemma LiveIsLinked(w: World, mac: Mac, id: Id)
    requires SegmentAt(mac, w.store, w.hist, w.emptied, id)
    ensures Linked(mac, Links(Live(w.store, id)), PurgedCount(w.store, id), ExpectedPrev(w.store, id)) <==>
            !Orphaned(w, id) || ExpectedPrev(w.store, id) == GENESIS
  {
    var live, links, p, prev :=
          Live(w.store, id), Links(Live(w.store, id)), PurgedCount(w.store, id), ExpectedPrev(w.store, id);
    forall i | 0 <= i < |links|
      ensures LinkedAt(mac, links[i], p + i, if i > 0 then links[i - 1].mac else if Orphaned(w, id) then GENESIS
                       else prev)
    {
      LiveAt(w, mac, id, i);
    }
    if Orphaned(w, id) { assert links[0].prev == GENESIS; }
  }

  /**
   * With the keys kept, an honestly written segment verifies as SEALED_PURGED exactly when part of
   * it was purged and as INTACT otherwise, with every live record checked. It is reported BROKEN
   * exactly if a record was appended after the last purge had emptied the segment: such a record
   * links to the genesis value, while verification expects the code of the last purged record, and
   * names that first live record. A segment that was never opened is unverifiable, and no other is.
   */
  lemma HonestVerdict(w: World, mac: Mac, h: Hash, signer: Signer, id: Id)
    requires Reachable(w, mac, h) && KeysKept(signer, Live(w.store, id))
    ensures var v := VerifyIntents(w.store, mac, signer, id);
            && (v.status == Unverifiable <==> id !in w.hist)
            && (id !in w.hist ==> v == Verdict(Unverifiable, 0, None))
            && (id in w.hist <==> id in w.store.segments)
            && (id in w.hist ==>
                && (v.status == Broken <==> Severed(w, id))
                && (v.status == SealedPurged <==> v.status != Broken && PurgedCount(w.store, id) > 0)
                && (v.status == Intact <==> PurgedCount(w.store, id) == 0)
                && (v.status == Broken ==> v.checked == 0 && v.brokenSeq == Some(PurgedCount(w.store, id)))
                && (v.status != Broken ==> v.checked == |Live(w.store, id)| && v.brokenSeq == None))
  {
    ReachableKeeps(w, mac, h);
    assert SegmentAt(mac, w.store, w.hist, w.emptied, id);
    hide LogOk, ReceiptsOk, OutcomesOk, AnchorsOk, PurgedOk, PurgesOk, Reachable, Rows, Chained, Linked, Walk, Severed;
    LiveWalk(w, mac, signer, id);
  }

  /** Walking the live records finds them intact exactly if the segment is not severed. */
  lemma LiveWalk(w: World, mac: Mac, signer: Signer, id: Id)
    requires SegmentAt(mac, w.store, w.hist, w.emptied, id) && KeysKept(signer, Live(w.store, id))
    ensures var v := Walk(mac, signer, Links(Live(w.store, id)), PurgedCount(w.store, id), ExpectedPrev(w.store, id));
            v == if Severed(w, id) then Verdict(Broken, 0, Some(PurgedCount(w.store, id)))
                 else Verdict(Intact, |Live(w.store, id)|, None)
    ensures Severed(w, id) ==> PurgedCount(w.store, id) > 0
  {
    if Severed(w, id) {
      SeveredHead(w, mac, signer, id);
    } else {
      hide Walk;
      var links := Links(Live(w.store, id));
      LiveIsLinked(w, mac, id);
      assert AllVerifiable(signer, links);
      WalkIntact(mac, signer, links, PurgedCount(w.store, id), ExpectedPrev(w.store, id));
    }
  }

  lemma SeveredHead(w: World, mac: Mac, signer: Signer, id: Id)
    requires SegmentAt(mac, w.store, w.hist, w.emptied, id) && Severed(w, id)
    ensures var v := Walk(mac, signer, Links(Live(w.store, id)), PurgedCount(w.store, id), ExpectedPrev(w.store, id));
            v == Verdict(Broken, 0, Some(PurgedCount(w.store, id)))
  {
    LiveAt(w, mac, id, 0);
  }

  lemma TraceSnoc(trace: seq<World>, w: World, mac: Mac, h: Hash)
    requires IsTrace(trace, mac, h) && Next(trace[|trace| - 1], w, mac, h)
    ensures Reachable(w, mac, h)
  {
    hide Next;
    var longer := trace + [w];
    forall i | 0 <= i < |longer| - 1 ensures Next(longer[i], longer[i + 1], mac, h) {
      assert i < |trace| - 1 ==> Next(trace[i], trace[i + 1], mac, h);
    }
    assert IsTrace(longer, mac, h);
  }

  lemma StepIsReachable(w: World, mac: Mac, h: Hash, a: Action)
    requires Reachable(w, mac, h)
    ensures Reachable(Step(w, mac, h, a), mac, h)
  {
    hide Step;
    var trace :| IsTrace(trace, mac, h) && trace[|trace| - 1] == w;
    assert Next(w, Step(w, mac, h, a), mac, h);
    TraceSnoc(trace, Step(w, mac, h, a), mac, h);
  }

  lemma EmptyingPurge(w: World, mac: Mac, h: Hash, id: Id, before: int)
    requires (id, before) in w.allowed && Live(w.store, id) != [] && forall r :: r in Live(w.store, id) ==>
               r.seqNo < before
    ensures var w', live := Step(w, mac, h, PurgeDelete(id, before)), Live(w.store, id);
            && Live(w'.store, id) == [] && id in w'.emptied && PurgedCount(w'.store, id) > 0
            && Get(w'.store.chainAnchor, id, GENESIS) == live[|live| - 1].mac
            && w'.store.receipts.Keys <= w.store.receipts.Keys
  {
    assert KeepFrom(Live(w.store, id), before) == |Live(w.store, id)|;
    PurgeEffect(w, id, before);
  }

  lemma AppendOrphans(w: World, mac: Mac, record: IntentRecord, signer: Signer)
    requires Live(w.store, record.segmentId) == [] && record.segmentId in w.emptied
    requires signer.available && record.decisionId !in w.store.receipts
    ensures var w', id := AppendStep(w, mac, record, signer), record.segmentId;
            && Orphaned(w', id) && id in w'.store.segments && ExpectedPrev(w'.store, id) == ExpectedPrev(w.store, id)
            && Live(w'.store, id) == [NextRecord(w.store, mac, record, signer.keyId)]
  {
  }

  /**
   * Deleting every live record and then appending one makes verification report BROKEN, unless the
   * last deleted code happens to be the genesis value.
   */
  lemma AppendAfterEmptyingPurge(w: World, mac: Mac, h: Hash, before: int, record: IntentRecord, signer: Signer,
                                 verifier: Signer)
    requires Reachable(w, mac, h)
    requires (record.segmentId, before) in w.allowed && Live(w.store, record.segmentId) != []
    requires forall r :: r in Live(w.store, record.segmentId) ==> r.seqNo < before
    requires signer.available && record.decisionId !in w.store.receipts && verifier.CanVerify(signer.keyId)
    ensures var id, live := record.segmentId, Live(w.store, record.segmentId);
            var w' := Step(Step(w, mac, h, PurgeDelete(id, before)), mac, h, Append(record, signer));
            && Reachable(w', mac, h) && Orphaned(w', id)
            && (VerifyIntents(w'.store, mac, verifier, id).status == Broken <==> live[|live| - 1].mac != GENESIS)
  {
    hide Reachable, VerifyIntents, AppendStep, PurgeDeleteStep;
    var id := record.segmentId;
    var purged := Step(w, mac, h, PurgeDelete(id, before));
    StepIsReachable(w, mac, h, PurgeDelete(id, before));
    StepIsReachable(purged, mac, h, Append(record, signer));
    EmptyingPurge(w, mac, h, id, before);
    AppendOrphans(purged, mac, record, signer);
    HonestVerdict(Step(purged, mac, h, Append(record, signer)), mac, h, verifier, id);
  }

  // Such a run, from the first append on

  /** One record in a segment of its own, and everything it takes to seal it. */
  lemma OneRecord(mac: Mac, h: Hash, record: IntentRecord, signer: Signer, now: Time)
    requires signer.available
    ensures var id, w := record.segmentId, AppendStep(INITIAL, mac, record, signer);
            var r := NextRecord(EMPTY, mac, record, signer.keyId);
            && Live(w.store, id) == [r] && r.seqNo == 0 && w.store.receipts.Keys == {record.decisionId}
            && w.anchors == [] && id in w.store.segments && SegmentState(w.store, id).Ok?
            && SegmentState(w.store, id).value.Some?
  {
  }

  /** Sealing the first record, whatever anchor the segment has; what counts is that its state is well formed. */
  lemma PrepareFirst(s: Store, mac: Mac, h: Hash, id: Id, r: StoredRecord, signer: Signer, now: Time)
    requires signer.available && Live(s, id) == [r] && r.seqNo == 0
    requires SegmentState(s, id).Ok? && SegmentState(s, id).value.Some?
    ensures var prepared := PrepareSeal(s, mac, h, signer, id, 1, now);
            && prepared.Ok? && prepared.value.segmentId == id && prepared.value.sealedAt == now
            && (prepared.value.firstSeq, prepared.value.lastSeq) == (0, 0)
  {
    hide MerkleRoot;
    SortIsIdle(SeqAtMost, [r]);
    assert [r][1..] == [];
    assert LeavesBefore([r], Some(1)) == [SegmentLeaf(0, r.mac)];
  }

  lemma OneAnchor(w: World, mac: Mac, h: Hash, id: Id, r: StoredRecord, signer: Signer, now: Time)
    requires signer.CanVerify(signer.keyId) && Live(w.store, id) == [r] && r.seqNo == 0
    requires SegmentState(w.store, id).Ok? && SegmentState(w.store, id).value.Some?
    ensures var prepared := PrepareSeal(w.store, mac, h, signer, id, 1, now);
            && prepared.Ok? && prepared.value.segmentId == id && prepared.value.lastSeq == 0
            && CoveringAnchor(mac, signer, [prepared.value], id, 1) == Ok(Some(prepared.value))
  {
    hide MerkleRoot;
    PrepareFirst(w.store, mac, h, id, r, signer, now);
    var a := PrepareSeal(w.store, mac, h, signer, id, 1, now).value;
    assert [a][1..] == [] && OfSegment([a], id) == [a];
    SortIsIdle(NotAfter, [a]);
  }

  /** Its seal, stored and recorded. */
  lemma OneStored(w: World, mac: Mac, h: Hash, id: Id, signer: Signer, now: Time) returns (w': World, a: WormAnchor)
    requires Reachable(w, mac, h) && w.anchors == [] && id in w.store.segments
    requires SegmentState(w.store, id).Ok? && SegmentState(w.store, id).value.Some?
    requires var prepared := PrepareSeal(w.store, mac, h, signer, id, 1, now);
             prepared.Ok? && prepared.value.segmentId == id
    ensures Reachable(w', mac, h) && a == PrepareSeal(w.store, mac, h, signer, id, 1, now).value && w'.anchors == [a]
    ensures w'.store == w.store.(wormAnchors := w.store.wormAnchors[id := a])
  {
    hide Reachable, PrepareAnchor, SegmentState;
    var state := SegmentState(w.store, id).value.value;
    a := PrepareSeal(w.store, mac, h, signer, id, 1, now).value;
    StepIsReachable(w, mac, h, SealLook(id));
    var w1 := Step(w, mac, h, SealLook(id));
    StepIsReachable(w1, mac, h, SealPrepare(state, 1, now, signer));
    var w2 := Step(w1, mac, h, SealPrepare(state, 1, now, signer));
    StepIsReachable(w2, mac, h, SealStore(a));
    var w3 := Step(w2, mac, h, SealStore(a));
    assert w3.anchors == [a];
    StepIsReachable(w3, mac, h, SealMark(a));
    w' := Step(w3, mac, h, SealMark(a));
  }

  lemma OneSealed(w: World, mac: Mac, h: Hash, id: Id, signer: Signer, now: Time) returns (w': World)
    requires Reachable(w, mac, h) && w.anchors == [] && id in w.store.segments
    requires SegmentState(w.store, id).Ok? && SegmentState(w.store, id).value.Some?
    requires var prepared := PrepareSeal(w.store, mac, h, signer, id, 1, now);
             && prepared.Ok? && prepared.value.segmentId == id && prepared.value.lastSeq == 0
             && CoveringAnchor(mac, signer, [prepared.value], id, 1) == Ok(Some(prepared.value))
    ensures Reachable(w', mac, h) && (id, 1) in w'.allowed && Live(w'.store, id) == Live(w.store, id)
    ensures w'.store.receipts == w.store.receipts
  {
    hide Reachable, PrepareSeal, SegmentState, CoveringAnchor;
    var w1, a := OneStored(w, mac, h, id, signer, now);
    StepIsReachable(w1, mac, h, PurgeCheck(id, 1, signer));
    var w2 := Step(w1, mac, h, PurgeCheck(id, 1, signer));
    StepIsReachable(w2, mac, h, PurgeAllow(id, 1));
    w' := Step(w2, mac, h, PurgeAllow(id, 1));
  }

  lemma InitialIsReachable(mac: Mac, h: Hash)
    ensures Reachable(INITIAL, mac, h)
  {
    assert IsTrace([INITIAL], mac, h);
  }

  /** Append, seal, purge and append again, from nothing: the state reached is reported BROKEN. */
  lemma BrokenVerdictHappens(mac: Mac, h: Hash, first: IntentRecord, second: IntentRecord, signer: Signer,
                             now: Time) returns (w: World)
    requires first.segmentId == second.segmentId && first.decisionId != second.decisionId
    requires signer.CanVerify(signer.keyId) && NextRecord(EMPTY, mac, first, signer.keyId).mac != GENESIS
    ensures Reachable(w, mac, h) && VerifyIntents(w.store, mac, signer, first.segmentId).status == Broken
  {
    hide Reachable, VerifyIntents, AppendStep, PrepareSeal, CoveringAnchor, NextRecord, PurgeDeleteStep;
    var id, r := first.segmentId, NextRecord(EMPTY, mac, first, signer.keyId);
    var w1 := Step(INITIAL, mac, h, Append(first, signer));
    InitialIsReachable(mac, h);
    StepIsReachable(INITIAL, mac, h, Append(first, signer));
    OneRecord(mac, h, first, signer, now);
    OneAnchor(w1, mac, h, id, r, signer, now);
    var w6 := OneSealed(w1, mac, h, id, signer, now);
    AppendAfterEmptyingPurge(w6, mac, h, 1, second, signer, signer);
    w := Step(Step(w6, mac, h, PurgeDelete(id, 1)), mac, h, Append(second, signer));
  }

  lemma HonestOutcomes(w: World, mac: Mac, h: Hash, signer: Signer, id: Id)
    requires Reachable(w, mac, h)
    requires var chain := OutcomesOf(w.store, id);
             forall i :: 0 <= i < |chain| ==> signer.CanVerify(chain[i].keyId)
    ensures VerifyOutcomes(w.store, mac, signer, id) == Verdict(Intact, |OutcomesOf(w.store, id)|, None)
  {
    ReachableKeeps(w, mac, h);
    var links := OutcomeLinks(OutcomesOf(w.store, id));
    assert AllVerifiable(signer, links);
    assert Linked(mac, links, 0, GENESIS);
    WalkIntact(mac, signer, links, 0, GENESIS);
  }

  /** The receipts index holds exactly one entry per live record, and no others. */
  lemma ReceiptsMatchLiveRecords(w: World, mac: Mac, h: Hash, d: Id)
    requires Reachable(w, mac, h)
    ensures && (d in w.store.receipts <==>
                exists id, i :: IsLiveAt(w.store, w.hist, id, i) && w.hist[id][i].record.decisionId == d)
            && (forall id, i, id', i' ::
                  IsLiveAt(w.store, w.hist, id, i) && IsLiveAt(w.store, w.hist, id', i') &&
                  w.hist[id][i].record.decisionId == w.hist[id'][i'].record.decisionId == d ==>
                  id == id' && i == i' && HasReceipt(w.store, ReceiptOf(w.hist[id][i])))
  {
    ReachableKeeps(w, mac, h);
    HistoryIsNumbered(mac, w.store, w.hist, w.emptied);
    if d in w.store.receipts {
      assert IsLiveAt(w.store, w.hist, w.store.receipts[d].segmentId, w.store.receipts[d].seqNo);
    }
  }

  // ---------------------------------------------------------------------------------------
  // Tampering is evident
  // ---------------------------------------------------------------------------------------

  /** The store after someone replaced the rows of one segment. */
  function Rewritten(s: Store, id: Id, list: seq<StoredRecord>): Store { s.(segments := s.segments[id := list]) }

  lemma LogPinsHistory(w: World, mac: Mac, id: Id, list: seq<StoredRecord>)
    requires SegmentsOk(mac, w.store, w.hist, w.emptied) && LogOk(w.hist, w.log)
    requires forall r :: r in list ==> r.record.segmentId == id
    ensures LogPins(w.log, Links(list), Links(Live(w.store, id)), PurgedCount(w.store, id))
  {
    hide SegmentOk, IsRun;
    var links, genuine, p := Links(list), Links(Live(w.store, id)), PurgedCount(w.store, id);
    LiveIsRun(w, mac, id);
    forall i | 0 <= i < |links| && (links[i].keyId, links[i].payload) in w.log && links[i].seqNo >= p
      ensures && links[i].seqNo - p < |genuine|
              && links[i].keyId == genuine[links[i].seqNo - p].keyId
              && links[i].payload == genuine[links[i].seqNo - p].payload
    {
      assert list[i] in list;
      assert Live(w.store, id)[links[i].seqNo - p] == w.hist[id][links[i].seqNo];
    }
  }

  lemma LinksInjective(a: seq<StoredRecord>, b: seq<StoredRecord>)
    ensures Links(a) <= Links(b) <==> a <= b
    ensures CommonPrefix(Links(a), Links(b)) == CommonPrefix(a, b)
  {
    if a != [] && b != [] {
      assert Links(a)[0] == LinkOf(a[0]) && Links(b)[0] == LinkOf(b[0]);
      assert Links(a[1..]) == Links(a)[1..] && Links(b[1..]) == Links(b)[1..];
      LinksInjective(a[1..], b[1..]);
    }
    if Links(a) <= Links(b) {
      forall i | 0 <= i < |a| ensures a[i] == b[i] { assert Links(a)[i] == Links(b)[i]; }
    }
  }

  lemma RewrittenVerdict(s: Store, mac: Mac, signer: Signer, id: Id, list: seq<StoredRecord>)
    ensures var walk, v := Walk(mac, signer, Links(list), PurgedCount(s, id), ExpectedPrev(s, id)),
                           VerifyIntents(Rewritten(s, id, list), mac, signer, id);
            && v.checked == walk.checked && v.brokenSeq == walk.brokenSeq
            && (v.status == walk.status || (walk.status == Intact && v.status == SealedPurged))
  {
  }

  lemma TamperedWalk(w: World, mac: Mac, signer: Signer, id: Id, list: seq<StoredRecord>)
    requires SegmentsOk(mac, w.store, w.hist, w.emptied) && LogOk(w.hist, w.log)
    requires !Severed(w, id) && Unforged(mac, w.log, Links(list)) && forall r :: r in list ==> r.record.segmentId == id
    ensures var v := Walk(mac, signer, Links(list), PurgedCount(w.store, id), ExpectedPrev(w.store, id));
            && v.checked <= CommonPrefix(list, Live(w.store, id))
            && (v.status == Intact ==> v.checked == |list| && list <= Live(w.store, id))
            && (v.status == Broken ==> v.checked == CommonPrefix(list, Live(w.store, id)))
            && v.status != SealedPurged
  {
    hide Linked, LogOk;
    assert SegmentAt(mac, w.store, w.hist, w.emptied, id);
    LiveIsLinked(w, mac, id);
    LogPinsHistory(w, mac, id, list);
    WalkTampered(mac, signer, w.log, Links(list), Links(Live(w.store, id)), PurgedCount(w.store, id),
                 ExpectedPrev(w.store, id));
    LinksInjective(list, Live(w.store, id));
  }

  lemma PrefixWalks(w: World, mac: Mac, signer: Signer, id: Id, list: seq<StoredRecord>)
    requires SegmentAt(mac, w.store, w.hist, w.emptied, id)
    requires !Severed(w, id) && KeysKept(signer, list) && list <= Live(w.store, id)
    ensures Walk(mac, signer, Links(list), PurgedCount(w.store, id), ExpectedPrev(w.store, id)).status == Intact
  {
    LiveIsLinked(w, mac, id);
    LinksInjective(list, Live(w.store, id));
    LinkedPrefix(mac, Links(list), Links(Live(w.store, id)), PurgedCount(w.store, id), ExpectedPrev(w.store, id));
    assert AllVerifiable(signer, Links(list));
    WalkIntact(mac, signer, Links(list), PurgedCount(w.store, id), ExpectedPrev(w.store, id));
  }

  predicate Clean(v: Verdict) { v.status == Intact || v.status == SealedPurged }

  /** What a verdict on rewritten rows says about the genuine ones. */
  ghost predicate Tells(v: Verdict, list: seq<StoredRecord>, genuine: seq<StoredRecord>, keysKept: bool) {
    && v.checked <= CommonPrefix(list, genuine)
    && (Clean(v) ==> list <= genuine && v.checked == |list|)
    && (v.status == Broken ==>
        && v.checked == CommonPrefix(list, genuine) < |list| && v.brokenSeq == Some(list[v.checked].seqNo))
    && (v.status != Broken ==> v.brokenSeq == None)
    && (keysKept ==> (Clean(v) <==> list <= genuine))
  }

  lemma RewrittenTells(w: World, mac: Mac, signer: Signer, id: Id, list: seq<StoredRecord>)
    requires SegmentsOk(mac, w.store, w.hist, w.emptied) && LogOk(w.hist, w.log)
    requires !Severed(w, id) && Unforged(mac, w.log, Links(list)) && forall r :: r in list ==> r.record.segmentId == id
    ensures Tells(VerifyIntents(Rewritten(w.store, id, list), mac, signer, id), list, Live(w.store, id),
                  KeysKept(signer, list))
  {
    RewrittenVerdict(w.store, mac, signer, id, list);
    TamperedWalk(w, mac, signer, id, list);
    WalkExactly(mac, signer, Links(list), PurgedCount(w.store, id), ExpectedPrev(w.store, id));
    hide Linked, LogOk, Walk, VerifyIntents, Unforged, Severed;
    if KeysKept(signer, list) && list <= Live(w.store, id) {
      assert SegmentAt(mac, w.store, w.hist, w.emptied, id);
      PrefixWalks(w, mac, signer, id, list);
    }
  }

  /**
   * Whatever rows replace a segment's, as long as they name that segment and nobody can forge a
   * code: a clean verdict means they are a prefix of the genuine rows, and a broken one counts
   * exactly the rows before the first that is not genuine and names the number stored in that one.
   * A cut-off tail goes unnoticed.
   */
  lemma TamperEvident(w: World, mac: Mac, h: Hash, signer: Signer, id: Id, list: seq<StoredRecord>)
    requires Reachable(w, mac, h)
    requires !Severed(w, id) && Unforged(mac, w.log, Links(list)) && forall r :: r in list ==> r.record.segmentId == id
    ensures Tells(VerifyIntents(Rewritten(w.store, id, list), mac, signer, id), list, Live(w.store, id),
                  KeysKept(signer, list))
  {
    assert SegmentsOk(mac, w.store, w.hist, w.emptied) && LogOk(w.hist, w.log) by { ReachableKeeps(w, mac, h); }
    RewrittenTells(w, mac, signer, id, list);
  }

  /** In a severed segment only the empty list still passes, and nothing else gets past its first row. */
  lemma SeveredWalk(w: World, mac: Mac, signer: Signer, id: Id, list: seq<StoredRecord>)
    requires SegmentsOk(mac, w.store, w.hist, w.emptied) && LogOk(w.hist, w.log)
    requires Severed(w, id) && Unforged(mac, w.log, Links(list)) && forall r :: r in list ==> r.record.segmentId == id
    ensures var v := Walk(mac, signer, Links(list), PurgedCount(w.store, id), ExpectedPrev(w.store, id));
            v.checked == 0 && (v.status == Intact <==> list == []) && v.status != SealedPurged
  {
    hide LogOk, Linked;
    assert SegmentAt(mac, w.store, w.hist, w.emptied, id);
    LogPinsHistory(w, mac, id, list);
    LiveAt(w, mac, id, 0);
    var links, genuine := Links(list), Links(Live(w.store, id));
    assert genuine[0].prev == GENESIS && genuine[0].payload.prev == GENESIS;
    if list != [] { assert links[0].payload.prev == links[0].prev; }
  }

  /** So the first half of that promise holds in every reachable state: clean rows are genuine rows. */
  lemma CleanMeansGenuine(w: World, mac: Mac, h: Hash, signer: Signer, id: Id, list: seq<StoredRecord>)
    requires Reachable(w, mac, h)
    requires Unforged(mac, w.log, Links(list)) && forall r :: r in list ==> r.record.segmentId == id
    ensures var v := VerifyIntents(Rewritten(w.store, id, list), mac, signer, id);
            && (Clean(v) ==> list <= Live(w.store, id) && v.checked == |list|)
            && (Severed(w, id) ==> v.checked == 0 && (Clean(v) <==> list == []))
  {
    assert SegmentsOk(mac, w.store, w.hist, w.emptied) && LogOk(w.hist, w.log) by { ReachableKeeps(w, mac, h); }
    if Severed(w, id) {
      hide SegmentsOk, LogOk, Unforged, Walk;
      SeveredWalk(w, mac, signer, id, list);
      RewrittenVerdict(w.store, mac, signer, id, list);
    } else {
      hide SegmentsOk, LogOk, Unforged, VerifyIntents, Severed;
      RewrittenTells(w, mac, signer, id, list);
    }
  }

  lemma LinkedPrefix(mac: Mac, a: seq<Link>, b: seq<Link>, seqNo: int, prev: Bytes)
    requires Linked(mac, b, seqNo, prev) && a <= b
    ensures Linked(mac, a, seqNo, prev)
  {
    forall i | 0 <= i < |a| ensures LinkedAt(mac, a[i], seqNo + i, if i == 0 then prev else a[i - 1].mac) {
      assert a[i] == b[i];
    }
  }

  /**
   * The rows must name the segment, because verification does not look: while neither segment was
   * purged, the rows of one pass unnoticed as the rows of another.
   */
  lemma ForeignRowsPass(w: World, mac: Mac, h: Hash, signer: Signer, id: Id, other: Id)
    requires Reachable(w, mac, h)
    requires PurgedCount(w.store, id) == 0 && PurgedCount(w.store, other) == 0 && KeysKept(signer, Live(w.store, other))
    ensures VerifyIntents(Rewritten(w.store, id, Live(w.store, other)), mac, signer, id) ==
            Verdict(Intact, |Live(w.store, other)|, None)
  {
    ReachableKeeps(w, mac, h);
    assert SegmentAt(mac, w.store, w.hist, w.emptied, other);
    LiveIsLinked(w, mac, other);
    var links := Links(Live(w.store, other));
    assert AllVerifiable(signer, links);
    WalkIntact(mac, signer, links, 0, GENESIS);
  }

  /** The record really written at this position of the segment the row itself names. */
  ghost predicate WrittenAt(w: World, r: StoredRecord, seqNo: nat) {
    var seg := r.record.segmentId;
    seg in w.hist && seqNo < |w.hist[seg]| && r == w.hist[seg][seqNo]
  }

  /** Rows that continue from the given number and code, wherever each of them was written. */
  ghost predicate Continues(w: World, list: seq<StoredRecord>, seqNo: nat, prev: Bytes) {
    forall i :: 0 <= i < |list| ==> WrittenAt(w, list[i], seqNo + i) && list[i].prev == PrevOf(list, i, prev)
  }

  function PrevOf(list: seq<StoredRecord>, i: nat, prev: Bytes): Bytes
    requires i <= |list|
  {
    if i == 0 then prev else list[i - 1].mac
  }

  lemma SignedWasWritten(w: World, mac: Mac, r: StoredRecord)
    requires SegmentsOk(mac, w.store, w.hist, w.emptied) && LogOk(w.hist, w.log)
    requires (r.keyId, LinkOf(r).payload) in w.log && r.mac == mac(r.keyId, LinkOf(r).payload) && r.seqNo >= 0
    ensures WrittenAt(w, r, r.seqNo)
  {
    assert SegmentAt(mac, w.store, w.hist, w.emptied, r.record.segmentId);
    var s := w.hist[r.record.segmentId][r.seqNo];
    assert LinkOf(s).payload == LinkOf(r).payload && s.mac == mac(s.keyId, LinkOf(s).payload);
  }

  lemma WrittenIsLinked(w: World, mac: Mac, r: StoredRecord, seqNo: nat)
    requires SegmentsOk(mac, w.store, w.hist, w.emptied) && WrittenAt(w, r, seqNo)
    ensures LinkedAt(mac, LinkOf(r), seqNo, r.prev)
  {
    assert SegmentAt(mac, w.store, w.hist, w.emptied, r.record.segmentId);
  }

  lemma RowIsWritten(w: World, mac: Mac, list: seq<StoredRecord>, seqNo: nat, prev: Bytes, i: nat)
    requires SegmentsOk(mac, w.store, w.hist, w.emptied) && LogOk(w.hist, w.log) && Unforged(mac, w.log, Links(list))
    requires Linked(mac, Links(list), seqNo, prev) && i < |list|
    ensures WrittenAt(w, list[i], seqNo + i) && list[i].prev == PrevOf(list, i, prev)
  {
    hide SegmentsOk, LogOk, WrittenAt, Linked;
    LinkedRow(mac, Links(list), seqNo, prev, i);
    SignedWasWritten(w, mac, list[i]);
  }

  lemma RowIsLinked(w: World, mac: Mac, list: seq<StoredRecord>, seqNo: nat, prev: Bytes, i: nat)
    requires SegmentsOk(mac, w.store, w.hist, w.emptied) && Continues(w, list, seqNo, prev) && i < |list|
    ensures var links := Links(list); LinkedAt(mac, links[i], seqNo + i, if i == 0 then prev else links[i - 1].mac)
  {
    hide SegmentsOk, WrittenAt;
    assert list[i].prev == PrevOf(list, i, prev);
    WrittenIsLinked(w, mac, list[i], seqNo + i);
  }

  lemma LinkedIsWritten(w: World, mac: Mac, list: seq<StoredRecord>, seqNo: nat, prev: Bytes)
    requires SegmentsOk(mac, w.store, w.hist, w.emptied) && LogOk(w.hist, w.log) && Unforged(mac, w.log, Links(list))
    ensures Linked(mac, Links(list), seqNo, prev) <==> Continues(w, list, seqNo, prev)
  {
    hide SegmentsOk, LogOk, WrittenAt, LinkedAt, Unforged, PrevOf;
    if Linked(mac, Links(list), seqNo, prev) {
      forall i | 0 <= i < |list| ensures WrittenAt(w, list[i], seqNo + i) && list[i].prev == PrevOf(list, i, prev) {
        RowIsWritten(w, mac, list, seqNo, prev, i);
      }
    }
    if Continues(w, list, seqNo, prev) {
      forall i {:trigger Links(list)[i]} | 0 <= i < |list|
        ensures LinkedAt(mac, Links(list)[i], seqNo + i, if i == 0 then prev else Links(list)[i - 1].mac)
      {
        RowIsLinked(w, mac, list, seqNo, prev, i);
      }
    }
  }

  /**
   * Exactly which rows pass for a segment's when nothing is said about the segments they name: rows
   * that were written at the expected positions of whatever segments, and that link to the code
   * verification expects and then each to the row before it.
   */
  lemma RowsPassExactly(w: World, mac: Mac, h: Hash, signer: Signer, id: Id, list: seq<StoredRecord>)
    requires Reachable(w, mac, h) && KeysKept(signer, list) && Unforged(mac, w.log, Links(list))
    ensures Clean(VerifyIntents(Rewritten(w.store, id, list), mac, signer, id)) <==>
            Continues(w, list, PurgedCount(w.store, id), ExpectedPrev(w.store, id))
  {
    assert SegmentsOk(mac, w.store, w.hist, w.emptied) && LogOk(w.hist, w.log) by { ReachableKeeps(w, mac, h); }
    hide SegmentsOk, LogOk, Unforged, Continues, Linked, Walk;
    RewrittenVerdict(w.store, mac, signer, id, list);
    assert AllVerifiable(signer, Links(list));
    WalkIntact(mac, signer, Links(list), PurgedCount(w.store, id), ExpectedPrev(w.store, id));
    LinkedIsWritten(w, mac, list, PurgedCount(w.store, id), ExpectedPrev(w.store, id));
  }

  // ---------------------------------------------------------------------------------------
  // Sealing again
  // ---------------------------------------------------------------------------------------

  lemma ReachableLabels(w: World, mac: Mac, h: Hash)
    requires Reachable(w, mac, h)
    ensures Labelled(w)
  {
    hide Labelled, Next;
    var trace :| IsTrace(trace, mac, h) && trace[|trace| - 1] == w;
    RunLabels(trace, mac, h, |trace| - 1);
  }

  /** Two anchors of a segment over the same range agree in everything but seal time, key and signature. */
  lemma SameRange(mac: Mac, h: Hash, s: Store, hist: map<Id, seq<StoredRecord>>, a: WormAnchor, b: WormAnchor)
    requires AnchorOk(mac, h, s, hist, a) && AnchorOk(mac, h, s, hist, b)
    requires (a.segmentId, a.firstSeq, a.lastSeq, a.tenantId) == (b.segmentId, b.firstSeq, b.lastSeq, b.tenantId)
    ensures a.merkleRoot == b.merkleRoot && a.anchorId == b.anchorId
    ensures a == b <==> a.sealedAt == b.sealedAt && a.keyId == b.keyId
  {
    hide MerkleRoot, AnchorId;
  }

  /**
   * Sealing a range again recomputes the same root and id, but storage accepts it exactly if the
   * seal time and the signing key are those of the stored anchor.
   */
  lemma ResealExactly(w: World, mac: Mac, h: Hash, id: Id, before: int, now: Time, signer: Signer, a: WormAnchor)
    requires Reachable(w, mac, h) && a in w.anchors && a.segmentId == id
    requires var prepared := PrepareSeal(w.store, mac, h, signer, id, before, now);
             prepared.Ok? && (a.firstSeq, a.lastSeq) == (prepared.value.firstSeq, prepared.value.lastSeq)
    ensures var b := PrepareSeal(w.store, mac, h, signer, id, before, now).value;
            && b.merkleRoot == a.merkleRoot && b.anchorId == a.anchorId
            && (Put(w.anchors, b).1.Ok? <==> now == a.sealedAt && signer.keyId == a.keyId)
  {
    hide PrepareAnchor, Find, AnchorOk, SegmentAt, LogOk, ReceiptsOk;
    hide OutcomesOk, PurgedOk, PurgesOk, Reachable, IdsDistinct;
    ReachableKeeps(w, mac, h);
    ReachableLabels(w, mac, h);
    var state := SegmentState(w.store, id).value.value;
    PreparedAnchor(w, mac, h, state, before, now, signer);
    PreparedStamps(w.store, mac, h, state, before, now, signer);
    SameRange(mac, h, w.store, w.hist, a, PrepareSeal(w.store, mac, h, signer, id, before, now).value);
    FindsItself(w.anchors, a);
  }

  /** Append, seal, and seal the same range again at another time, from nothing: storage refuses. */
  lemma ResealRefusalHappens(mac: Mac, h: Hash, record: IntentRecord, signer: Signer, now: Time,
                             later: Time) returns (w: World)
    requires signer.available && now != later && now >= if record.createdAt == 0.0 then 1.0 else record.createdAt
    ensures Reachable(w, mac, h)
    ensures Seal(w.store, w.anchors, mac, h, signer, record.segmentId, 1, later) ==
            (w.store, w.anchors, Err(WriteOnceConflict))
  {
    hide Reachable, PrepareSeal, NextRecord;
    var id, r, w1 := record.segmentId, NextRecord(EMPTY, mac, record, signer.keyId),
                     Step(INITIAL, mac, h, Append(record, signer));
    InitialIsReachable(mac, h);
    StepIsReachable(INITIAL, mac, h, Append(record, signer));
    OneRecord(mac, h, record, signer, now);
    PrepareFirst(w1.store, mac, h, id, r, signer, now);
    var w2, a := OneStored(w1, mac, h, id, signer, now);
    w := w2;
    PrepareFirst(w.store, mac, h, id, r, signer, later);
    ResealExactly(w, mac, h, id, 1, later, signer, a);
  }
}
