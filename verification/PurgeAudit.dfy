/** When purging through the sealer succeeds, over every run of the evidence system. */
module PurgeAudit {
  import opened Bytes
  import opened Evidence
  import opened Ledger
  import opened Merkle
  import opened Sorting
  import opened Sealing
  import opened Retention
  import opened Audit

  // ---------------------------------------------------------------------------------------
  // Recorded anchors are stored ones
  // ---------------------------------------------------------------------------------------

  ghost predicate Marked(w: World) {
    forall id :: id in w.store.wormAnchors ==>
      w.store.wormAnchors[id] in w.anchors && w.store.wormAnchors[id].segmentId == id
  }

  lemma StepMarks(w: World, mac: Mac, h: Hash, a: Action)
    requires Marked(w)
    ensures Marked(Step(w, mac, h, a))
  {
    hide NextRecord, NextOutcome, DecisionIds, PrepareAnchor, CoveringAnchor, Find, SegmentState;
  }

  lemma {:induction false} RunMarks(trace: seq<World>, mac: Mac, h: Hash, i: nat)
    requires IsTrace(trace, mac, h) && i < |trace|
    ensures Marked(trace[i])
  {
    if i > 0 {
      hide Step, Marked;
      var j := i - 1;
      RunMarks(trace, mac, h, j);
      assert Next(trace[j], trace[j + 1], mac, h);
      var a :| trace[i] == Step(trace[j], mac, h, a);
      StepMarks(trace[j], mac, h, a);
    }
  }

  lemma ReachableIsMarked(w: World, mac: Mac, h: Hash)
    requires Reachable(w, mac, h)
    ensures Marked(w)
  {
    hide Marked, Next;
    var trace :| IsTrace(trace, mac, h) && trace[|trace| - 1] == w;
    RunMarks(trace, mac, h, |trace| - 1);
  }

  // ---------------------------------------------------------------------------------------
  // Purging
  // ---------------------------------------------------------------------------------------

  function Ending(id: Id, before: int): WormAnchor -> bool { (a: WormAnchor) => EndsBelow(a, id, before) }

  /** The segment's anchor that ends just below the boundary and comes first in order. */
  ghost predicate IsCovering(anchors: Anchors, id: Id, before: int, i: int) {
    IsLeast(NotAfter, Ending(id, before), anchors, i)
  }

  /** Every stored anchor is authentic, so the first one of the right end decides. */
  lemma ReachableCovering(w: World, mac: Mac, h: Hash, signer: Signer, id: Id, before: int)
    requires AnchorsOk(mac, h, w.store, w.hist, (set a | a in w.anchors) + w.seals)
    ensures var r := CoveringAnchor(mac, signer, w.anchors, id, before);
            && (r == Ok(None) <==> forall a :: a in w.anchors ==> !EndsBelow(a, id, before))
            && (r != Ok(None) ==>
                exists i :: IsCovering(w.anchors, id, before, i) &&
                  r == if signer.CanVerify(w.anchors[i].keyId) then Ok(Some(w.anchors[i])) else Err(AnchorUnverifiable))
  {
    hide CoveringAnchor, NotAfter, MerkleRoot;
    var p := Decisive(mac, signer, id, before);
    CoveringExactly(mac, signer, w.anchors, id, before);
    forall a | a in w.anchors ensures p(a) == EndsBelow(a, id, before) {
      assert AnchorOk(mac, h, w.store, w.hist, a);
    }
    if i :| IsLeast(NotAfter, p, w.anchors, i) {
      assert forall j :: 0 <= j < |w.anchors| ==> w.anchors[j] in w.anchors;
      assert IsCovering(w.anchors, id, before, i);
    }
  }

  function Max(a: int, b: int): int { if a < b then b else a }

  /** Deleting below a boundary that the history has reached moves the count of purged records there. */
  lemma DeletesUpTo(w: World, mac: Mac, id: Id, before: int)
    requires SegmentAt(mac, w.store, w.hist, w.emptied, id) && before <= |Get(w.hist, id, [])|
    ensures var (s', n) := SealAndPurge(w.store, id, before);
            var p, hist := PurgedCount(w.store, id), Get(w.hist, id, []);
            && PurgedCount(s', id) == Max(p, before) <= |hist| && n == Max(p, before) - p
            && Live(s', id) == hist[Max(p, before)..]
  {
    hide DecisionIds, IsRun, SegmentOk;
    var p, live, hist := PurgedCount(w.store, id), Live(w.store, id), Get(w.hist, id, []);
    LiveIsRun(w, mac, id);
    var n := KeepFrom(live, before);
    assert n == Max(p, before) - p by { KeepsFrom(live, p, before); }
    assert live[n..] == hist[p + n..];
  }

  lemma KeepsFrom(live: seq<StoredRecord>, p: nat, before: int)
    requires IsRun(live, p) && before <= p + |live|
    ensures KeepFrom(live, before) == Max(p, before) - p
  {
    var n := KeepFrom(live, before);
    assert n < |live| ==> live[n].seqNo == p + n;
    assert n > 0 ==> live[n - 1].seqNo == p + n - 1;
  }

  /**
   * Purging in every reachable state, exactly. It succeeds if and only if the recorded anchor ends
   * just below the boundary and the stored one that comes first among those of that end can be
   * verified; then everything below the boundary is gone and nothing else. Otherwise nothing changes,
   * and the error is an unverifiable anchor exactly if that first one cannot be verified.
   */
  lemma PurgeExactly(w: World, mac: Mac, h: Hash, signer: Signer, id: Id, before: int)
    requires Reachable(w, mac, h)
    ensures var (s', r) := Purge(w.store, w.anchors, mac, signer, id, before);
            var p, hist, recorded := PurgedCount(w.store, id), Get(w.hist, id, []), w.store.wormAnchors;
            && (r == Err(AnchorUnverifiable) <==>
                exists i :: IsCovering(w.anchors, id, before, i) && !signer.CanVerify(w.anchors[i].keyId))
            && (r.Ok? <==> r != Err(AnchorUnverifiable) && id in recorded && recorded[id].lastSeq == before - 1)
            && (r.Err? ==> s' == w.store && (r.error.AnchorUnverifiable? || r.error.UnanchoredRange?))
            && (r.Ok? ==>
                && PurgedCount(s', id) == Max(p, before) <= |hist| && r.value == Max(p, before) - p
                && Live(s', id) == hist[Max(p, before)..])
  {
    hide Reachable, CoveringAnchor, SealAndPurge, IsCovering;
    CoversExactly(w, mac, h, signer, id, before);
    CoveringIsOne(w.anchors, id, before);
    if id in w.store.wormAnchors && w.store.wormAnchors[id].lastSeq == before - 1 {
      RecordedEnds(w, mac, h, id, before);
    }
  }

  lemma CoversExactly(w: World, mac: Mac, h: Hash, signer: Signer, id: Id, before: int)
    requires Reachable(w, mac, h)
    ensures var r := CoveringAnchor(mac, signer, w.anchors, id, before);
            && (r == Ok(None) <==> forall a :: a in w.anchors ==> !EndsBelow(a, id, before))
            && (r != Ok(None) ==>
                exists i :: IsCovering(w.anchors, id, before, i) &&
                  r == if signer.CanVerify(w.anchors[i].keyId) then Ok(Some(w.anchors[i])) else Err(AnchorUnverifiable))
  {
    ReachableKeeps(w, mac, h);
    hide Reachable, SegmentsOk, LogOk, ReceiptsOk, OutcomesOk, PurgedOk, PurgesOk, AnchorsOk, CoveringAnchor;
    hide IsLeast, NotAfter;
    ReachableCovering(w, mac, h, signer, id, before);
  }

  /** The recorded anchor is a stored one, so the history has reached the boundary. */
  lemma RecordedEnds(w: World, mac: Mac, h: Hash, id: Id, before: int)
    requires Reachable(w, mac, h) && id in w.store.wormAnchors && w.store.wormAnchors[id].lastSeq == before - 1
    ensures var a := w.store.wormAnchors[id]; a in w.anchors && EndsBelow(a, id, before)
    ensures var (s', n) := SealAndPurge(w.store, id, before);
            var p, hist := PurgedCount(w.store, id), Get(w.hist, id, []);
            && PurgedCount(s', id) == Max(p, before) <= |hist| && n == Max(p, before) - p
            && Live(s', id) == hist[Max(p, before)..]
  {
    ReachableKeeps(w, mac, h);
    ReachableIsMarked(w, mac, h);
    assert SegmentAt(mac, w.store, w.hist, w.emptied, id);
    hide SegmentsOk, SegmentAt, LogOk, ReceiptsOk, OutcomesOk, PurgedOk, PurgesOk, Reachable, SealAndPurge, MerkleRoot;
    assert AnchorOk(mac, h, w.store, w.hist, w.store.wormAnchors[id]);
    DeletesUpTo(w, mac, id, before);
  }

  lemma CoveringIsOne(anchors: Anchors, id: Id, before: int)
    ensures forall i, j :: IsCovering(anchors, id, before, i) && IsCovering(anchors, id, before, j) ==> i == j
    ensures forall i :: IsCovering(anchors, id, before, i) ==> 0 <= i < |anchors| && EndsBelow(anchors[i], id, before)
  {
    hide NotAfter;
    forall i, j | IsCovering(anchors, id, before, i) && IsCovering(anchors, id, before, j) ensures i == j {
      LeastIsOne(NotAfter, Ending(id, before), anchors, i, j);
    }
  }
}
