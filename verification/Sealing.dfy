/** Write-once anchors, and what sealing and purging a segment prefix compute. */
module Sealing {
  import opened Bytes
  import opened Evidence
  import opened Ledger
  import opened Merkle
  import opened Sorting

  // ---------------------------------------------------------------------------------------
  // Anchor storage: an insertion-ordered dictionary, keyed by anchor id
  // ---------------------------------------------------------------------------------------

  type Anchors = seq<WormAnchor>

  function Find(anchors: Anchors, anchorId: Id): (r: Option<WormAnchor>)
    ensures r.Some? ==> r.value in anchors && r.value.anchorId == anchorId
    ensures r.None? ==> forall a :: a in anchors ==> a.anchorId != anchorId
  {
    if anchors == [] then None
    else if anchors[0].anchorId == anchorId then Some(anchors[0])
    else Find(anchors[1..], anchorId)
  }

  function Put(anchors: Anchors, anchor: WormAnchor): (Anchors, Result<(), EvidenceError>) {
    match Find(anchors, anchor.anchorId)
    case Some(existing) => (anchors, if existing == anchor then Ok(()) else Err(WriteOnceConflict))
    case None => (anchors + [anchor], Ok(()))
  }

  function OfSegment(anchors: Anchors, segmentId: Id): (r: Anchors)
    ensures forall a :: a in r <==> a in anchors && a.segmentId == segmentId
  {
    if anchors == [] then []
    else (if anchors[0].segmentId == segmentId then [anchors[0]] else []) + OfSegment(anchors[1..], segmentId)
  }

  predicate NotAfter(a: WormAnchor, b: WormAnchor) {
    a.firstSeq < b.firstSeq || (a.firstSeq == b.firstSeq && a.sealedAt <= b.sealedAt)
  }

  function ListForSegment(anchors: Anchors, segmentId: Id): (r: Anchors)
    ensures forall a :: a in r <==> a in anchors && a.segmentId == segmentId
  {
    SortedAnchors(anchors, segmentId);
    Sort(NotAfter, OfSegment(anchors, segmentId))
  }

  lemma SortedAnchors(anchors: Anchors, segmentId: Id)
    ensures forall a :: a in Sort(NotAfter, OfSegment(anchors, segmentId)) <==> a in anchors && a.segmentId == segmentId
  {
    hide Sort;
    var of := OfSegment(anchors, segmentId);
    forall a ensures a in Sort(NotAfter, of) <==> a in of {
      SameElements(Sort(NotAfter, of), of, a);
    }
  }

  /**
   * A segment's anchors are listed by first sequence number and then by seal time, each as often as
   * it is stored, and those that tie in the order they were stored in.
   */
  lemma ListIsInOrder(anchors: Anchors, segmentId: Id, a: WormAnchor)
    ensures var list, of := ListForSegment(anchors, segmentId), OfSegment(anchors, segmentId);
            && (forall i, j :: 0 <= i < j < |list| ==>
                  || list[i].firstSeq < list[j].firstSeq
                  || (list[i].firstSeq == list[j].firstSeq && list[i].sealedAt <= list[j].sealedAt))
            && multiset(list) == multiset(of) && Alike(NotAfter, list, a) == Alike(NotAfter, of, a)
  {
    hide Sort, OfSegment;
    SortSorts(NotAfter, OfSegment(anchors, segmentId));
    SortIsStable(NotAfter, OfSegment(anchors, segmentId), a);
  }

  // ---------------------------------------------------------------------------------------
  // Sealing
  // ---------------------------------------------------------------------------------------

  function LeafMacs(leaves: seq<SegmentLeaf>): (macs: seq<Bytes>)
    ensures |macs| == |leaves| && forall i :: 0 <= i < |leaves| ==> macs[i] == leaves[i].mac
  {
    seq(|leaves|, i requires 0 <= i < |leaves| => leaves[i].mac)
  }

  predicate Contiguous(leaves: seq<SegmentLeaf>) {
    forall i :: 0 <= i < |leaves| ==> leaves[i].seqNo == leaves[0].seqNo + i
  }

  /** The anchor over these leaves, signed with the signer's current key. */
  function SignedAnchor(mac: Mac, h: Hash, keyId: Id, state: EvidenceSegment, leaves: seq<SegmentLeaf>,
                        now: Time): WormAnchor
    requires leaves != [] && 0 <= leaves[0].seqNo && 0 <= leaves[|leaves| - 1].seqNo
  {
    var first, last := leaves[0].seqNo, leaves[|leaves| - 1].seqNo;
    var unsigned := WormAnchor(
      AnchorId(state.segmentId, first, last), state.segmentId, state.tenantId, MerkleRoot(h, LeafMacs(leaves)),
      |leaves|, first, last, now, ZEROS, "pending");
    unsigned.(rootSignature := mac(keyId, unsigned.SigningPayload()), keyId := keyId)
  }

  /** The anchor a seal prepares from the segment state it has read and the leaves it reads now. */
  function PrepareAnchor(s: Store, mac: Mac, h: Hash, signer: Signer, state: EvidenceSegment, beforeSeq: int,
                         now: Time): Result<WormAnchor, EvidenceError> {
    var leaves := SegmentLeaves(s, state.segmentId, Some(beforeSeq));
    if leaves == [] then Err(NothingToSeal)
    else if !Contiguous(leaves) then Err(SequenceGap)
    else if leaves[0].seqNo < 0 then Err(InvalidRange)
    else if !signer.available then Err(SigningUnavailable)
    else Ok(SignedAnchor(mac, h, signer.keyId, state, leaves, now))
  }

  /** Two neighbouring leaves whose numbers are not consecutive. */
  ghost predicate GapAt(leaves: seq<SegmentLeaf>, i: int) {
    0 <= i < |leaves| - 1 && leaves[i + 1].seqNo != leaves[i].seqNo + 1
  }

  lemma {:induction false} NumberedFrom(leaves: seq<SegmentLeaf>, j: nat)
    requires j < |leaves| && forall i :: 0 <= i < j ==> !GapAt(leaves, i)
    ensures leaves[j].seqNo == leaves[0].seqNo + j
  {
    if j > 0 {
      NumberedFrom(leaves, j - 1);
      assert !GapAt(leaves, j - 1);
    }
  }

  /** What a seal refuses, whatever the store holds: nothing to seal, then a gap, then a missing signature. */
  lemma RefusesExactly(s: Store, mac: Mac, h: Hash, signer: Signer, state: EvidenceSegment, beforeSeq: int, now: Time)
    ensures var r, leaves := PrepareAnchor(s, mac, h, signer, state, beforeSeq, now),
                             SegmentLeaves(s, state.segmentId, Some(beforeSeq));
            var gap := exists i :: GapAt(leaves, i);
            && (r == Err(NothingToSeal) <==> leaves == [])
            && (r == Err(SequenceGap) <==> gap)
            && (r == Err(InvalidRange) <==> leaves != [] && !gap && leaves[0].seqNo < 0)
            && (r == Err(SigningUnavailable) <==>
                leaves != [] && !gap && leaves[0].seqNo >= 0 && !signer.available)
            && (r.Ok? <==> leaves != [] && !gap && leaves[0].seqNo >= 0 && signer.available)
  {
    hide SegmentLeaves, SignedAnchor;
    var leaves := SegmentLeaves(s, state.segmentId, Some(beforeSeq));
    if !exists i :: GapAt(leaves, i) {
      forall j | 0 <= j < |leaves| ensures leaves[j].seqNo == leaves[0].seqNo + j { NumberedFrom(leaves, j); }
    }
  }

  /** Everything `seal` does before it touches storage, when nothing happens between its two reads. */
  function PrepareSeal(s: Store, mac: Mac, h: Hash, signer: Signer, segmentId: Id, beforeSeq: int,
                       now: Time): Result<WormAnchor, EvidenceError> {
    match SegmentState(s, segmentId)
    case Err(e) => Err(e)
    case Ok(None) => Err(SegmentNotFound)
    case Ok(Some(state)) => PrepareAnchor(s, mac, h, signer, state, beforeSeq, now)
  }

  /** Store first, record second. */
  function Seal(s: Store, anchors: Anchors, mac: Mac, h: Hash, signer: Signer, segmentId: Id, beforeSeq: int,
                now: Time):
    (Store, Anchors, Result<WormAnchor, EvidenceError>)
  {
    match PrepareSeal(s, mac, h, signer, segmentId, beforeSeq, now)
    case Err(e) => (s, anchors, Err(e))
    case Ok(anchor) =>
      match Put(anchors, anchor).1
      case Err(e) => (s, anchors, Err(e))
      case Ok(_) =>
        var (s', marked) := MarkSealed(s, segmentId, anchor);
        (s', Put(anchors, anchor).0, if marked.Ok? then Ok(anchor) else Err(SegmentNotFound))
  }

  // ---------------------------------------------------------------------------------------
  // Purging
  // ---------------------------------------------------------------------------------------

  predicate Authentic(mac: Mac, a: WormAnchor) { a.rootSignature == mac(a.keyId, a.SigningPayload()) }

  /** The first verified anchor that ends just below `beforeSeq`. */
  function FirstCovering(mac: Mac, signer: Signer, anchors: Anchors, beforeSeq: int):
    (r: Result<Option<WormAnchor>, EvidenceError>)
    ensures r.Ok? && r.value.Some? ==>
              r.value.value in anchors && r.value.value.lastSeq == beforeSeq - 1 && Authentic(mac, r.value.value)
  {
    if anchors == [] then Ok(None)
    else if anchors[0].lastSeq != beforeSeq - 1 then FirstCovering(mac, signer, anchors[1..], beforeSeq)
    else if !signer.CanVerify(anchors[0].keyId) then Err(AnchorUnverifiable)
    else if Authentic(mac, anchors[0]) then Ok(Some(anchors[0]))
    else FirstCovering(mac, signer, anchors[1..], beforeSeq)
  }

  function CoveringAnchor(mac: Mac, signer: Signer, anchors: Anchors, segmentId: Id,
                          beforeSeq: int): (r: Result<Option<WormAnchor>, EvidenceError>)
    ensures r.Ok? && r.value.Some? ==>
              && r.value.value in anchors && r.value.value.segmentId == segmentId
              && r.value.value.lastSeq == beforeSeq - 1 && Authentic(mac, r.value.value)
  {
    FirstCovering(mac, signer, ListForSegment(anchors, segmentId), beforeSeq)
  }

  // ---------------------------------------------------------------------------------------
  // When a covering anchor is found
  // ---------------------------------------------------------------------------------------

  predicate EndsBelow(a: WormAnchor, segmentId: Id, beforeSeq: int) {
    a.segmentId == segmentId && a.lastSeq == beforeSeq - 1
  }

  /** The anchors that end the search: those of the right end that are authentic or cannot be verified. */
  function Decisive(mac: Mac, signer: Signer, segmentId: Id, beforeSeq: int): WormAnchor -> bool {
    (a: WormAnchor) => EndsBelow(a, segmentId, beforeSeq) && (!signer.CanVerify(a.keyId) || Authentic(mac, a))
  }

  lemma {:induction false} FirstCoveringIs(mac: Mac, signer: Signer, list: Anchors, segmentId: Id, beforeSeq: int)
    requires forall a :: a in list ==> a.segmentId == segmentId
    ensures FirstCovering(mac, signer, list, beforeSeq) ==
            match First(Decisive(mac, signer, segmentId, beforeSeq), list)
            case None => Ok(None)
            case Some(a) => if signer.CanVerify(a.keyId) then Ok(Some(a)) else Err(AnchorUnverifiable)
  {
    hide Authentic;
    if list != [] {
      assert list[0] in list;
      FirstCoveringIs(mac, signer, list[1..], segmentId, beforeSeq);
    }
  }

  lemma BestCons(p: WormAnchor -> bool, a: WormAnchor, rest: Anchors)
    ensures var later := Best(NotAfter, p, rest);
            Best(NotAfter, p, [a] + rest) ==
            if p(a) && (later.None? || NotAfter(a, later.value)) then Some(a) else later
  {
    assert ([a] + rest)[1..] == rest;
  }

  lemma {:induction false} BestOfSegment(p: WormAnchor -> bool, anchors: Anchors, segmentId: Id)
    requires forall a :: p(a) ==> a.segmentId == segmentId
    ensures Best(NotAfter, p, OfSegment(anchors, segmentId)) == Best(NotAfter, p, anchors)
  {
    if anchors != [] {
      hide NotAfter;
      BestOfSegment(p, anchors[1..], segmentId);
      BestCons(p, anchors[0], OfSegment(anchors[1..], segmentId));
      assert [] + OfSegment(anchors[1..], segmentId) == OfSegment(anchors[1..], segmentId);
    }
  }

  lemma NotAfterIsOrder()
    ensures IsOrder(NotAfter)
  {
  }

  /**
   * Of the segment's anchors that end just below the boundary, and are authentic or cannot be
   * verified, the one with the least first number and then seal time decides, however many others
   * are stored: it is the covering anchor, or the search fails because of it. Without one there is
   * no covering anchor.
   */
  lemma CoveringExactly(mac: Mac, signer: Signer, anchors: Anchors, segmentId: Id, beforeSeq: int)
    ensures var r, decisive := CoveringAnchor(mac, signer, anchors, segmentId, beforeSeq),
                               Decisive(mac, signer, segmentId, beforeSeq);
            && (r == Ok(None) <==> forall a :: a in anchors ==> !decisive(a))
            && (r != Ok(None) ==>
                exists i :: IsLeast(NotAfter, decisive, anchors, i) &&
                  r == if signer.CanVerify(anchors[i].keyId) then Ok(Some(anchors[i])) else Err(AnchorUnverifiable))
  {
    hide Sort, Best, First, NotAfter, IsLeast, FirstCovering;
    var of, p := OfSegment(anchors, segmentId), Decisive(mac, signer, segmentId, beforeSeq);
    NotAfterIsOrder();
    FirstCoveringIs(mac, signer, ListForSegment(anchors, segmentId), segmentId, beforeSeq);
    FirstOfSorted(NotAfter, p, of);
    BestOfSegment(p, anchors, segmentId);
    BestIs(NotAfter, p, anchors);
  }

  /** With every such key at hand, a covering anchor is found exactly if an authentic one is stored. */
  lemma CoveringFound(mac: Mac, signer: Signer, anchors: Anchors, segmentId: Id, beforeSeq: int)
    requires forall a :: a in anchors && EndsBelow(a, segmentId, beforeSeq) ==> signer.CanVerify(a.keyId)
    ensures var r := CoveringAnchor(mac, signer, anchors, segmentId, beforeSeq);
            r.Ok? && (r.value.Some? <==>
                      exists a :: a in anchors && EndsBelow(a, segmentId, beforeSeq) && Authentic(mac, a))
  {
    hide CoveringAnchor, Authentic;
    var p := Decisive(mac, signer, segmentId, beforeSeq);
    CoveringExactly(mac, signer, anchors, segmentId, beforeSeq);
    if i :| IsLeast(NotAfter, p, anchors, i) { assert anchors[i] in anchors; }
    if a :| a in anchors && EndsBelow(a, segmentId, beforeSeq) && Authentic(mac, a) { assert p(a); }
  }

  function Purge(s: Store, anchors: Anchors, mac: Mac, signer: Signer, segmentId: Id, beforeSeq: int):
    (Store, Result<nat, EvidenceError>)
  {
    match CoveringAnchor(mac, signer, anchors, segmentId, beforeSeq)
    case Err(e) => (s, Err(e))
    case Ok(None) => (s, Err(UnanchoredRange))
    case Ok(Some(_)) => PurgeBefore(s, segmentId, beforeSeq)
  }
}
