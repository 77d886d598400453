/** The write-once anchor store and the sealer that drives it and the evidence store. */
module Sealer {
  import opened Bytes
  import opened Evidence
  import opened Ledger
  import opened Merkle
  import opened Sealing
  import opened EvidenceStore

  class InMemoryWormAnchorStore {
    var anchors: Anchors

    constructor ()
      ensures anchors == []
    {
      anchors := [];
    }

    method Put(anchor: WormAnchor) returns (r: Result<(), EvidenceError>)
      modifies this
      ensures anchors == Sealing.Put(old(anchors), anchor).0
      ensures r == Sealing.Put(old(anchors), anchor).1
    {
      var existing := Find(anchors, anchor.anchorId);
      if existing.Some? && existing.value != anchor { return Err(WriteOnceConflict); }
      if existing.None? { anchors := anchors + [anchor]; }
      return Ok(());
    }
  }

  method CheckContiguous(leaves: seq<SegmentLeaf>) returns (ok: bool)
    requires leaves != []
    ensures ok <==> Contiguous(leaves)
  {
    var expected := leaves[0].seqNo;
    for i := 0 to |leaves|
      invariant expected == leaves[0].seqNo + i
      invariant forall j :: 0 <= j < i ==> leaves[j].seqNo == leaves[0].seqNo + j
    {
      if leaves[i].seqNo != expected { return false; }
      expected := expected + 1;
    }
    return true;
  }

  method FindCovering(mac: Mac, signer: Signer, anchors: Anchors,
                      beforeSeq: int) returns (r: Result<Option<WormAnchor>, EvidenceError>)
    ensures r == FirstCovering(mac, signer, anchors, beforeSeq)
  {
    for i := 0 to |anchors|
      invariant FirstCovering(mac, signer, anchors, beforeSeq) == FirstCovering(mac, signer, anchors[i..], beforeSeq)
    {
      var anchor := anchors[i];
      assert anchors[i..][0] == anchor && anchors[i..][1..] == anchors[i + 1..];
      if anchor.lastSeq != beforeSeq - 1 { continue; }
      if !signer.CanVerify(anchor.keyId) { return Err(AnchorUnverifiable); }
      if anchor.rootSignature == mac(anchor.keyId, anchor.SigningPayload()) { return Ok(Some(anchor)); }
    }
    return Ok(None);
  }

  class SegmentSealer {
    const retention: InMemoryEvidenceStore
    const storage: InMemoryWormAnchorStore
    const h: Hash

    constructor (retention: InMemoryEvidenceStore, storage: InMemoryWormAnchorStore, h: Hash)
      ensures this.retention == retention && this.storage == storage && this.h == h
    {
      this.retention, this.storage, this.h := retention, storage, h;
    }

    method Prepare(segmentId: Id, beforeSeq: int, now: Time, signer: Signer)
      returns (r: Result<WormAnchor, EvidenceError>)
      ensures r == PrepareSeal(retention.View(), retention.mac, h, signer, segmentId, beforeSeq, now)
    {
      var state := retention.GetSegmentState(segmentId);
      if state.Err? { return Err(state.error); }
      if state.value.None? { return Err(SegmentNotFound); }
      var leaves := retention.GetSegmentLeaves(segmentId, Some(beforeSeq));
      if leaves == [] { return Err(NothingToSeal); }
      var contiguous := CheckContiguous(leaves);
      if !contiguous { return Err(SequenceGap); }
      if leaves[0].seqNo < 0 { return Err(InvalidRange); }
      if !signer.available { return Err(SigningUnavailable); }
      return Ok(SignedAnchor(retention.mac, h, signer.keyId, state.value.value, leaves, now));
    }

    method Seal(segmentId: Id, beforeSeq: int, now: Time, signer: Signer) returns (r: Result<WormAnchor, EvidenceError>)
      modifies retention, storage
      ensures (retention.View(), storage.anchors, r) ==
              Sealing.Seal(old(retention.View()), old(storage.anchors), retention.mac, h, signer, segmentId, beforeSeq,
                           now)
    {
      var prepared := Prepare(segmentId, beforeSeq, now, signer);
      if prepared.Err? { return prepared; }
      var stored := storage.Put(prepared.value);
      if stored.Err? { return Err(stored.error); }
      var marked := retention.MarkSealed(segmentId, prepared.value);
      return if marked.Ok? then prepared else Err(SegmentNotFound);
    }

    method Purge(segmentId: Id, beforeSeq: int, signer: Signer) returns (r: Result<nat, EvidenceError>)
      modifies retention
      ensures var spec :=
                Sealing.Purge(old(retention.View()), storage.anchors, retention.mac, signer, segmentId, beforeSeq);
              retention.View() == spec.0 && r == spec.1
    {
      var covering := FindCovering(retention.mac, signer, ListForSegment(storage.anchors, segmentId), beforeSeq);
      if covering.Err? { return Err(covering.error); }
      if covering.value.None? { return Err(UnanchoredRange); }
      r := retention.PurgeBefore(segmentId, beforeSeq);
    }
  }
}
