/** The retention scheduler object, which only decides when its sealer acts. */
module Scheduler {
  import opened Bytes
  import opened Evidence
  import opened Ledger
  import opened Sealing
  import opened Scheduling
  import opened EvidenceStore
  import opened Sealer

  class RetentionScheduler {
    const sealer: SegmentSealer
    const policy: Policy

    constructor (sealer: SegmentSealer, policy: Policy)
      requires policy.Valid()
      ensures this.sealer == sealer && this.policy == policy
    {
      this.sealer, this.policy := sealer, policy;
    }

    method Consider(id: Id, now: Time, signer: Signer) returns (r: Result<RetentionAction, EvidenceError>)
      modifies sealer.retention, sealer.storage
      ensures (sealer.retention.View(), sealer.storage.anchors, r) ==
              Scheduling.Consider(old(sealer.retention.View()), old(sealer.storage.anchors), sealer.retention.mac,
                                  sealer.h,
                                  signer, policy, id, now)
    {
      var state := sealer.retention.GetSegmentState(id);
      if state.Err? { return Ok(Failed); }
      if state.value.None? { return Ok(Skipped); }
      var segment := state.value.value;
      if segment.seal.None? {
        r := MaybeSeal(id, now, segment.openedAt, signer);
      } else {
        r := MaybePurge(id, now, segment.seal.value, segment.firstSeq, signer);
      }
    }

    method MaybeSeal(id: Id, now: Time, openedAt: Time, signer: Signer)
      returns (r: Result<RetentionAction, EvidenceError>)
      modifies sealer.retention, sealer.storage
      ensures (sealer.retention.View(), sealer.storage.anchors, r) ==
              Scheduling.MaybeSeal(old(sealer.retention.View()), old(sealer.storage.anchors), sealer.retention.mac,
                                   sealer.h,
                                   signer, policy, id, now, openedAt)
    {
      if now - openedAt < policy.sealAfter { return Ok(Skipped); }
      var leaves := sealer.retention.GetSegmentLeaves(id, None);
      if leaves == [] { return Ok(Skipped); }
      var sealing := sealer.Seal(id, leaves[|leaves| - 1].seqNo + 1, now, signer);
      return Reported(sealing, Sealed, true);
    }

    method MaybePurge(id: Id, now: Time, seal: WormAnchor, liveFirstSeq: nat,
                      signer: Signer) returns (r: Result<RetentionAction, EvidenceError>)
      modifies sealer.retention
      ensures var spec :=
                Scheduling.MaybePurge(old(sealer.retention.View()), sealer.storage.anchors, sealer.retention.mac,
                                                signer, policy, id, now, seal, liveFirstSeq);
              sealer.retention.View() == spec.0 && sealer.storage.anchors == spec.1 && r == spec.2
    {
      hide Sealing.Purge;
      if now - seal.sealedAt < policy.purgeGrace { return Ok(Skipped); }
      var beforeSeq := seal.lastSeq + 1;
      if liveFirstSeq >= beforeSeq { return Ok(Skipped); }
      var purging := sealer.Purge(id, beforeSeq, signer);
      r := Reported(purging, Purged, false);
    }

    method RunOnce(ids: seq<Id>, now: Time, signer: Signer) returns (r: Result<seq<RetentionAction>, EvidenceError>)
      modifies sealer.retention, sealer.storage
      ensures (sealer.retention.View(), sealer.storage.anchors, r) ==
              Pass(old(sealer.retention.View()), old(sealer.storage.anchors), sealer.retention.mac, sealer.h, signer,
                   policy, ids, now, [])
    {
      var outcomes := [];
      for i := 0 to |ids|
        invariant Pass(old(sealer.retention.View()), old(sealer.storage.anchors), sealer.retention.mac, sealer.h,
                       signer, policy, ids, now, []) ==
                  Pass(sealer.retention.View(), sealer.storage.anchors, sealer.retention.mac, sealer.h, signer, policy,
                       ids[i..], now, outcomes)
      {
        assert ids[i..][0] == ids[i] && ids[i..][1..] == ids[i + 1..];
        var outcome := Consider(ids[i], now, signer);
        if outcome.Err? { return Err(outcome.error); }
        outcomes := outcomes + [outcome.value];
      }
      return Ok(outcomes);
    }
  }
}
