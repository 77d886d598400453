/** When the retention scheduler seals and purges. */
module Scheduling {
  import opened Bytes
  import opened Evidence
  import opened Ledger
  import opened Merkle
  import opened Sealing

  datatype RetentionAction = Sealed | Purged | Skipped | Failed

  /** Non-negative waiting times, checked by the constructor. */
  datatype Policy = Policy(sealAfter: Time, purgeGrace: Time) {
    predicate Valid() { sealAfter >= 0.0 && purgeGrace >= 0.0 }
  }

  /** What considering one segment yields, with the stores afterwards; `Err` is a raised exception. */
  type Considered = (Store, Anchors, Result<RetentionAction, EvidenceError>)

  function MaybeSeal(s: Store, anchors: Anchors, mac: Mac, h: Hash, signer: Signer, policy: Policy,
                     id: Id, now: Time, openedAt: Time): Considered
  {
    if now - openedAt < policy.sealAfter then (s, anchors, Ok(Skipped))
    else
      var leaves := SegmentLeaves(s, id, None);
      if leaves == [] then (s, anchors, Ok(Skipped))
      else
        var (s', anchors', r) := Seal(s, anchors, mac, h, signer, id, leaves[|leaves| - 1].seqNo + 1, now);
        (s', anchors', Reported(r, Sealed, true))
  }

  function MaybePurge(s: Store, anchors: Anchors, mac: Mac, signer: Signer, policy: Policy,
                      id: Id, now: Time, seal: WormAnchor, liveFirstSeq: nat): Considered
  {
    if now - seal.sealedAt < policy.purgeGrace then (s, anchors, Ok(Skipped))
    else if liveFirstSeq >= seal.lastSeq + 1 then (s, anchors, Ok(Skipped))
    else
      var (s', r) := Purge(s, anchors, mac, signer, id, seal.lastSeq + 1);
      (s', anchors, Reported(r, Purged, false))
  }

  /** How a sealer result is reported: write errors are caught, and for seals a missing signer too. */
  function Reported<T>(r: Result<T, EvidenceError>, done: RetentionAction,
                       catchSigning: bool): Result<RetentionAction, EvidenceError> {
    match r
    case Ok(_) => Ok(done)
    case Err(e) => if IsWriteError(e) || (catchSigning && e.SigningUnavailable?) then Ok(Failed) else Err(e)
  }

  function Consider(s: Store, anchors: Anchors, mac: Mac, h: Hash, signer: Signer, policy: Policy, id: Id,
                    now: Time): Considered {
    match SegmentState(s, id)
    case Err(_) => (s, anchors, Ok(Failed))
    case Ok(None) => (s, anchors, Ok(Skipped))
    case Ok(Some(state)) =>
      if state.seal.None? then MaybeSeal(s, anchors, mac, h, signer, policy, id, now, state.openedAt)
      else MaybePurge(s, anchors, mac, signer, policy, id, now, state.seal.value, state.firstSeq)
  }

  /** One pass over segments in order; it stops early only when considering one of them raises. */
  function Pass(s: Store, anchors: Anchors, mac: Mac, h: Hash, signer: Signer, policy: Policy, ids: seq<Id>, now: Time,
                done: seq<RetentionAction>): (Store, Anchors, Result<seq<RetentionAction>, EvidenceError>)
    decreases |ids|
  {
    if ids == [] then (s, anchors, Ok(done))
    else
      var (s', anchors', r) := Consider(s, anchors, mac, h, signer, policy, ids[0], now);
      match r
      case Err(e) => (s', anchors', Err(e))
      case Ok(action) => Pass(s', anchors', mac, h, signer, policy, ids[1..], now, done + [action])
  }
}
