/**
 * Runs in which only the scheduler seals and purges, in any mix with appends.
 *
 * Considering a segment is shown to be a sequence of the steps of `Retention`, so everything
 * proved of that system holds here; what the schedule adds is a one-way life cycle per segment.
 */
module ScheduleRuns {
  import opened Bytes
  import opened Evidence
  import opened Chain
  import opened Ledger
  import opened Merkle
  import opened Sealing
  import opened Scheduling
  import opened Retention
  import opened Audit

  // ---------------------------------------------------------------------------------------
  // Considering a segment, as steps of the evidence system
  // ---------------------------------------------------------------------------------------

  function SealWorld(w: World, mac: Mac, h: Hash, signer: Signer, id: Id, before: int, now: Time): World {
    match SegmentState(w.store, id)
    case Ok(Some(state)) =>
      var looked := SealLookStep(w, id);
      var prepared := PrepareAnchor(w.store, mac, h, signer, state, before, now);
      if prepared.Err? then looked
      else
        var stored :=
          SealStoreStep(SealPrepareStep(looked, mac, h, state, before, now, signer), prepared.value);
        if Put(w.anchors, prepared.value).1.Err? then stored else SealMarkStep(stored, prepared.value)
    case _ => w
  }

  function PurgeWorld(w: World, mac: Mac, h: Hash, signer: Signer, id: Id, before: int): World {
    if Purge(w.store, w.anchors, mac, signer, id, before).1.Err? then w
    else PurgeDeleteStep(PurgeAllowStep(PurgeCheckStep(w, mac, id, before, signer), id, before), id, before)
  }

  function MaybeSealWorld(w: World, mac: Mac, h: Hash, signer: Signer, policy: Policy, id: Id, now: Time,
                          openedAt: Time): World {
    var leaves := SegmentLeaves(w.store, id, None);
    if now - openedAt < policy.sealAfter || leaves == [] then w
    else SealWorld(w, mac, h, signer, id, leaves[|leaves| - 1].seqNo + 1, now)
  }

  function MaybePurgeWorld(w: World, mac: Mac, h: Hash, signer: Signer, policy: Policy, id: Id, now: Time,
                           seal: WormAnchor, liveFirstSeq: nat): World {
    if now - seal.sealedAt < policy.purgeGrace || liveFirstSeq >= seal.lastSeq + 1 then w
    else PurgeWorld(w, mac, h, signer, id, seal.lastSeq + 1)
  }

  function ConsiderWorld(w: World, mac: Mac, h: Hash, signer: Signer, policy: Policy, id: Id, now: Time): World {
    match SegmentState(w.store, id)
    case Ok(Some(state)) =>
      if state.seal.None? then MaybeSealWorld(w, mac, h, signer, policy, id, now, state.openedAt)
      else MaybePurgeWorld(w, mac, h, signer, policy, id, now, state.seal.value, state.firstSeq)
    case _ => w
  }

  lemma SealMatches(w: World, mac: Mac, h: Hash, signer: Signer, id: Id, before: int, now: Time)
    ensures var w', spec :=
              SealWorld(w, mac, h, signer, id, before, now), Seal(w.store, w.anchors, mac, h, signer, id, before, now);
            (w'.store, w'.anchors, w'.hist) == (spec.0, spec.1, w.hist)
  {
  }

  lemma SealKeeps(w: World, mac: Mac, h: Hash, signer: Signer, id: Id, before: int, now: Time)
    requires Inv(w, mac, h)
    ensures Inv(SealWorld(w, mac, h, signer, id, before, now), mac, h)
  {
    hide Inv, PrepareAnchor, SegmentState, Put;
    match SegmentState(w.store, id)
    case Ok(Some(state)) =>
      var w1 := SealLookStep(w, id);
      SealLookKeeps(w, mac, h, id);
      var prepared := PrepareAnchor(w.store, mac, h, signer, state, before, now);
      if prepared.Ok? {
        var w2 := SealPrepareStep(w1, mac, h, state, before, now, signer);
        SealPrepareKeeps(w1, mac, h, state, before, now, signer);
        SealStoreKeeps(w2, mac, h, prepared.value);
        SealMarkKeeps(SealStoreStep(w2, prepared.value), mac, h, prepared.value);
      }
    case _ =>
  }

  lemma PurgeMatches(w: World, mac: Mac, h: Hash, signer: Signer, id: Id, before: int)
    ensures var w', spec :=
              PurgeWorld(w, mac, h, signer, id, before), Purge(w.store, w.anchors, mac, signer, id, before);
            (w'.store, w'.anchors, w'.hist) == (spec.0, w.anchors, w.hist)
  {
  }

  lemma PurgeKeeps(w: World, mac: Mac, h: Hash, signer: Signer, id: Id, before: int)
    requires Inv(w, mac, h)
    ensures Inv(PurgeWorld(w, mac, h, signer, id, before), mac, h)
  {
    hide Inv;
    if Purge(w.store, w.anchors, mac, signer, id, before).1.Ok? {
      var w1 := PurgeCheckStep(w, mac, id, before, signer);
      PurgeCheckKeeps(w, mac, h, id, before, signer);
      PurgeAllowKeeps(w1, mac, h, id, before);
      PurgeDeleteKeeps(PurgeAllowStep(w1, id, before), mac, h, id, before);
    }
  }

  lemma MaybeSealMatches(w: World, mac: Mac, h: Hash, signer: Signer, policy: Policy, id: Id, now: Time, openedAt: Time)
    ensures var w', spec := MaybeSealWorld(w, mac, h, signer, policy, id, now, openedAt),
                            MaybeSeal(w.store, w.anchors, mac, h, signer, policy, id, now, openedAt);
            (w'.store, w'.anchors, w'.hist) == (spec.0, spec.1, w.hist)
  {
    hide SealWorld, Seal, SegmentLeaves;
    var leaves := SegmentLeaves(w.store, id, None);
    if leaves != [] { SealMatches(w, mac, h, signer, id, leaves[|leaves| - 1].seqNo + 1, now); }
  }

  lemma MaybePurgeMatches(w: World, mac: Mac, h: Hash, signer: Signer, policy: Policy, id: Id, now: Time,
                          seal: WormAnchor, liveFirstSeq: nat)
    ensures var w', spec := MaybePurgeWorld(w, mac, h, signer, policy, id, now, seal, liveFirstSeq),
                            MaybePurge(w.store, w.anchors, mac, signer, policy, id, now, seal, liveFirstSeq);
            (w'.store, w'.anchors, w'.hist) == (spec.0, spec.1, w.hist)
  {
    PurgeMatches(w, mac, h, signer, id, seal.lastSeq + 1);
  }

  /** The scheduler's code and these compositions of steps reach the same stores. */
  lemma ConsiderMatches(w: World, mac: Mac, h: Hash, signer: Signer, policy: Policy, id: Id, now: Time)
    ensures var w', spec :=
              ConsiderWorld(w, mac, h, signer, policy, id, now),
              Consider(w.store, w.anchors, mac, h, signer, policy, id, now);
            (w'.store, w'.anchors, w'.hist) == (spec.0, spec.1, w.hist)
  {
    match SegmentState(w.store, id)
    case Ok(Some(state)) =>
      if state.seal.None? {
        MaybeSealMatches(w, mac, h, signer, policy, id, now, state.openedAt);
      } else {
        MaybePurgeMatches(w, mac, h, signer, policy, id, now, state.seal.value, state.firstSeq);
      }
    case _ =>
  }

  lemma MaybeSealKeeps(w: World, mac: Mac, h: Hash, signer: Signer, policy: Policy, id: Id, now: Time, openedAt: Time)
    requires Inv(w, mac, h)
    ensures Inv(MaybeSealWorld(w, mac, h, signer, policy, id, now, openedAt), mac, h)
  {
    hide Inv, SealWorld, SegmentLeaves;
    var leaves := SegmentLeaves(w.store, id, None);
    if leaves != [] { SealKeeps(w, mac, h, signer, id, leaves[|leaves| - 1].seqNo + 1, now); }
  }

  lemma MaybePurgeKeeps(w: World, mac: Mac, h: Hash, signer: Signer, policy: Policy, id: Id, now: Time,
                        seal: WormAnchor, liveFirstSeq: nat)
    requires Inv(w, mac, h)
    ensures Inv(MaybePurgeWorld(w, mac, h, signer, policy, id, now, seal, liveFirstSeq), mac, h)
  {
    hide Inv, PurgeWorld;
    PurgeKeeps(w, mac, h, signer, id, seal.lastSeq + 1);
  }

  lemma ConsiderKeeps(w: World, mac: Mac, h: Hash, signer: Signer, policy: Policy, id: Id, now: Time)
    requires Inv(w, mac, h)
    ensures Inv(ConsiderWorld(w, mac, h, signer, policy, id, now), mac, h)
  {
    hide Inv, MaybeSealWorld, MaybePurgeWorld, SegmentState;
    match SegmentState(w.store, id)
    case Ok(Some(state)) =>
      if state.seal.None? {
        MaybeSealKeeps(w, mac, h, signer, policy, id, now, state.openedAt);
      } else {
        MaybePurgeKeeps(w, mac, h, signer, policy, id, now, state.seal.value, state.firstSeq);
      }
    case _ =>
  }

  // ---------------------------------------------------------------------------------------
  // The life cycle of a segment
  // ---------------------------------------------------------------------------------------

  datatype Phase = Open | Closed(seal: WormAnchor) | Gone(seal: WormAnchor)

  function PhaseOf(s: Store, id: Id): Phase {
    if id !in s.wormAnchors then Open
    else if PurgedCount(s, id) == 0 then Closed(s.wormAnchors[id])
    else Gone(s.wormAnchors[id])
  }

  /** When the segment counts as opened. */
  function OpenedAt(s: Store, id: Id): Time {
    var t := Get(s.openedAt, id, 0.0);
    if t == 0.0 then 1.0 else t
  }

  /** A segment has at most one anchor, from its first record on, and is purged up to it or not at all. */
  ghost predicate PhaseOk(s: Store, anchors: Anchors, id: Id) {
    match PhaseOf(s, id)
    case Open => PurgedCount(s, id) == 0 && forall a :: a in anchors ==> a.segmentId != id
    case Closed(seal) => OnlyAnchor(s, anchors, id, seal)
    case Gone(seal) => OnlyAnchor(s, anchors, id, seal) && PurgedCount(s, id) == seal.lastSeq + 1
  }

  ghost predicate OnlyAnchor(s: Store, anchors: Anchors, id: Id, seal: WormAnchor) {
    && id in s.segments && seal in anchors && seal.segmentId == id && seal.firstSeq == 0 && seal.lastSeq >= 0
    && seal.sealedAt >= OpenedAt(s, id)
    && forall a :: a in anchors && a.segmentId == id ==> a == seal
  }

  ghost predicate PhasesOk(s: Store, anchors: Anchors) { forall id :: PhaseOk(s, anchors, id) }

  /** In every phase the segment state is well formed. */
  lemma StateStaysValid(s: Store, anchors: Anchors, id: Id)
    requires PhaseOk(s, anchors, id)
    ensures SegmentState(s, id).Ok?
    ensures id in s.segments ==>
              && SegmentState(s, id).value.Some?
              && var state := SegmentState(s, id).value.value;
                 && state.Valid() && state.firstSeq == PurgedCount(s, id) && state.openedAt == OpenedAt(s, id)
                 && state.seal == Lookup(s.wormAnchors, id)
  {
  }

  // ---------------------------------------------------------------------------------------
  // Considering an open segment
  // ---------------------------------------------------------------------------------------

  lemma {:induction false} AllLeavesOfRun(rs: seq<StoredRecord>, p: int)
    requires IsRun(rs, p)
    ensures var leaves := LeavesBefore(rs, None); |leaves| == |rs| && forall i :: 0 <= i < |rs| ==>
              leaves[i].seqNo == p + i
  {
    if rs != [] {
      assert forall i :: 0 <= i < |rs[1..]| ==> rs[1..][i] == rs[i + 1];
      AllLeavesOfRun(rs[1..], p + 1);
    }
  }

  lemma WholeSegmentLeaves(w: World, mac: Mac, id: Id)
    requires SegmentAt(mac, w.store, w.hist, w.emptied, id)
    ensures var leaves, live := SegmentLeaves(w.store, id, None), Live(w.store, id);
            |leaves| == |live| && forall i :: 0 <= i < |live| ==> leaves[i].seqNo == PurgedCount(w.store, id) + i
  {
    LiveIsRun(w, mac, id);
    SortedRun(Live(w.store, id), PurgedCount(w.store, id));
    AllLeavesOfRun(Live(w.store, id), PurgedCount(w.store, id));
  }

  lemma KeepRun(rs: seq<StoredRecord>, p: int, n: nat)
    requires IsRun(rs, p) && n <= |rs|
    ensures KeepFrom(rs, p + n) == n
  {
    var k := KeepFrom(rs, p + n);
    assert k < |rs| ==> rs[k].seqNo == p + k;
    assert n < |rs| ==> rs[n].seqNo == p + n;
  }

  lemma WholePrefixLeaves(w: World, mac: Mac, id: Id)
    requires SegmentAt(mac, w.store, w.hist, w.emptied, id)
    ensures var live, p := Live(w.store, id), PurgedCount(w.store, id);
            var leaves := SegmentLeaves(w.store, id, Some(p + |live|));
            |leaves| == |live| && forall i :: 0 <= i < |live| ==> leaves[i].seqNo == p + i
  {
    hide SegmentOk, SortBySeq, LeavesBefore;
    LiveIsRun(w, mac, id);
    WholeRunLeaves(Live(w.store, id), PurgedCount(w.store, id));
  }

  lemma WholeRunLeaves(live: seq<StoredRecord>, p: int)
    requires IsRun(live, p)
    ensures var leaves := LeavesBefore(SortBySeq(live), Some(p + |live|));
            |leaves| == |live| && forall i :: 0 <= i < |live| ==> leaves[i].seqNo == p + i
  {
    SortedRun(live, p);
    LeavesOfRun(live, p, p + |live|);
    KeepRun(live, p, |live|);
  }

  /** Sealing everything that is live succeeds exactly if the signer answers. */
  lemma PrepareWhole(w: World, mac: Mac, h: Hash, signer: Signer, id: Id, now: Time)
    requires SegmentAt(mac, w.store, w.hist, w.emptied, id) && Live(w.store, id) != []
    requires SegmentState(w.store, id).Ok? && SegmentState(w.store, id).value.Some?
    ensures var live, p := Live(w.store, id), PurgedCount(w.store, id);
            var r := PrepareSeal(w.store, mac, h, signer, id, p + |live|, now);
            && (signer.available ==>
                r.Ok? && r.value.segmentId == id && r.value.firstSeq == p && r.value.lastSeq == p + |live| - 1
                && r.value.sealedAt == now && r.value.keyId == signer.keyId)
            && (!signer.available ==> r == Err(SigningUnavailable))
  {
    WholePrefixLeaves(w, mac, id);
  }

  /** An anchor id names its segment, so a segment without anchors never meets a write-once conflict. */
  lemma FreshAnchor(w: World, mac: Mac, h: Hash, a: WormAnchor)
    requires AnchorsOk(mac, h, w.store, w.hist, (set x | x in w.anchors) + w.seals)
    requires AnchorOk(mac, h, w.store, w.hist, a) && forall x :: x in w.anchors ==> x.segmentId != a.segmentId
    ensures Find(w.anchors, a.anchorId) == None
  {
    if Find(w.anchors, a.anchorId).Some? {
      var x := Find(w.anchors, a.anchorId).value;
      assert AnchorOk(mac, h, w.store, w.hist, x);
      AnchorIdInjective(x.segmentId, x.firstSeq, x.lastSeq, a.segmentId, a.firstSeq, a.lastSeq);
    }
  }

  /** Something is live, and the segment is old enough. */
  predicate SealDue(s: Store, policy: Policy, id: Id, now: Time) {
    Live(s, id) != [] && now - OpenedAt(s, id) >= policy.sealAfter
  }

  lemma SealOpen(w: World, mac: Mac, h: Hash, signer: Signer, id: Id, now: Time)
    requires Inv(w, mac, h) && id in w.store.segments && Live(w.store, id) != []
    requires PhaseOf(w.store, id) == Open && PhaseOk(w.store, w.anchors, id)
    ensures var before := PurgedCount(w.store, id) + |Live(w.store, id)|;
            var c := Seal(w.store, w.anchors, mac, h, signer, id, before, now);
            if signer.available then
              && c.2.Ok? && var a := c.2.value;
              && a.segmentId == id && a.firstSeq == 0 && a.lastSeq == |w.hist[id]| - 1
              && a.sealedAt == now && a.keyId == signer.keyId
              && c.0 == w.store.(wormAnchors := w.store.wormAnchors[id := a]) && c.1 == w.anchors + [a]
            else c == (w.store, w.anchors, Err(SigningUnavailable))
  {
    assert SegmentAt(mac, w.store, w.hist, w.emptied, id);
    StateStaysValid(w.store, w.anchors, id);
    PrepareWhole(w, mac, h, signer, id, now);
    if signer.available {
      var before := PurgedCount(w.store, id) + |Live(w.store, id)|;
      PreparedAnchor(w, mac, h, SegmentState(w.store, id).value.value, before, now, signer);
      FreshAnchor(w, mac, h, PrepareSeal(w.store, mac, h, signer, id, before, now).value);
    }
  }

  lemma LeavesOfWorld(w: World, mac: Mac, h: Hash, id: Id)
    requires Inv(w, mac, h)
    ensures var leaves, live := SegmentLeaves(w.store, id, None), Live(w.store, id);
            |leaves| == |live| && forall i :: 0 <= i < |live| ==> leaves[i].seqNo == PurgedCount(w.store, id) + i
    ensures (id in w.store.segments <==> id in w.hist) && PurgedCount(w.store, id) <= |Get(w.hist, id, [])|
    ensures Live(w.store, id) == Get(w.hist, id, [])[PurgedCount(w.store, id)..]
  {
    hide LogOk, ReceiptsOk, OutcomesOk, AnchorsOk, PurgedOk, PurgesOk, SegmentLeaves;
    assert SegmentAt(mac, w.store, w.hist, w.emptied, id);
    WholeSegmentLeaves(w, mac, id);
  }

  lemma ConsiderOpen(w: World, mac: Mac, h: Hash, signer: Signer, policy: Policy, id: Id, now: Time)
    requires Inv(w, mac, h) && PhaseOf(w.store, id) == Open && PhaseOk(w.store, w.anchors, id)
    ensures var c := Consider(w.store, w.anchors, mac, h, signer, policy, id, now);
            if !SealDue(w.store, policy, id, now) then c == (w.store, w.anchors, Ok(Skipped))
            else if !signer.available then c == (w.store, w.anchors, Ok(Failed))
            else
              && c.2 == Ok(Sealed) && id in w.store.segments
              && PhaseOf(c.0, id).Closed? && var a := PhaseOf(c.0, id).seal;
              && a.segmentId == id && a.firstSeq == 0 && a.lastSeq == |Get(w.hist, id, [])| - 1
              && a.sealedAt == now && a.keyId == signer.keyId && a.lastSeq >= 0
              && c.0 == w.store.(wormAnchors := w.store.wormAnchors[id := a]) && c.1 == w.anchors + [a]
  {
    hide Seal, SegmentLeaves, Inv;
    StateStaysValid(w.store, w.anchors, id);
    LeavesOfWorld(w, mac, h, id);
    if id in w.store.segments && Live(w.store, id) != [] { SealOpen(w, mac, h, signer, id, now); }
  }

  // ---------------------------------------------------------------------------------------
  // Considering a sealed or purged segment
  // ---------------------------------------------------------------------------------------

  lemma OnlyCovering(mac: Mac, signer: Signer, list: Anchors, seal: WormAnchor)
    requires list != [] && (forall a :: a in list ==> a == seal) && Authentic(mac, seal)
    ensures FirstCovering(mac, signer, list, seal.lastSeq + 1) ==
            if signer.CanVerify(seal.keyId) then Ok(Some(seal)) else Err(AnchorUnverifiable)
  {
    assert list[0] in list;
  }

  lemma DeleteRun(s: Store, id: Id, n: nat)
    requires IsRun(Live(s, id), 0) && PurgedCount(s, id) == 0 && 0 < n <= |Live(s, id)|
    ensures var (s', deleted) := SealAndPurge(s, id, n);
            deleted == n && PurgedCount(s', id) == n && Live(s', id) == Live(s, id)[n..]
  {
    KeepRun(Live(s, id), 0, n);
  }

  lemma PurgeClosed(w: World, mac: Mac, h: Hash, signer: Signer, id: Id, seal: WormAnchor)
    requires Inv(w, mac, h) && PhaseOf(w.store, id) == Closed(seal) && OnlyAnchor(w.store, w.anchors, id, seal)
    ensures var c := Purge(w.store, w.anchors, mac, signer, id, seal.lastSeq + 1);
            if signer.CanVerify(seal.keyId) then
              && c.1 == Ok(seal.lastSeq + 1) && seal.lastSeq < |Get(w.hist, id, [])|
              && c.0 == SealAndPurge(w.store, id, seal.lastSeq + 1).0
              && PurgedCount(c.0, id) == seal.lastSeq + 1 && Live(c.0, id) == Get(w.hist, id, [])[seal.lastSeq + 1..]
            else c == (w.store, Err(AnchorUnverifiable))
  {
    hide SealAndPurge, FirstCovering, SegmentState, MerkleRoot, IsRun;
    assert AnchorOk(mac, h, w.store, w.hist, seal);
    var list := ListForSegment(w.anchors, id);
    assert seal in list;
    OnlyCovering(mac, signer, list, seal);
    LiveIsRun(w, mac, id);
    DeleteRun(w.store, id, seal.lastSeq + 1);
  }

  lemma ConsiderClosed(w: World, mac: Mac, h: Hash, signer: Signer, policy: Policy, id: Id, now: Time, seal: WormAnchor)
    requires Inv(w, mac, h) && PhaseOf(w.store, id) == Closed(seal) && PhaseOk(w.store, w.anchors, id)
    ensures var c := Consider(w.store, w.anchors, mac, h, signer, policy, id, now);
            if now - seal.sealedAt < policy.purgeGrace then c == (w.store, w.anchors, Ok(Skipped))
            else if !signer.CanVerify(seal.keyId) then c == (w.store, w.anchors, Err(AnchorUnverifiable))
            else
              && c.2 == Ok(Purged) && c.1 == w.anchors && PhaseOf(c.0, id) == Gone(seal)
              && c.0 == SealAndPurge(w.store, id, seal.lastSeq + 1).0
              && PurgedCount(c.0, id) == seal.lastSeq + 1 <= |Get(w.hist, id, [])|
              && Live(c.0, id) == Get(w.hist, id, [])[seal.lastSeq + 1..]
  {
    hide Inv, Purge;
    StateStaysValid(w.store, w.anchors, id);
    PurgeClosed(w, mac, h, signer, id, seal);
  }

  lemma ConsiderGone(w: World, mac: Mac, h: Hash, signer: Signer, policy: Policy, id: Id, now: Time, seal: WormAnchor)
    requires PhaseOf(w.store, id) == Gone(seal) && PhaseOk(w.store, w.anchors, id)
    ensures Consider(w.store, w.anchors, mac, h, signer, policy, id, now) == (w.store, w.anchors, Ok(Skipped))
  {
    StateStaysValid(w.store, w.anchors, id);
  }

  // ---------------------------------------------------------------------------------------
  // Runs
  // ---------------------------------------------------------------------------------------

  datatype Event = Event(id: Id, outcome: Result<RetentionAction, EvidenceError>, now: Time)

  datatype Scheduled = Scheduled(w: World, events: seq<Event>)

  datatype Move =
    | Write(record: IntentRecord, signer: Signer)
    | Finish(receipt: Receipt, outcome: OutcomeRecord, signer: Signer)
    | Look(id: Id, now: Time, signer: Signer)

  function MoveStep(x: Scheduled, mac: Mac, h: Hash, policy: Policy, m: Move): Scheduled {
    match m
    case Write(record, signer) => x.(w := AppendStep(x.w, mac, record, signer))
    case Finish(receipt, outcome, signer) => x.(w := OutcomeStep(x.w, mac, receipt, outcome, signer))
    case Look(id, now, signer) =>
      Scheduled(ConsiderWorld(x.w, mac, h, signer, policy, id, now),
                x.events + [Event(id, Consider(x.w.store, x.w.anchors, mac, h, signer, policy, id, now).2, now)])
  }

  /** The seals and purges of one segment, in order. */
  function Deeds(events: seq<Event>, id: Id): seq<RetentionAction> {
    if events == [] then []
    else
      var last := events[|events| - 1];
      Deeds(events[..|events| - 1], id) +
      if last.id == id && (last.outcome == Ok(Sealed) || last.outcome == Ok(Purged)) then [last.outcome.value] else []
  }

  function Due(phase: Phase): seq<RetentionAction> {
    match phase case Open => [] case Closed(_) => [Sealed] case Gone(_) => [Sealed, Purged]
  }

  ghost predicate DeedsOk(s: Store, events: seq<Event>) { forall id :: Deeds(events, id) == Due(PhaseOf(s, id)) }

  ghost predicate ScheduledOk(x: Scheduled, mac: Mac, h: Hash) {
    && Inv(x.w, mac, h)
    && x.w.store.segments.Keys <= x.w.store.openedAt.Keys
    && PhasesOk(x.w.store, x.w.anchors)
    && DeedsOk(x.w.store, x.events)
  }

  /** Two stores in which a segment is in the same phase, and was opened at the same time. */
  ghost predicate SamePhase(s: Store, anchors: Anchors, s': Store, anchors': Anchors, id: Id) {
    && Lookup(s.wormAnchors, id) == Lookup(s'.wormAnchors, id) && PurgedCount(s, id) == PurgedCount(s', id)
    && (id in s.segments ==> id in s'.segments && OpenedAt(s, id) == OpenedAt(s', id))
    && (forall a :: a in anchors ==> a in anchors')
    && (forall a :: a in anchors' && a.segmentId == id ==> a in anchors)
  }

  lemma SamePhaseKeeps(s: Store, anchors: Anchors, s': Store, anchors': Anchors, id: Id)
    requires PhaseOk(s, anchors, id) && SamePhase(s, anchors, s', anchors', id)
    ensures PhaseOk(s', anchors', id) && PhaseOf(s', id) == PhaseOf(s, id)
  {
  }

  lemma WriteKeeps(x: Scheduled, mac: Mac, h: Hash, record: IntentRecord, signer: Signer)
    requires ScheduledOk(x, mac, h)
    ensures var x' := x.(w := AppendStep(x.w, mac, record, signer));
            PhasesOk(x'.w.store, x'.w.anchors) && DeedsOk(x'.w.store, x'.events)
            && x'.w.store.segments.Keys <= x'.w.store.openedAt.Keys
  {
    var s, s' := x.w.store, AppendStep(x.w, mac, record, signer).store;
    forall id ensures PhaseOk(s', x.w.anchors, id) && PhaseOf(s', id) == PhaseOf(s, id) {
      assert SamePhase(s, x.w.anchors, s', x.w.anchors, id);
      SamePhaseKeeps(s, x.w.anchors, s', x.w.anchors, id);
    }
  }

  lemma FinishKeeps(x: Scheduled, mac: Mac, h: Hash, receipt: Receipt, outcome: OutcomeRecord, signer: Signer)
    requires ScheduledOk(x, mac, h)
    ensures var x' := x.(w := OutcomeStep(x.w, mac, receipt, outcome, signer));
            PhasesOk(x'.w.store, x'.w.anchors) && DeedsOk(x'.w.store, x'.events)
            && x'.w.store.segments.Keys <= x'.w.store.openedAt.Keys
  {
    var s, s' := x.w.store, OutcomeStep(x.w, mac, receipt, outcome, signer).store;
    forall id ensures PhaseOk(s', x.w.anchors, id) && PhaseOf(s', id) == PhaseOf(s, id) {
      assert SamePhase(s, x.w.anchors, s', x.w.anchors, id);
      SamePhaseKeeps(s, x.w.anchors, s', x.w.anchors, id);
    }
  }

  /** What considering a segment does to its phase, and to no other's. */
  ghost predicate Advances(s: Store, anchors: Anchors, c: Considered, id: Id) {
    && PhasesOk(c.0, c.1) && c.0.segments.Keys <= c.0.openedAt.Keys
    && (forall k :: k != id ==> PhaseOf(c.0, k) == PhaseOf(s, k))
    && Due(PhaseOf(c.0, id)) ==
      Due(PhaseOf(s, id)) + (if c.2 == Ok(Sealed) || c.2 == Ok(Purged) then [c.2.value] else [])
  }

  lemma SealingAdvances(s: Store, anchors: Anchors, id: Id, a: WormAnchor, c: Considered)
    requires PhasesOk(s, anchors) && s.segments.Keys <= s.openedAt.Keys && PhaseOf(s, id) == Open && id in s.segments
    requires a.segmentId == id && a.firstSeq == 0 && a.lastSeq >= 0 && a.sealedAt >= OpenedAt(s, id)
    requires c == (s.(wormAnchors := s.wormAnchors[id := a]), anchors + [a], Ok(Sealed))
    ensures Advances(s, anchors, c, id)
  {
    assert PhaseOk(s, anchors, id);
    forall k ensures PhaseOk(c.0, c.1, k) && (k != id ==> PhaseOf(c.0, k) == PhaseOf(s, k)) {
      assert PhaseOk(s, anchors, k);
      if k != id {
        assert SamePhase(s, anchors, c.0, c.1, k);
        SamePhaseKeeps(s, anchors, c.0, c.1, k);
      }
    }
  }

  lemma PurgingAdvances(s: Store, anchors: Anchors, id: Id, seal: WormAnchor, c: Considered)
    requires PhasesOk(s, anchors) && s.segments.Keys <= s.openedAt.Keys && PhaseOf(s, id) == Closed(seal)
    requires c == (SealAndPurge(s, id, seal.lastSeq + 1).0, anchors, Ok(Purged))
    requires PhaseOf(c.0, id) == Gone(seal) && PurgedCount(c.0, id) == seal.lastSeq + 1
    ensures Advances(s, anchors, c, id)
  {
    assert PhaseOk(s, anchors, id);
    forall k ensures PhaseOk(c.0, c.1, k) && (k != id ==> PhaseOf(c.0, k) == PhaseOf(s, k)) {
      assert PhaseOk(s, anchors, k);
      if k != id {
        assert SamePhase(s, anchors, c.0, c.1, k);
        SamePhaseKeeps(s, anchors, c.0, c.1, k);
      }
    }
  }

  lemma ConsiderAdvances(w: World, mac: Mac, h: Hash, signer: Signer, policy: Policy, id: Id, now: Time)
    requires policy.Valid() && Inv(w, mac, h) && PhasesOk(w.store, w.anchors)
    requires w.store.segments.Keys <= w.store.openedAt.Keys
    ensures Advances(w.store, w.anchors, Consider(w.store, w.anchors, mac, h, signer, policy, id, now), id)
  {
    var c := Consider(w.store, w.anchors, mac, h, signer, policy, id, now);
    assert PhaseOk(w.store, w.anchors, id);
    match PhaseOf(w.store, id)
    case Open =>
      ConsiderOpen(w, mac, h, signer, policy, id, now);
      if c.2 == Ok(Sealed) { SealingAdvances(w.store, w.anchors, id, PhaseOf(c.0, id).seal, c); }
    case Closed(seal) =>
      ConsiderClosed(w, mac, h, signer, policy, id, now, seal);
      if c.2 == Ok(Purged) { PurgingAdvances(w.store, w.anchors, id, seal, c); }
    case Gone(seal) =>
      ConsiderGone(w, mac, h, signer, policy, id, now, seal);
  }

  lemma LookKeeps(x: Scheduled, mac: Mac, h: Hash, policy: Policy, id: Id, now: Time, signer: Signer)
    requires policy.Valid() && ScheduledOk(x, mac, h)
    ensures ScheduledOk(MoveStep(x, mac, h, policy, Look(id, now, signer)), mac, h)
  {
    hide Inv, Consider, ConsiderWorld, PhasesOk, DeedsOk;
    var w' := ConsiderWorld(x.w, mac, h, signer, policy, id, now);
    var c := Consider(x.w.store, x.w.anchors, mac, h, signer, policy, id, now);
    assert Inv(w', mac, h) by { ConsiderKeeps(x.w, mac, h, signer, policy, id, now); }
    assert w'.store == c.0 && w'.anchors == c.1 by { ConsiderMatches(x.w, mac, h, signer, policy, id, now); }
    ConsiderAdvances(x.w, mac, h, signer, policy, id, now);
    LookDeeds(x.w.store, x.w.anchors, c, x.events, id, now);
  }

  lemma LookDeeds(s: Store, anchors: Anchors, c: Considered, events: seq<Event>, id: Id, now: Time)
    requires DeedsOk(s, events) && Advances(s, anchors, c, id)
    ensures DeedsOk(c.0, events + [Event(id, c.2, now)])
  {
    var longer := events + [Event(id, c.2, now)];
    assert longer[..|events|] == events;
    forall k ensures Deeds(longer, k) == Due(PhaseOf(c.0, k)) {
      assert Deeds(events, k) == Due(PhaseOf(s, k));
    }
  }

  lemma MoveKeeps(x: Scheduled, mac: Mac, h: Hash, policy: Policy, m: Move)
    requires policy.Valid() && ScheduledOk(x, mac, h)
    ensures ScheduledOk(MoveStep(x, mac, h, policy, m), mac, h)
  {
    hide Inv, ConsiderWorld, AppendStep, OutcomeStep, PhasesOk, DeedsOk;
    match m
    case Write(record, signer) =>
      WriteKeeps(x, mac, h, record, signer);
      AppendKeeps(x.w, mac, h, record, signer);
    case Finish(receipt, outcome, signer) =>
      FinishKeeps(x, mac, h, receipt, outcome, signer);
      OutcomeKeeps(x.w, mac, h, receipt, outcome, signer);
    case Look(id, now, signer) =>
      LookKeeps(x, mac, h, policy, id, now, signer);
  }

  function Play(mac: Mac, h: Hash, policy: Policy, moves: seq<Move>): Scheduled {
    if moves == [] then Scheduled(INITIAL, [])
    else MoveStep(Play(mac, h, policy, moves[..|moves| - 1]), mac, h, policy, moves[|moves| - 1])
  }

  lemma {:induction false} PlayKeeps(mac: Mac, h: Hash, policy: Policy, moves: seq<Move>)
    requires policy.Valid()
    ensures ScheduledOk(Play(mac, h, policy, moves), mac, h)
  {
    hide MoveStep;
    if moves != [] {
      PlayKeeps(mac, h, policy, moves[..|moves| - 1]);
      MoveKeeps(Play(mac, h, policy, moves[..|moves| - 1]), mac, h, policy, moves[|moves| - 1]);
    }
  }

  /**
   * Over every mix of appends and scheduler passes, a segment is sealed at most once, then purged
   * at most once, and its state never stops being well formed.
   */
  lemma LifeCycle(mac: Mac, h: Hash, policy: Policy, moves: seq<Move>, id: Id)
    requires policy.Valid()
    ensures Deeds(Play(mac, h, policy, moves).events, id) <= [Sealed, Purged]
    ensures SegmentState(Play(mac, h, policy, moves).w.store, id).Ok?
  {
    hide Play, Inv, PhaseOk;
    var x := Play(mac, h, policy, moves);
    PlayKeeps(mac, h, policy, moves);
    assert Deeds(x.events, id) == Due(PhaseOf(x.w.store, id));
    StateStaysValid(x.w.store, x.w.anchors, id);
  }

  /** What considering a segment in the given phase reports, and what it leaves. */
  ghost predicate Reports(s: Store, anchors: Anchors, hist: seq<StoredRecord>, policy: Policy, signer: Signer, id: Id,
                          now: Time, c: Considered) {
    match PhaseOf(s, id)
    case Open =>
      var due := SealDue(s, policy, id, now);
      && (c.2 == Ok(Skipped) <==> !due)
      && (c.2 == Ok(Failed) <==> due && !signer.available)
      && (c.2 == Ok(Sealed) <==> due && signer.available)
      && (c.2 != Ok(Sealed) ==> (c.0, c.1) == (s, anchors))
      && (c.2 == Ok(Sealed) ==>
            && PhaseOf(c.0, id).Closed? && var seal := PhaseOf(c.0, id).seal;
            && (seal.firstSeq, seal.lastSeq) == (0, |hist| - 1)
            && seal.sealedAt == now && seal.keyId == signer.keyId)
    case Closed(seal) =>
      var due := now - seal.sealedAt >= policy.purgeGrace;
      && (c.2 == Ok(Skipped) <==> !due)
      && (c.2.Err? <==> due && !signer.CanVerify(seal.keyId))
      && (c.2 == Ok(Purged) <==> due && signer.CanVerify(seal.keyId))
      && (c.2 != Ok(Purged) ==> (c.0, c.1) == (s, anchors))
      && (c.2 == Ok(Purged) ==>
            seal.firstSeq == 0 && 0 <= seal.lastSeq < |hist| && Live(c.0, id) == hist[seal.lastSeq + 1..])
    case Gone(_) => c == (s, anchors, Ok(Skipped))
  }

  lemma LookExactly(w: World, mac: Mac, h: Hash, policy: Policy, id: Id, now: Time, signer: Signer)
    requires Inv(w, mac, h) && PhaseOk(w.store, w.anchors, id)
    ensures Reports(w.store, w.anchors, Get(w.hist, id, []), policy, signer, id, now,
                    Consider(w.store, w.anchors, mac, h, signer, policy, id, now))
  {
    hide Inv, Consider, SealAndPurge;
    match PhaseOf(w.store, id)
    case Open => ConsiderOpen(w, mac, h, signer, policy, id, now);
    case Closed(seal) => ConsiderClosed(w, mac, h, signer, policy, id, now, seal);
    case Gone(seal) => ConsiderGone(w, mac, h, signer, policy, id, now, seal);
  }

  /**
   * What the next look at a segment reports, exactly. An open segment is sealed, whole, as soon as it
   * is old enough, holds a record and finds the signer answering. A purge comes no earlier than the grace period
   * after its seal and deletes precisely the sealed records; after it every look is skipped. Looking
   * raises, against the promise that a pass never does, exactly if a due purge meets an anchor whose
   * signing key is unavailable.
   */
  lemma NextLook(mac: Mac, h: Hash, policy: Policy, moves: seq<Move>, id: Id, now: Time, signer: Signer)
    requires policy.Valid()
    ensures var w := Play(mac, h, policy, moves).w;
            Reports(w.store, w.anchors, Get(w.hist, id, []), policy, signer, id, now,
                    Consider(w.store, w.anchors, mac, h, signer, policy, id, now))
  {
    hide Inv, Consider, Reports, Play, PhaseOk, DeedsOk;
    PlayKeeps(mac, h, policy, moves);
    LookExactly(Play(mac, h, policy, moves).w, mac, h, policy, id, now, signer);
  }

  /**
   * Looking does raise: one record is written and sealed, the grace period passes, and the pass runs
   * with a signer that cannot verify under the sealing key.
   */
  lemma RaiseHappens(mac: Mac, h: Hash, policy: Policy, record: IntentRecord, signer: Signer, later: Signer,
                     sealed: Time, now: Time)
    requires policy.Valid() && signer.available && !later.CanVerify(signer.keyId)
    requires sealed - (if record.createdAt == 0.0 then 1.0 else record.createdAt) >= policy.sealAfter
    requires now - sealed >= policy.purgeGrace
    ensures var id := record.segmentId;
            var x := Play(mac, h, policy, [Write(record, signer), Look(id, sealed, signer)]);
            Pass(x.w.store, x.w.anchors, mac, h, later, policy, [id], now, []) ==
            (x.w.store, x.w.anchors, Err(AnchorUnverifiable))
  {
    var id := record.segmentId;
    var first, second := [Write(record, signer)], [Write(record, signer), Look(id, sealed, signer)];
    var w1, w2 := Play(mac, h, policy, first).w, Play(mac, h, policy, second).w;
    OneWrite(mac, h, policy, record, signer);
    hide Play, Inv, Consider, PhaseOk, DeedsOk, ConsiderWorld;
    PlayKeeps(mac, h, policy, first);
    assert first + [Look(id, sealed, signer)] == second;
    PlayLook(mac, h, policy, first, id, sealed, signer);
    LookExactly(w1, mac, h, policy, id, sealed, signer);
    PlayKeeps(mac, h, policy, second);
    ConsiderClosed(w2, mac, h, later, policy, id, now, PhaseOf(w2.store, id).seal);
  }

  lemma OneWrite(mac: Mac, h: Hash, policy: Policy, record: IntentRecord, signer: Signer)
    requires signer.available
    ensures var id, w := record.segmentId, Play(mac, h, policy, [Write(record, signer)]).w;
            && PhaseOf(w.store, id) == Open && Live(w.store, id) != []
            && OpenedAt(w.store, id) == if record.createdAt == 0.0 then 1.0 else record.createdAt
  {
    var moves := [Write(record, signer)];
    assert moves[..0] == [];
    assert Play(mac, h, policy, moves).w == AppendStep(INITIAL, mac, record, signer);
    OneRecord(mac, h, record, signer, 0.0);
  }

  function Looks(ids: seq<Id>, now: Time, signer: Signer): seq<Move> {
    if ids == [] then [] else [Look(ids[0], now, signer)] + Looks(ids[1..], now, signer)
  }

  /**
   * One pass of the scheduler is looks at the listed segments in order, all of them unless one
   * raises; so whatever holds after every mix of writes and looks holds between and inside passes.
   */
  lemma {:induction false} PassIsLooks(mac: Mac, h: Hash, policy: Policy, moves: seq<Move>, ids: seq<Id>, now: Time,
                                       signer: Signer,
                                       done: seq<RetentionAction>) returns (k: nat)
    ensures k <= |ids|
    ensures var x, y := Play(mac, h, policy, moves), Play(mac, h, policy, moves + Looks(ids[..k], now, signer));
            var p := Pass(x.w.store, x.w.anchors, mac, h, signer, policy, ids, now, done);
            && (y.w.store, y.w.anchors) == (p.0, p.1)
            && (p.2.Ok? ==> k == |ids|)
            && (p.2.Err? ==>
                  k > 0 && y.events != [] && y.events[|y.events| - 1] == Event(ids[k - 1], Err(p.2.error), now))
    decreases |ids|
  {
    hide Consider, Play;
    if ids == [] {
      k := 0;
      assert moves + Looks([], now, signer) == moves;
    } else {
      var x, next := Play(mac, h, policy, moves), moves + [Look(ids[0], now, signer)];
      var c := Consider(x.w.store, x.w.anchors, mac, h, signer, policy, ids[0], now);
      PlayLook(mac, h, policy, moves, ids[0], now, signer);
      LooksFrom(moves, ids, now, signer);
      if c.2.Err? {
        k := 1;
      } else {
        var j := PassIsLooks(mac, h, policy, next, ids[1..], now, signer, done + [c.2.value]);
        k := j + 1;
      }
    }
  }

  lemma PlayLook(mac: Mac, h: Hash, policy: Policy, moves: seq<Move>, id: Id, now: Time, signer: Signer)
    ensures var x, y := Play(mac, h, policy, moves), Play(mac, h, policy, moves + [Look(id, now, signer)]);
            var c := Consider(x.w.store, x.w.anchors, mac, h, signer, policy, id, now);
            (y.w.store, y.w.anchors) == (c.0, c.1) && y.events == x.events + [Event(id, c.2, now)]
  {
    hide Consider, ConsiderWorld;
    assert (moves + [Look(id, now, signer)])[..|moves|] == moves;
    ConsiderMatches(Play(mac, h, policy, moves).w, mac, h, signer, policy, id, now);
  }

  lemma LooksFrom(moves: seq<Move>, ids: seq<Id>, now: Time, signer: Signer)
    requires ids != []
    ensures var next := moves + [Look(ids[0], now, signer)];
            && moves + Looks(ids[..1], now, signer) == next
            && forall j :: 0 <= j < |ids| ==>
              moves + Looks(ids[..j + 1], now, signer) == next + Looks(ids[1..][..j], now, signer)
  {
    assert ids[..1][1..] == [];
    forall j | 0 <= j < |ids|
      ensures moves + Looks(ids[..j + 1], now, signer) ==
                moves + [Look(ids[0], now, signer)] + Looks(ids[1..][..j], now, signer)
    {
      assert ids[..j + 1][1..] == ids[1..][..j];
    }
  }

  // ---------------------------------------------------------------------------------------
  // Everything proved of the evidence system holds of scheduled runs
  // ---------------------------------------------------------------------------------------

  lemma SealIsReachable(w: World, mac: Mac, h: Hash, signer: Signer, id: Id, before: int, now: Time)
    requires Reachable(w, mac, h)
    ensures Reachable(SealWorld(w, mac, h, signer, id, before, now), mac, h)
  {
    hide Reachable, SegmentState, PrepareAnchor, Put, SealLookStep, SealPrepareStep, SealStoreStep, SealMarkStep;
    match SegmentState(w.store, id)
    case Ok(Some(state)) =>
      var w1 := Step(w, mac, h, SealLook(id));
      StepIsReachable(w, mac, h, SealLook(id));
      var prepared := PrepareAnchor(w.store, mac, h, signer, state, before, now);
      if prepared.Ok? {
        var w2 := Step(w1, mac, h, SealPrepare(state, before, now, signer));
        StepIsReachable(w1, mac, h, SealPrepare(state, before, now, signer));
        StepIsReachable(w2, mac, h, SealStore(prepared.value));
        StepIsReachable(Step(w2, mac, h, SealStore(prepared.value)), mac, h, SealMark(prepared.value));
      }
    case _ =>
  }

  lemma PurgeIsReachable(w: World, mac: Mac, h: Hash, signer: Signer, id: Id, before: int)
    requires Reachable(w, mac, h)
    ensures Reachable(PurgeWorld(w, mac, h, signer, id, before), mac, h)
  {
    hide Reachable, PurgeDeleteStep, SealAndPurge, FirstCovering;
    if Purge(w.store, w.anchors, mac, signer, id, before).1.Ok? {
      var w1 := Step(w, mac, h, PurgeCheck(id, before, signer));
      StepIsReachable(w, mac, h, PurgeCheck(id, before, signer));
      var w2 := Step(w1, mac, h, PurgeAllow(id, before));
      StepIsReachable(w1, mac, h, PurgeAllow(id, before));
      StepIsReachable(w2, mac, h, PurgeDelete(id, before));
      assert (id, before) in w2.allowed;
    }
  }

  lemma ConsiderIsReachable(w: World, mac: Mac, h: Hash, signer: Signer, policy: Policy, id: Id, now: Time)
    requires Reachable(w, mac, h)
    ensures Reachable(ConsiderWorld(w, mac, h, signer, policy, id, now), mac, h)
  {
    hide Reachable, SealWorld, PurgeWorld, SegmentState, SegmentLeaves;
    match SegmentState(w.store, id)
    case Ok(Some(state)) =>
      var leaves := SegmentLeaves(w.store, id, None);
      if state.seal.Some? {
        PurgeIsReachable(w, mac, h, signer, id, state.seal.value.lastSeq + 1);
      } else if leaves != [] {
        SealIsReachable(w, mac, h, signer, id, leaves[|leaves| - 1].seqNo + 1, now);
      }
    case _ =>
  }

  lemma MoveIsReachable(x: Scheduled, mac: Mac, h: Hash, policy: Policy, m: Move)
    requires Reachable(x.w, mac, h)
    ensures Reachable(MoveStep(x, mac, h, policy, m).w, mac, h)
  {
    hide Reachable, AppendStep, OutcomeStep, ConsiderWorld, Consider;
    match m
    case Write(record, signer) => StepIsReachable(x.w, mac, h, Append(record, signer));
    case Finish(receipt, outcome, signer) => StepIsReachable(x.w, mac, h, Outcome(receipt, outcome, signer));
    case Look(id, now, signer) => ConsiderIsReachable(x.w, mac, h, signer, policy, id, now);
  }

  /** Every state of a scheduled run is one the evidence system reaches by its own steps. */
  lemma {:induction false} PlayIsReachable(mac: Mac, h: Hash, policy: Policy, moves: seq<Move>)
    ensures Reachable(Play(mac, h, policy, moves).w, mac, h)
  {
    if moves == [] {
      InitialIsReachable(mac, h);
    } else {
      hide Reachable, MoveStep;
      PlayIsReachable(mac, h, policy, moves[..|moves| - 1]);
      MoveIsReachable(Play(mac, h, policy, moves[..|moves| - 1]), mac, h, policy, moves[|moves| - 1]);
    }
  }

  /** So what the scheduler purged stays provable. */
  lemma ScheduledPurgesStayProvable(mac: Mac, h: Hash, policy: Policy, moves: seq<Move>, id: Id,
                                    i: nat) returns (a: WormAnchor)
    requires IsHash(h) && i < PurgedCount(Play(mac, h, policy, moves).w.store, id)
    ensures var w := Play(mac, h, policy, moves).w;
            && a in w.anchors && a.segmentId == id && a.Covers(i)
            && id in w.hist && Attests(mac, h, a, w.hist[id]) && ProvesRecord(h, a, w.hist[id], i)
  {
    hide Reachable, Play, ProvesRecord, Attests;
    PlayIsReachable(mac, h, policy, moves);
    a := PurgedRecordsStayProvable(Play(mac, h, policy, moves).w, mac, h, id, i);
  }

  /** And a scheduled segment verifies unless it was written to after a purge had emptied it. */
  lemma ScheduledVerdict(mac: Mac, h: Hash, policy: Policy, moves: seq<Move>, signer: Signer, id: Id)
    requires var w := Play(mac, h, policy, moves).w; id in w.store.segments && KeysKept(signer, Live(w.store, id))
    ensures var w := Play(mac, h, policy, moves).w; var v := VerifyIntents(w.store, mac, signer, id);
            && (v.status == Broken <==> Severed(w, id))
            && (v.status == SealedPurged <==> v.status != Broken && PurgedCount(w.store, id) > 0)
            && (v.status == Intact <==> PurgedCount(w.store, id) == 0)
  {
    hide Reachable, Play, VerifyIntents, Severed, KeysKept;
    PlayIsReachable(mac, h, policy, moves);
    HonestVerdict(Play(mac, h, policy, moves).w, mac, h, signer, id);
  }
}
