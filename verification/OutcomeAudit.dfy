/**
 * What verifying an outcome chain tells.
 *
 * Outcomes are signed with their position and the code before them, but without their segment, and
 * their chains are never purged: what was signed and what is stored determine each other.
 */
module OutcomeAudit {
  import opened Bytes
  import opened Evidence
  import opened Chain
  import opened Ledger
  import opened Merkle
  import opened Sealing
  import opened Retention
  import opened Audit

  // ---------------------------------------------------------------------------------------
  // Signed outcomes and stored ones
  // ---------------------------------------------------------------------------------------

  /** The outcome signed under this key with this payload stands in the segment's chain. */
  ghost predicate StoredAt(s: Store, id: Id, keyId: Id, p: Payload) {
    && p.OutcomePayload? && 0 <= p.seqNo < |OutcomesOf(s, id)|
    && var r := OutcomesOf(s, id)[p.seqNo]; r.keyId == keyId && OutcomeLinkOf(r).payload == p
  }

  ghost predicate SignedIsStored(s: Store, log: SigningLog) {
    forall k, p :: (k, p) in log && p.OutcomePayload? ==> exists id :: StoredAt(s, id, k, p)
  }

  ghost predicate ChainIsSigned(chain: seq<StoredOutcome>, log: SigningLog) {
    forall i :: 0 <= i < |chain| ==> (chain[i].keyId, OutcomeLinkOf(chain[i]).payload) in log
  }

  ghost predicate Ledgered(w: World) {
    SignedIsStored(w.store, w.log) && forall id :: ChainIsSigned(OutcomesOf(w.store, id), w.log)
  }

  /** What a step may do to the outcome chains and the log: add one outcome to both, or to neither. */
  ghost predicate Extends(w: World, w': World, added: Option<(Id, StoredOutcome)>) {
    && w.log <= w'.log
    && (forall id :: OutcomesOf(w'.store, id) ==
          OutcomesOf(w.store, id) + if added.Some? && added.value.0 == id then [added.value.1] else [])
    && (added.Some? ==> added.value.1.seqNo == |OutcomesOf(w.store, added.value.0)|)
    && (forall k, p :: (k, p) in w'.log && p.OutcomePayload? ==>
          (k, p) in w.log || (added.Some? && (k, p) == (added.value.1.keyId, OutcomeLinkOf(added.value.1).payload)))
    && (added.Some? ==> (added.value.1.keyId, OutcomeLinkOf(added.value.1).payload) in w'.log)
  }

  lemma ExtendsKeeps(w: World, w': World, added: Option<(Id, StoredOutcome)>)
    requires Ledgered(w) && Extends(w, w', added)
    ensures Ledgered(w')
  {
    forall k, p | (k, p) in w'.log && p.OutcomePayload? ensures exists id :: StoredAt(w'.store, id, k, p) {
      if (k, p) in w.log {
        var id :| StoredAt(w.store, id, k, p);
        assert StoredAt(w'.store, id, k, p);
      } else {
        assert StoredAt(w'.store, added.value.0, k, p);
      }
    }
    forall id ensures ChainIsSigned(OutcomesOf(w'.store, id), w'.log) {
      assert ChainIsSigned(OutcomesOf(w.store, id), w.log);
    }
  }

  lemma OutcomeExtends(w: World, mac: Mac, receipt: Receipt, outcome: OutcomeRecord, signer: Signer)
    ensures exists added :: Extends(w, OutcomeStep(w, mac, receipt, outcome, signer), added)
  {
    var w' := OutcomeStep(w, mac, receipt, outcome, signer);
    var stored := NextOutcome(w.store, mac, receipt.segmentId, outcome, signer.keyId);
    if SignsOutcome(w.store, receipt, outcome, signer) {
      assert Extends(w, w', Some((receipt.segmentId, stored)));
    } else {
      assert Extends(w, w', None);
    }
  }

  /** Every other step signs no outcome and leaves the chains alone. */
  lemma OtherExtends(w: World, mac: Mac, h: Hash, a: Action)
    requires !a.Outcome?
    ensures Extends(w, Step(w, mac, h, a), None)
  {
    hide NextRecord, PrepareAnchor, CoveringAnchor, Put, SegmentState, DecisionIds;
  }

  lemma StepLedgers(w: World, mac: Mac, h: Hash, a: Action)
    requires Ledgered(w)
    ensures Ledgered(Step(w, mac, h, a))
  {
    hide Step, Extends, Ledgered;
    if a.Outcome? {
      OutcomeExtends(w, mac, a.receipt, a.outcome, a.signer);
      var added :| Extends(w, OutcomeStep(w, mac, a.receipt, a.outcome, a.signer), added);
      StepIsOutcome(w, mac, h, a);
      ExtendsKeeps(w, Step(w, mac, h, a), added);
    } else {
      OtherExtends(w, mac, h, a);
      ExtendsKeeps(w, Step(w, mac, h, a), None);
    }
  }

  lemma StepIsOutcome(w: World, mac: Mac, h: Hash, a: Action)
    requires a.Outcome?
    ensures Step(w, mac, h, a) == OutcomeStep(w, mac, a.receipt, a.outcome, a.signer)
  {
  }

  lemma {:induction false} RunLedgers(trace: seq<World>, mac: Mac, h: Hash, i: nat)
    requires IsTrace(trace, mac, h) && i < |trace|
    ensures Ledgered(trace[i])
  {
    if i > 0 {
      hide Step, Ledgered;
      var j := i - 1;
      RunLedgers(trace, mac, h, j);
      assert Next(trace[j], trace[j + 1], mac, h);
      var a :| trace[i] == Step(trace[j], mac, h, a);
      StepLedgers(trace[j], mac, h, a);
    }
  }

  lemma ReachableIsLedgered(w: World, mac: Mac, h: Hash)
    requires Reachable(w, mac, h)
    ensures Ledgered(w)
  {
    hide Ledgered, Next;
    var trace :| IsTrace(trace, mac, h) && trace[|trace| - 1] == w;
    RunLedgers(trace, mac, h, |trace| - 1);
  }

  // ---------------------------------------------------------------------------------------
  // Replaced chains
  // ---------------------------------------------------------------------------------------

  /** Two different things that were really signed and got the same code. */
  ghost predicate Twins(mac: Mac, log: SigningLog) {
    exists x, y :: x in log && y in log && x != y && mac(x.0, x.1) == mac(y.0, y.1)
  }

  lemma SameCode(mac: Mac, log: SigningLog, a: StoredOutcome, b: StoredOutcome)
    requires a.mac == mac(a.keyId, OutcomeLinkOf(a).payload) == mac(b.keyId, OutcomeLinkOf(b).payload) == b.mac
    requires (a.keyId, OutcomeLinkOf(a).payload) in log && (b.keyId, OutcomeLinkOf(b).payload) in log
    ensures a == b || Twins(mac, log)
  {
    var x, y := (a.keyId, OutcomeLinkOf(a).payload), (b.keyId, OutcomeLinkOf(b).payload);
    if x != y { assert mac(x.0, x.1) == mac(y.0, y.1); }
  }

  lemma RowOf(mac: Mac, chain: seq<StoredOutcome>, i: nat)
    requires Linked(mac, OutcomeLinks(chain), 0, GENESIS) && i < |chain|
    ensures chain[i].seqNo == i && chain[i].mac == mac(chain[i].keyId, OutcomeLinkOf(chain[i]).payload)
    ensures i > 0 ==> chain[i].prev == chain[i - 1].mac
  {
    hide Linked;
    LinkedRow(mac, OutcomeLinks(chain), 0, GENESIS, i);
  }

  /** Two linked chains that agree in one place agree before it, because each record holds the code before it. */
  lemma {:induction false} AgreeBefore(mac: Mac, log: SigningLog, a: seq<StoredOutcome>, b: seq<StoredOutcome>, n: nat)
    requires Linked(mac, OutcomeLinks(a), 0, GENESIS) && Linked(mac, OutcomeLinks(b), 0, GENESIS)
    requires ChainIsSigned(a, log) && ChainIsSigned(b, log)
    requires n < |a| && n < |b| && a[n] == b[n]
    ensures a[..n + 1] == b[..n + 1] || Twins(mac, log)
  {
    hide Linked, Twins, OutcomeLinks;
    if n > 0 {
      var m := n - 1;
      RowOf(mac, a, n);
      RowOf(mac, b, n);
      RowOf(mac, a, m);
      RowOf(mac, b, m);
      SameCode(mac, log, a[m], b[m]);
      if a[m] == b[m] { AgreeBefore(mac, log, a, b, m); }
    }
    assert a[..n + 1] == a[..n] + [a[n]] && b[..n + 1] == b[..n] + [b[n]];
  }

  ghost predicate SomePrefix(s: Store, list: seq<StoredOutcome>) { exists id :: list <= OutcomesOf(s, id) }

  lemma ListIsSigned(mac: Mac, log: SigningLog, list: seq<StoredOutcome>)
    requires Unforged(mac, log, OutcomeLinks(list)) && Linked(mac, OutcomeLinks(list), 0, GENESIS)
    ensures ChainIsSigned(list, log)
  {
    hide Linked;
    forall i | 0 <= i < |list| ensures (list[i].keyId, OutcomeLinkOf(list[i]).payload) in log {
      RowOf(mac, list, i);
      assert OutcomeLinks(list)[i] == OutcomeLinkOf(list[i]);
    }
  }

  /** The chain that holds what was signed last. */
  lemma ChainOfLast(w: World, mac: Mac, list: seq<StoredOutcome>) returns (id: Id)
    requires OutcomesOk(mac, w.store) && Ledgered(w) && list != [] && ChainIsSigned(list, w.log)
    requires Linked(mac, OutcomeLinks(list), 0, GENESIS)
    ensures var chain, n := OutcomesOf(w.store, id), |list| - 1;
            && Linked(mac, OutcomeLinks(chain), 0, GENESIS) && ChainIsSigned(chain, w.log)
            && n < |chain| && chain[n] == list[n]
  {
    var last := list[|list| - 1];
    RowOf(mac, list, |list| - 1);
    hide Linked;
    id :| StoredAt(w.store, id, last.keyId, OutcomeLinkOf(last).payload);
    var chain := OutcomesOf(w.store, id);
    assert id in w.store.outcomeChain;
    RowOf(mac, chain, last.seqNo);
  }

  lemma LinkedIsPrefix(w: World, mac: Mac, list: seq<StoredOutcome>)
    requires OutcomesOk(mac, w.store) && Ledgered(w) && Unforged(mac, w.log, OutcomeLinks(list))
    requires Linked(mac, OutcomeLinks(list), 0, GENESIS)
    ensures SomePrefix(w.store, list) || Twins(mac, w.log)
  {
    hide Linked, Twins, Unforged, Ledgered, OutcomesOk, OutcomeLinks, ChainIsSigned;
    if list == [] {
      assert list <= OutcomesOf(w.store, "");
    } else {
      ListIsSigned(mac, w.log, list);
      var id := ChainOfLast(w, mac, list);
      AgreeBefore(mac, w.log, list, OutcomesOf(w.store, id), |list| - 1);
      assert list[..|list|] == list;
    }
  }

  lemma PrefixIsLinked(w: World, mac: Mac, list: seq<StoredOutcome>)
    requires OutcomesOk(mac, w.store) && SomePrefix(w.store, list)
    ensures Linked(mac, OutcomeLinks(list), 0, GENESIS)
  {
    var id :| list <= OutcomesOf(w.store, id);
    var a, b := OutcomeLinks(list), OutcomeLinks(OutcomesOf(w.store, id));
    assert Linked(mac, b, 0, GENESIS);
    assert a <= b;
    LinkedPrefix(mac, a, b, 0, GENESIS);
  }

  function RewrittenOutcomes(s: Store, id: Id, list: seq<StoredOutcome>): Store {
    s.(outcomeChain := s.outcomeChain[id := list])
  }

  /**
   * Exactly which lists pass for a segment's outcomes. Barring two signed payloads with one code,
   * editing, dropping, inserting and reordering are detected: a list verifies exactly if it is a prefix
   * of a genuine chain. It may be the chain of any segment, since no outcome names its own.
   */
  lemma OutcomesPassExactly(w: World, mac: Mac, h: Hash, signer: Signer, id: Id, list: seq<StoredOutcome>)
    requires Reachable(w, mac, h) && Unforged(mac, w.log, OutcomeLinks(list))
    requires forall i :: 0 <= i < |list| ==> signer.CanVerify(list[i].keyId)
    ensures var clean := VerifyOutcomes(RewrittenOutcomes(w.store, id, list), mac, signer, id).status == Intact;
            && (SomePrefix(w.store, list) ==> clean)
            && (clean ==> SomePrefix(w.store, list) || Twins(mac, w.log))
  {
    assert OutcomesOk(mac, w.store) by { ReachableKeeps(w, mac, h); }
    ReachableIsLedgered(w, mac, h);
    hide OutcomesOk, Ledgered, Unforged, Linked, SomePrefix, Twins, Walk;
    assert AllVerifiable(signer, OutcomeLinks(list));
    WalkIntact(mac, signer, OutcomeLinks(list), 0, GENESIS);
    if SomePrefix(w.store, list) { PrefixIsLinked(w, mac, list); }
    if Linked(mac, OutcomeLinks(list), 0, GENESIS) { LinkedIsPrefix(w, mac, list); }
  }

  // ---------------------------------------------------------------------------------------
  // Each outcome once
  // ---------------------------------------------------------------------------------------

  predicate IsOutcomeAt(s: Store, id: Id, i: int) { 0 <= i < |OutcomesOf(s, id)| }

  function KeyAt(s: Store, id: Id, i: int): (Id, Time)
    requires IsOutcomeAt(s, id, i)
  {
    (OutcomesOf(s, id)[i].record.decisionId, OutcomesOf(s, id)[i].record.completedAt)
  }

  /** No two stored outcomes, in one chain or across chains, are of the same decision and time. */
  ghost predicate ToldOnce(s: Store) {
    forall id, i, id', i' ::
      IsOutcomeAt(s, id, i) && IsOutcomeAt(s, id', i') && KeyAt(s, id, i) == KeyAt(s, id', i') ==> id == id' && i == i'
  }

  /** The idempotency keys are those of the stored outcomes. */
  ghost predicate Keyed(s: Store) {
    && (forall id, i :: IsOutcomeAt(s, id, i) ==> KeyAt(s, id, i) in s.outcomeKeys)
    && (forall d, t :: (d, t) in s.outcomeKeys ==> exists id, i :: IsOutcomeAt(s, id, i) && KeyAt(s, id, i) == (d, t))
  }

  ghost predicate SameOutcomes(s: Store, s': Store) {
    s'.outcomeKeys == s.outcomeKeys && forall id :: OutcomesOf(s', id) == OutcomesOf(s, id)
  }

  /** One outcome more, of a decision and time that had none. */
  ghost predicate AddsOutcome(s: Store, s': Store, id: Id, r: StoredOutcome) {
    && (r.record.decisionId, r.record.completedAt) !in s.outcomeKeys
    && s'.outcomeKeys == s.outcomeKeys + {(r.record.decisionId, r.record.completedAt)}
    && forall k :: OutcomesOf(s', k) == OutcomesOf(s, k) + if k == id then [r] else []
  }

  lemma OutcomeAdds(w: World, mac: Mac, receipt: Receipt, outcome: OutcomeRecord, signer: Signer)
    ensures var s, s', id := w.store, OutcomeStep(w, mac, receipt, outcome, signer).store, receipt.segmentId;
            SameOutcomes(s, s') || AddsOutcome(s, s', id, NextOutcome(s, mac, id, outcome, signer.keyId))
  {
  }

  lemma OtherSameOutcomes(w: World, mac: Mac, h: Hash, a: Action)
    requires !a.Outcome?
    ensures SameOutcomes(w.store, Step(w, mac, h, a).store)
  {
    hide NextRecord, PrepareAnchor, CoveringAnchor, Put, SegmentState, DecisionIds;
  }

  lemma SameKeepsOnce(s: Store, s': Store)
    requires ToldOnce(s) && Keyed(s) && SameOutcomes(s, s')
    ensures ToldOnce(s') && Keyed(s')
  {
    assert forall id, i :: IsOutcomeAt(s', id, i) <==> IsOutcomeAt(s, id, i);
    forall d, t | (d, t) in s'.outcomeKeys
      ensures exists id, i :: IsOutcomeAt(s', id, i) && KeyAt(s', id, i) == (d, t)
    {
      var id, i :| IsOutcomeAt(s, id, i) && KeyAt(s, id, i) == (d, t);
      assert IsOutcomeAt(s', id, i) && KeyAt(s', id, i) == (d, t);
    }
  }

  /** Where an outcome of the longer chains stood before, or that it is the new one. */
  lemma AddedAt(s: Store, s': Store, id: Id, r: StoredOutcome, k: Id, i: int)
    requires AddsOutcome(s, s', id, r) && IsOutcomeAt(s', k, i)
    ensures if IsOutcomeAt(s, k, i) then KeyAt(s', k, i) == KeyAt(s, k, i)
            else k == id && i == |OutcomesOf(s, id)| && KeyAt(s', k, i) == (r.record.decisionId, r.record.completedAt)
  {
  }

  lemma AddKeepsOnce(s: Store, s': Store, id: Id, r: StoredOutcome)
    requires ToldOnce(s) && Keyed(s) && AddsOutcome(s, s', id, r)
    ensures ToldOnce(s') && Keyed(s')
  {
    hide AddsOutcome;
    forall k, i | IsOutcomeAt(s', k, i) ensures KeyAt(s', k, i) in s'.outcomeKeys { AddedKey(s, s', id, r, k, i); }
    forall k, i, k', i' | IsOutcomeAt(s', k, i) && IsOutcomeAt(s', k', i') && KeyAt(s', k, i) == KeyAt(s', k', i')
      ensures k == k' && i == i'
    {
      AddedKey(s, s', id, r, k, i);
      AddedKey(s, s', id, r, k', i');
    }
    forall d, t | (d, t) in s'.outcomeKeys ensures exists k, i :: IsOutcomeAt(s', k, i) && KeyAt(s', k, i) == (d, t) {
      KeyIsTold(s, s', id, r, d, t);
    }
  }

  lemma AddedKey(s: Store, s': Store, id: Id, r: StoredOutcome, k: Id, i: int)
    requires Keyed(s) && AddsOutcome(s, s', id, r) && IsOutcomeAt(s', k, i)
    ensures KeyAt(s', k, i) in s'.outcomeKeys
    ensures if IsOutcomeAt(s, k, i) then KeyAt(s', k, i) == KeyAt(s, k, i) && KeyAt(s, k, i) in s.outcomeKeys
            else k == id && i == |OutcomesOf(s, id)| && KeyAt(s', k, i) !in s.outcomeKeys
  {
    AddedAt(s, s', id, r, k, i);
  }

  lemma KeyIsTold(s: Store, s': Store, id: Id, r: StoredOutcome, d: Id, t: Time)
    requires Keyed(s) && AddsOutcome(s, s', id, r) && (d, t) in s'.outcomeKeys
    ensures exists k, i :: IsOutcomeAt(s', k, i) && KeyAt(s', k, i) == (d, t)
  {
    if (d, t) in s.outcomeKeys {
      var k, i :| IsOutcomeAt(s, k, i) && KeyAt(s, k, i) == (d, t);
      assert IsOutcomeAt(s', k, i) && KeyAt(s', k, i) == (d, t);
    } else {
      var i := |OutcomesOf(s, id)|;
      assert IsOutcomeAt(s', id, i) && KeyAt(s', id, i) == (d, t);
    }
  }

  lemma StepTellsOnce(w: World, mac: Mac, h: Hash, a: Action)
    requires ToldOnce(w.store) && Keyed(w.store)
    ensures var s' := Step(w, mac, h, a).store; ToldOnce(s') && Keyed(s')
  {
    hide Step, OutcomeStep, ToldOnce, Keyed, SameOutcomes, AddsOutcome;
    var s' := Step(w, mac, h, a).store;
    if a.Outcome? {
      StepIsOutcome(w, mac, h, a);
      OutcomeAdds(w, mac, a.receipt, a.outcome, a.signer);
      var id := a.receipt.segmentId;
      if SameOutcomes(w.store, s') {
        SameKeepsOnce(w.store, s');
      } else {
        AddKeepsOnce(w.store, s', id, NextOutcome(w.store, mac, id, a.outcome, a.signer.keyId));
      }
    } else {
      OtherSameOutcomes(w, mac, h, a);
      SameKeepsOnce(w.store, s');
    }
  }

  lemma {:induction false} RunTellsOnce(trace: seq<World>, mac: Mac, h: Hash, i: nat)
    requires IsTrace(trace, mac, h) && i < |trace|
    ensures ToldOnce(trace[i].store) && Keyed(trace[i].store)
  {
    if i > 0 {
      hide Step, ToldOnce, Keyed;
      var j := i - 1;
      RunTellsOnce(trace, mac, h, j);
      assert Next(trace[j], trace[j + 1], mac, h);
      var a :| trace[i] == Step(trace[j], mac, h, a);
      StepTellsOnce(trace[j], mac, h, a);
    }
  }

  /** However often and by whomever outcomes are reported, no two stored ones are of one decision and time. */
  lemma OutcomesAreToldOnce(w: World, mac: Mac, h: Hash)
    requires Reachable(w, mac, h)
    ensures ToldOnce(w.store) && Keyed(w.store)
  {
    hide ToldOnce, Keyed, Next;
    var trace :| IsTrace(trace, mac, h) && trace[|trace| - 1] == w;
    RunTellsOnce(trace, mac, h, |trace| - 1);
  }

  /**
   * Recording an outcome that some chain holds already, under any receipt and with any signer, is a
   * no-op: nothing changes, and it succeeds as long as the decision has a receipt.
   */
  lemma RetryIsIdle(w: World, mac: Mac, h: Hash, id: Id, i: int, receipt: Receipt, outcome: OutcomeRecord,
                    signer: Signer)
    requires Reachable(w, mac, h) && IsOutcomeAt(w.store, id, i)
    requires KeyAt(w.store, id, i) == (outcome.decisionId, outcome.completedAt)
    ensures var (s', r) := AppendOutcome(w.store, mac, receipt, outcome, signer);
            && s' == w.store
            && (receipt.decisionId == outcome.decisionId && receipt.decisionId in w.store.receipts ==> r == Ok(()))
  {
    hide ToldOnce;
    OutcomesAreToldOnce(w, mac, h);
  }

  /** A recorded outcome is the last of its segment's chain, and recording it again changes nothing more. */
  lemma RecordingTwice(s: Store, mac: Mac, receipt: Receipt, outcome: OutcomeRecord, signer: Signer, again: Signer)
    requires AppendOutcome(s, mac, receipt, outcome, signer).1.Ok?
    requires (outcome.decisionId, outcome.completedAt) !in s.outcomeKeys
    ensures var s', id := AppendOutcome(s, mac, receipt, outcome, signer).0, receipt.segmentId;
            && |OutcomesOf(s', id)| == |OutcomesOf(s, id)| + 1
            && OutcomesOf(s', id)[|OutcomesOf(s, id)|].record == outcome
            && AppendOutcome(s', mac, receipt, outcome, again) == (s', Ok(()))
  {
  }
}
