/**
 * The dispatcher beside the evidence store, their steps interleaving freely.
 *
 * Here the answer to a receipt check is what the store holds at that moment, and the conclusion is
 * about records really written.
 */
module GatedEffects {
  import opened Evidence
  import opened Ledger
  import opened Merkle
  import R = Retention
  import D = Dispatching

  datatype Runtime = Runtime(evidence: R.World, dispatch: D.World)

  /** A step of the store, or a step of the dispatcher whose receipt check asks the store as it is. */
  ghost predicate Next(x: Runtime, x': Runtime, mac: Mac, h: Hash, max: int) {
    || (x'.dispatch == x.dispatch && R.Next(x.evidence, x'.evidence, mac, h))
    || (x'.evidence == x.evidence && exists step ::
          && D.Next(x.dispatch, x'.dispatch, max, true, step)
          && (step.Arrive? ==> (step.issued <==> HasReceipt(x.evidence.store, step.request.receipt))))
  }

  ghost predicate IsTrace(trace: seq<Runtime>, mac: Mac, h: Hash, max: int) {
    && |trace| > 0 && trace[0] == Runtime(R.INITIAL, D.START)
    && forall i :: 0 <= i < |trace| - 1 ==> Next(trace[i], trace[i + 1], mac, h, max)
  }

  /** Some append returned this receipt: it names a record of the history, purged or not. */
  ghost predicate Returned(hist: map<Id, seq<StoredRecord>>, r: Receipt) {
    && r.segmentId in hist && 0 <= r.seqNo < |hist[r.segmentId]| && r == ReceiptOf(hist[r.segmentId][r.seqNo])
  }

  ghost predicate AllReturned(hist: map<Id, seq<StoredRecord>>, receipts: set<Receipt>) {
    forall r :: r in receipts ==> Returned(hist, r)
  }

  ghost predicate Inv(x: Runtime, mac: Mac, h: Hash, max: int) {
    R.Inv(x.evidence, mac, h) && D.Inv(x.dispatch, max, true) && AllReturned(x.evidence.hist, x.dispatch.vouched)
  }

  /** The store vouches only for receipts it has returned. */
  lemma VouchedIsReturned(w: R.World, mac: Mac, h: Hash, r: Receipt)
    requires R.Inv(w, mac, h) && HasReceipt(w.store, r)
    ensures Returned(w.hist, r)
  {
    hide R.LogOk, R.OutcomesOk, R.AnchorsOk, R.PurgedOk, R.PurgesOk;
    R.HistoryIsNumbered(mac, w.store, w.hist, w.emptied);
    hide R.SegmentsOk;
    assert R.IsLiveAt(w.store, w.hist, r.segmentId, r.seqNo);
  }

  lemma ReturnedStays(hist: map<Id, seq<StoredRecord>>, hist': map<Id, seq<StoredRecord>>, receipts: set<Receipt>)
    requires AllReturned(hist, receipts) && forall id :: id in hist ==> id in hist' && hist[id] <= hist'[id]
    ensures AllReturned(hist', receipts)
  {
    forall r | r in receipts ensures Returned(hist', r) {
      assert Returned(hist, r) && hist[r.segmentId] <= hist'[r.segmentId];
    }
  }

  lemma HistoryGrows(w: R.World, mac: Mac, h: Hash, a: R.Action)
    ensures var w' := R.Step(w, mac, h, a); forall id :: id in w.hist ==> id in w'.hist && w.hist[id] <= w'.hist[id]
  {
    hide AppendIntent, AppendOutcome, SealAndPurge, MerkleRoot, NextRecord;
  }

  lemma EvidenceStepKeeps(x: Runtime, x': Runtime, mac: Mac, h: Hash, max: int)
    requires Inv(x, mac, h, max) && x'.dispatch == x.dispatch && R.Next(x.evidence, x'.evidence, mac, h)
    ensures Inv(x', mac, h, max)
  {
    hide R.Inv, D.Inv, R.Step, AllReturned;
    var a :| x'.evidence == R.Step(x.evidence, mac, h, a);
    R.StepKeeps(x.evidence, mac, h, a);
    HistoryGrows(x.evidence, mac, h, a);
    ReturnedStays(x.evidence.hist, x'.evidence.hist, x.dispatch.vouched);
  }

  lemma VouchedBy(d: D.World, d': D.World, max: int, step: D.Step)
    requires D.Next(d, d', max, true, step)
    ensures d'.vouched == if step.Arrive? && step.issued then d.vouched + {step.request.receipt} else d.vouched
  {
    hide D.Enter, D.Concluded;
  }

  lemma DispatchStepKeeps(x: Runtime, x': Runtime, mac: Mac, h: Hash, max: int, step: D.Step)
    requires Inv(x, mac, h, max) && x'.evidence == x.evidence && D.Next(x.dispatch, x'.dispatch, max, true, step)
    requires step.Arrive? ==> (step.issued <==> HasReceipt(x.evidence.store, step.request.receipt))
    ensures Inv(x', mac, h, max)
  {
    hide R.Inv, D.Inv, D.Next, Returned, HasReceipt;
    D.StepKeeps(x.dispatch, x'.dispatch, max, true, step);
    VouchedBy(x.dispatch, x'.dispatch, max, step);
    if step.Arrive? && step.issued { VouchedIsReturned(x.evidence, mac, h, step.request.receipt); }
  }

  lemma StartKeeps(mac: Mac, h: Hash, max: int)
    ensures Inv(Runtime(R.INITIAL, D.START), mac, h, max)
  {
    R.StartKeeps(mac, h);
    assert D.IsTrace([D.START], max, true);
    D.TraceKeeps([D.START], max, true, 0);
  }

  lemma {:induction false} TraceKeeps(trace: seq<Runtime>, mac: Mac, h: Hash, max: int, i: nat)
    requires IsTrace(trace, mac, h, max) && i < |trace|
    ensures Inv(trace[i], mac, h, max)
  {
    hide Inv, R.Next, D.Next, HasReceipt;
    if i == 0 {
      StartKeeps(mac, h, max);
    } else {
      var j := i - 1;
      TraceKeeps(trace, mac, h, max, j);
      assert Next(trace[j], trace[j + 1], mac, h, max);
      StepKeeps(trace[j], trace[i], mac, h, max);
    }
  }

  lemma StepKeeps(x: Runtime, x': Runtime, mac: Mac, h: Hash, max: int)
    requires Inv(x, mac, h, max) && Next(x, x', mac, h, max)
    ensures Inv(x', mac, h, max)
  {
    hide Inv, R.Next, D.Next, HasReceipt;
    if x'.dispatch == x.dispatch && R.Next(x.evidence, x'.evidence, mac, h) {
      EvidenceStepKeeps(x, x', mac, h, max);
    } else {
      var step :| D.Next(x.dispatch, x'.dispatch, max, true, step) &&
                  (step.Arrive? ==> (step.issued <==> HasReceipt(x.evidence.store, step.request.receipt)));
      DispatchStepKeeps(x, x', mac, h, max, step);
    }
  }

  /**
   * No effect without evidence: at every moment of every interleaving each job that was handed to
   * the pool carries a receipt that an append had returned, for a record that is in the history, and
   * no key has two jobs.
   */
  lemma NoEffectWithoutEvidence(trace: seq<Runtime>, mac: Mac, h: Hash, max: int, i: nat, n: nat)
    requires IsTrace(trace, mac, h, max) && i < |trace| && n < |trace[i].dispatch.submitted|
    ensures Returned(trace[i].evidence.hist, trace[i].dispatch.submitted[n].receipt)
    ensures D.SubmittedOnce(trace[i].dispatch.submitted)
  {
    hide R.Inv, D.OwnersOk, D.CounterOk, Returned, Next;
    TraceKeeps(trace, mac, h, max, i);
  }
}
