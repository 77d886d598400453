/**
 * Decisions, the evidence store and the dispatcher as one concurrent system.
 *
 * Every append is a decision's, and what reaches the dispatcher is a decision that was an allow
 * without blocking obligations. Between any two steps of one decision, other decisions, seals, purges
 * and dispatches may take theirs.
 */
module GovernedEffects {
  import opened Bytes
  import opened Evidence
  import opened Ledger
  import opened Merkle
  import opened Decisions
  import R = Retention
  import D = Dispatching
  import G = GatedEffects

  /** The stores, and the requests on their way from a decision to the dispatcher. */
  datatype Governance = Governance(runtime: G.Runtime, pending: set<D.Request>)

  datatype Act =
    | Decide(c: Case, ruling: Ruling, replay: bool, signer: Signer)
    | Keep(action: R.Action)
    | Move(step: D.Step)

  predicate Permitted(ruling: Ruling, replay: bool) { ruling.effect == Allow && !ruling.blocking && !replay }

  /** Writing a decision's evidence; with a receipt, a permitted decision goes on to the dispatcher. */
  function Decided(g: Governance, mac: Mac, c: Case, ruling: Ruling, replay: bool, signer: Signer): Governance {
    var w := g.runtime.evidence;
    var receipt := AppendIntent(w.store, mac, RecordOf(c, ruling), signer).1;
    Governance(g.runtime.(evidence := R.AppendStep(w, mac, RecordOf(c, ruling), signer)),
             if receipt.Ok? && Permitted(ruling, replay) then g.pending + {RequestOf(c, receipt.value)} else g.pending)
  }

  ghost predicate Next(g: Governance, g': Governance, mac: Mac, h: Hash, max: int, act: Act) {
    var x, x' := g.runtime, g'.runtime;
    match act
    case Decide(c, ruling, replay, signer) => g' == Decided(g, mac, c, ruling, replay, signer)
    case Keep(action) =>
      && !action.Append?
      && g' == g.(runtime := x.(evidence := R.Step(x.evidence, mac, h, action)))
    case Move(step) =>
      && g'.pending == g.pending && x'.evidence == x.evidence && D.Next(x.dispatch, x'.dispatch, max, true, step)
      && (step.Arrive? ==>
            step.request in g.pending && (step.issued <==> HasReceipt(x.evidence.store, step.request.receipt)))
  }

  const START := Governance(G.Runtime(R.INITIAL, D.START), {})

  ghost predicate IsRun(run: seq<Governance>, acts: seq<Act>, mac: Mac, h: Hash, max: int) {
    && |run| == |acts| + 1 && run[0] == START
    && forall i :: 0 <= i < |acts| ==> Next(run[i], run[i + 1], mac, h, max, acts[i])
  }

  // ---------------------------------------------------------------------------------------
  // What the records say
  // ---------------------------------------------------------------------------------------

  /** The receipt is that of a record in the history, and the record says allow. */
  ghost predicate SaysAllow(hist: map<Id, seq<StoredRecord>>, r: Receipt) {
    G.Returned(hist, r) && hist[r.segmentId][r.seqNo].record.effect == Allow
  }

  /** A permitted decision has an id that is not in use, or one under which an allow is on record. */
  ghost predicate Faithful(w: R.World, act: Act) {
    act.Decide? && Permitted(act.ruling, act.replay) && act.c.decisionId in w.store.receipts ==>
      SaysAllow(w.hist, w.store.receipts[act.c.decisionId])
  }

  ghost predicate AllSayAllow(g: Governance) {
    var hist, d := g.runtime.evidence.hist, g.runtime.dispatch;
    && (forall q :: q in g.pending ==> SaysAllow(hist, q.receipt))
    && (forall id :: id in d.calls ==> SaysAllow(hist, d.calls[id].request.receipt))
    && (forall n :: 0 <= n < |d.submitted| ==> SaysAllow(hist, d.submitted[n].receipt))
  }

  ghost predicate Grows(hist: map<Id, seq<StoredRecord>>, hist': map<Id, seq<StoredRecord>>) {
    forall id :: id in hist ==> id in hist' && hist[id] <= hist'[id]
  }

  lemma SaysAllowStays(hist: map<Id, seq<StoredRecord>>, hist': map<Id, seq<StoredRecord>>, r: Receipt)
    requires Grows(hist, hist') && SaysAllow(hist, r)
    ensures SaysAllow(hist', r)
  {
    assert hist[r.segmentId] <= hist'[r.segmentId];
  }

  lemma AllSayAllowStays(g: Governance, g': Governance)
    requires AllSayAllow(g) && Grows(g.runtime.evidence.hist, g'.runtime.evidence.hist)
    requires g'.runtime.dispatch == g.runtime.dispatch && g'.pending == g.pending
    ensures AllSayAllow(g')
  {
    hide SaysAllow, Grows;
    forall r | SaysAllow(g.runtime.evidence.hist, r) ensures SaysAllow(g'.runtime.evidence.hist, r) {
      SaysAllowStays(g.runtime.evidence.hist, g'.runtime.evidence.hist, r);
    }
  }

  lemma AppendGrows(w: R.World, mac: Mac, record: IntentRecord, signer: Signer)
    ensures Grows(w.hist, R.AppendStep(w, mac, record, signer).hist)
  {
    hide AppendIntent, NextRecord;
  }

  /** A new record is the last of its segment's history, at the place its receipt names. */
  lemma NewRecordSays(w: R.World, mac: Mac, h: Hash, record: IntentRecord, signer: Signer)
    requires R.Inv(w, mac, h) && record.decisionId !in w.store.receipts && signer.available
    ensures var w', receipt := R.AppendStep(w, mac, record, signer),
                               AppendIntent(w.store, mac, record, signer).1.value;
            && G.Returned(w'.hist, receipt)
            && w'.hist[receipt.segmentId][receipt.seqNo].record == record
  {
    hide R.Inv, R.SegmentsOk, R.IsRun, OpenSegment;
    assert R.SegmentAt(mac, w.store, w.hist, w.emptied, record.segmentId) by { InvAt(w, mac, h, record.segmentId); }
    R.LiveIsRun(w, mac, record.segmentId);
    hide R.SegmentAt;
    var past, stored := Get(w.hist, record.segmentId, []), NextRecord(w.store, mac, record, signer.keyId);
    assert stored.seqNo == |past|;
  }

  lemma InvAt(w: R.World, mac: Mac, h: Hash, id: Id)
    requires R.Inv(w, mac, h)
    ensures R.SegmentAt(mac, w.store, w.hist, w.emptied, id)
  {
  }

  /**
   * The receipt a permitted decision goes on with is that of an allow record exactly if its id was not
   * in use, or was in use for an allow.
   */
  lemma ReceiptSaysAllowExactly(w: R.World, mac: Mac, h: Hash, c: Case, ruling: Ruling, signer: Signer)
    requires R.Inv(w, mac, h) && ruling.effect == Allow
    requires AppendIntent(w.store, mac, RecordOf(c, ruling), signer).1.Ok?
    ensures var w', receipt := R.AppendStep(w, mac, RecordOf(c, ruling), signer),
                               AppendIntent(w.store, mac, RecordOf(c, ruling), signer).1.value;
            SaysAllow(w'.hist, receipt) <==>
            c.decisionId !in w.store.receipts || SaysAllow(w.hist, w.store.receipts[c.decisionId])
  {
    hide R.Inv, NextRecord, OpenSegment, ReceiptOf;
    if c.decisionId !in w.store.receipts { NewRecordSays(w, mac, h, RecordOf(c, ruling), signer); }
  }

  // ---------------------------------------------------------------------------------------
  // What every step keeps
  // ---------------------------------------------------------------------------------------

  ghost predicate Inv(g: Governance, mac: Mac, h: Hash, max: int) { G.Inv(g.runtime, mac, h, max) && AllSayAllow(g) }

  /** Every act is a step of the evidence store or of the dispatcher beside it. */
  lemma ActIsStep(g: Governance, g': Governance, mac: Mac, h: Hash, max: int, act: Act)
    requires Next(g, g', mac, h, max, act)
    ensures G.Next(g.runtime, g'.runtime, mac, h, max)
  {
    hide R.AppendStep, D.Next, HasReceipt, AppendIntent;
    match act
    case Decide(c, ruling, _, signer) =>
      assert g'.runtime.evidence == R.Step(g.runtime.evidence, mac, h, R.Append(RecordOf(c, ruling), signer));
    case Keep(action) => assert g'.runtime.evidence == R.Step(g.runtime.evidence, mac, h, action);
    case Move(step) =>
  }

  lemma DecideKeeps(g: Governance, mac: Mac, h: Hash, max: int, c: Case, ruling: Ruling, replay: bool, signer: Signer)
    requires Inv(g, mac, h, max) && Faithful(g.runtime.evidence, Decide(c, ruling, replay, signer))
    ensures AllSayAllow(Decided(g, mac, c, ruling, replay, signer))
  {
    hide R.Inv, D.Inv, R.AppendStep, AppendIntent, SaysAllow, G.AllReturned;
    var w, g' := g.runtime.evidence, Decided(g, mac, c, ruling, replay, signer);
    AppendGrows(w, mac, RecordOf(c, ruling), signer);
    AllSayAllowStays(g, g'.(pending := g.pending));
    if AppendIntent(w.store, mac, RecordOf(c, ruling), signer).1.Ok? && Permitted(ruling, replay) {
      ReceiptSaysAllowExactly(w, mac, h, c, ruling, signer);
    }
  }

  /** Requests reach the dispatcher from the pending ones, and receipts reach the pool from its calls. */
  lemma Spreads(d: D.World, d': D.World, max: int, step: D.Step)
    requires D.Next(d, d', max, true, step)
    ensures forall id :: id in d'.calls ==>
              (id in d.calls && d'.calls[id].request == d.calls[id].request)
              || (step.Arrive? && d'.calls[id].request == step.request)
    ensures d'.submitted == d.submitted
            || exists id ::
              && id in d.calls && var q := d.calls[id].request;
              d'.submitted == d.submitted + [D.Submission(q.key, q.receipt)]
  {
    hide D.Enter, D.Concluded;
    if step.Submit? {
      var q := d.calls[step.id].request;
      assert d'.submitted == d.submitted + [D.Submission(q.key, q.receipt)];
    }
  }

  lemma MoveKeeps(g: Governance, g': Governance, mac: Mac, h: Hash, max: int, step: D.Step)
    requires AllSayAllow(g) && Next(g, g', mac, h, max, Move(step))
    ensures AllSayAllow(g')
  {
    hide SaysAllow, D.Next, HasReceipt;
    Spreads(g.runtime.dispatch, g'.runtime.dispatch, max, step);
  }

  lemma StepKeeps(g: Governance, g': Governance, mac: Mac, h: Hash, max: int, act: Act)
    requires Inv(g, mac, h, max) && Next(g, g', mac, h, max, act) && Faithful(g.runtime.evidence, act)
    ensures Inv(g', mac, h, max)
  {
    ActIsStep(g, g', mac, h, max, act);
    hide G.Inv, G.Next, AllSayAllow, Faithful, R.Step, D.Next, HasReceipt, Decided;
    G.StepKeeps(g.runtime, g'.runtime, mac, h, max);
    match act
    case Decide(c, ruling, replay, signer) => DecideKeeps(g, mac, h, max, c, ruling, replay, signer);
    case Keep(action) =>
      G.HistoryGrows(g.runtime.evidence, mac, h, action);
      AllSayAllowStays(g, g');
    case Move(step) => MoveKeeps(g, g', mac, h, max, step);
  }

  lemma StartKeeps(mac: Mac, h: Hash, max: int)
    ensures Inv(START, mac, h, max)
  {
    G.StartKeeps(mac, h, max);
  }

  lemma {:induction false} RunKeeps(run: seq<Governance>, acts: seq<Act>, mac: Mac, h: Hash, max: int, i: nat)
    requires IsRun(run, acts, mac, h, max) && i < |run|
    requires forall k :: 0 <= k < i ==> Faithful(run[k].runtime.evidence, acts[k])
    ensures Inv(run[i], mac, h, max)
  {
    hide Inv, Next, Faithful;
    if i == 0 {
      StartKeeps(mac, h, max);
    } else {
      var j := i - 1;
      RunKeeps(run, acts, mac, h, max, j);
      assert Next(run[j], run[j + 1], mac, h, max, acts[j]);
      StepKeeps(run[j], run[i], mac, h, max, acts[j]);
    }
  }

  /**
   * Only what is on record as allowed is done: in every interleaving of decisions, seals, purges and
   * dispatches in which no permitted decision reuses the id of a refused one, each job handed to the
   * pool carries the receipt of a record that says allow.
   */
  lemma OnlyAllowedEffects(run: seq<Governance>, acts: seq<Act>, mac: Mac, h: Hash, max: int, i: nat, n: nat)
    requires IsRun(run, acts, mac, h, max) && i < |run| && n < |run[i].runtime.dispatch.submitted|
    requires forall k :: 0 <= k < i ==> Faithful(run[k].runtime.evidence, acts[k])
    ensures SaysAllow(run[i].runtime.evidence.hist, run[i].runtime.dispatch.submitted[n].receipt)
  {
    hide G.Inv, SaysAllow, Next, Faithful;
    RunKeeps(run, acts, mac, h, max, i);
  }

  // ---------------------------------------------------------------------------------------
  // An effect whose record says deny
  // ---------------------------------------------------------------------------------------

  lemma DenyThenAllow(mac: Mac, c: Case, deny: Ruling, allow: Ruling, signer: Signer)
    requires signer.available && deny.effect == Deny && Permitted(allow, false)
    ensures var receipt := ReceiptOf(NextRecord(EMPTY, mac, RecordOf(c, deny), signer.keyId));
            var g := Decided(START, mac, c, deny, false, signer);
            && g.pending == {} && g.runtime.dispatch == D.START
            && Decided(g, mac, c, allow, false, signer) == g.(pending := {RequestOf(c, receipt)})
            && HasReceipt(g.runtime.evidence.store, receipt) && G.Returned(g.runtime.evidence.hist, receipt)
            && g.runtime.evidence.hist[receipt.segmentId][receipt.seqNo].record.effect == Deny
  {
  }

  /** The steps that bring one request to the pool. */
  lemma RequestRuns(max: int, q: D.Request) returns (d1: D.World, d2: D.World, d3: D.World, d4: D.World)
    requires max >= 1
    ensures D.Next(D.START, d1, max, true, D.Register(q.action))
    ensures D.Next(d1, d2, max, true, D.Arrive(0, q, true))
    ensures D.Next(d2, d3, max, true, D.Reserve(0))
    ensures D.Next(d3, d4, max, true, D.Submit(0)) && d4.submitted == [D.Submission(q.key, q.receipt)]
  {
    d1, d2, d3 := D.FirstReserve(max, true, q);
    d4 := D.SetPhase(d3, 0, D.Running).(submitted := d3.submitted + [D.Submission(q.key, q.receipt)]);
  }

  /** A decision is refused, and then permitted under the same id: its effect runs, and the record says deny. */
  lemma DeniedRecordRuns(mac: Mac, h: Hash, max: int, c: Case, deny: Ruling, allow: Ruling,
                         signer: Signer) returns (run: seq<Governance>, acts: seq<Act>)
    requires max >= 1 && signer.available && deny.effect == Deny && Permitted(allow, false)
    ensures IsRun(run, acts, mac, h, max)
    ensures var x := run[|run| - 1].runtime;
            && |x.dispatch.submitted| == 1 && var receipt := x.dispatch.submitted[0].receipt;
            && G.Returned(x.evidence.hist, receipt)
            && x.evidence.hist[receipt.segmentId][receipt.seqNo].record.effect == Deny
  {
    var receipt := ReceiptOf(NextRecord(EMPTY, mac, RecordOf(c, deny), signer.keyId));
    var q := RequestOf(c, receipt);
    var g1 := Decided(START, mac, c, deny, false, signer);
    var g2 := Decided(g1, mac, c, allow, false, signer);
    DenyThenAllow(mac, c, deny, allow, signer);
    var d1, d2, d3, d4 := RequestRuns(max, q);
    hide Decided, D.Next, HasReceipt, G.Returned;
    var w := g2.runtime.evidence;
    var g3, g4 := Governance(G.Runtime(w, d1), g2.pending), Governance(G.Runtime(w, d2), g2.pending);
    var g5, g6 := Governance(G.Runtime(w, d3), g2.pending), Governance(G.Runtime(w, d4), g2.pending);
    run := [START, g1, g2, g3, g4, g5, g6];
    acts := [Decide(c, deny, false, signer), Decide(c, allow, false, signer), Move(D.Register(q.action)),
             Move(D.Arrive(0, q, true)), Move(D.Reserve(0)), Move(D.Submit(0))];
  }
}
