/** What the decision pipeline promises, for every answer its dependencies may give. */
module DecisionRuns {
  import opened Bytes
  import opened Text
  import opened Evidence
  import opened Ledger
  import opened Decisions
  import L = Limits
  import W = Windows
  import LR = LimitRuns
  import D = Dispatching
  import DR = DispatchRuns
  import R = Retention
  import Audit
  import M = Merkle

  // ---------------------------------------------------------------------------------------
  // The first denying gate wins
  // ---------------------------------------------------------------------------------------

  function RiskGate(a: Answers): Option<Ruling> {
    if a.risk.EngineDown? then Some(Denial(DependencyUnavailable)) else None
  }

  function ThresholdGate(a: Answers): Option<Ruling> {
    if a.risk.Scored? && a.enforceThreshold && a.risk.exceeds then Some(Denial(RiskThresholdExceeded)) else None
  }

  function PolicyGate(a: Answers): Option<Ruling> {
    if CheckPolicy(a).1.effect == Deny then Some(CheckPolicy(a).1) else None
  }

  function LimitGate(counters: L.Counters, env: Env, c: Case, a: Answers): Option<Ruling>
    requires counters.Valid() && env.cfg.Valid()
  {
    CheckLimits(counters, env, c, a).1.1
  }

  /** What each gate would say if it alone were asked, in the fixed order. */
  function EarlyGates(a: Answers): seq<Option<Ruling>> {
    [CheckRegistry(a).1, CheckCatalogue(a).1, CheckIdentity(a).1, CheckKillSwitch(a).1, CheckMandate(a).1,
     PolicyGate(a), RiskGate(a), ThresholdGate(a)]
  }

  function Gates(counters: L.Counters, env: Env, c: Case, a: Answers): seq<Option<Ruling>>
    requires counters.Valid() && env.cfg.Valid()
  {
    EarlyGates(a) + [LimitGate(counters, env, c, a), CheckBaseline(a).1]
  }

  /** Budget is taken exactly if no gate down to the limits denies and the limit store answers. */
  predicate Charges(counters: L.Counters, env: Env, c: Case, a: Answers)
    requires counters.Valid() && env.cfg.Valid()
  {
    FirstOf(EarlyGates(a) + [LimitGate(counters, env, c, a)]).None? && a.limitsUp
  }

  function FirstOf(gates: seq<Option<Ruling>>): Option<Ruling> {
    if gates == [] then None else if gates[0].Some? then gates[0] else FirstOf(gates[1..])
  }

  lemma {:induction false} FirstOfIs(gates: seq<Option<Ruling>>)
    ensures var r := FirstOf(gates);
            && (r.None? <==> forall i :: 0 <= i < |gates| ==> gates[i].None?)
            && (r.Some? ==> exists i :: 0 <= i < |gates| && gates[i] == r && forall j :: 0 <= j < i ==> gates[j].None?)
  {
    if gates != [] && gates[0].None? {
      FirstOfIs(gates[1..]);
      assert gates == [gates[0]] + gates[1..];
      if FirstOf(gates).Some? {
        var k :| 0 <= k < |gates[1..]| && gates[1..][k] == FirstOf(gates[1..]) && forall j :: 0 <= j < k ==>
              gates[1..][j].None?;
        assert gates[k + 1] == FirstOf(gates);
        assert forall j :: 0 < j < k + 1 ==> gates[j] == gates[1..][j - 1];
      }
    }
  }

  lemma {:induction false} FirstOfSum(xs: seq<Option<Ruling>>, ys: seq<Option<Ruling>>)
    ensures FirstOf(xs + ys) == if FirstOf(xs).Some? then FirstOf(xs) else FirstOf(ys)
  {
    if xs == [] {
      assert xs + ys == ys;
    } else {
      assert (xs + ys)[1..] == xs[1..] + ys;
      FirstOfSum(xs[1..], ys);
    }
  }

  lemma FirstOfCons(g: Option<Ruling>, ys: seq<Option<Ruling>>)
    ensures FirstOf([g] + ys) == if g.Some? then g else FirstOf(ys)
  {
    assert ([g] + ys)[1..] == ys;
  }

  lemma FirstOfThree(x: Option<Ruling>, y: Option<Ruling>, z: Option<Ruling>)
    ensures FirstOf([x, y, z]) == if x.Some? then x else if y.Some? then y else z
  {
    FirstOfCons(z, []);
    FirstOfCons(y, [z]);
    FirstOfCons(x, [y, z]);
    assert [z] + [] == [z] && [y] + [z] == [y, z] && [x] + [y, z] == [x, y, z];
  }

  lemma FirstOfFive(p: Option<Ruling>, q: Option<Ruling>, x: Option<Ruling>, y: Option<Ruling>, z: Option<Ruling>)
    ensures FirstOf([p, q, x, y, z]) == if p.Some? then p else if q.Some? then q else if x.Some? then x else if y.Some?
            then y else z
  {
    hide FirstOf;
    FirstOfThree(x, y, z);
    FirstOfCons(q, [x, y, z]);
    FirstOfCons(p, [q, x, y, z]);
    assert [q] + [x, y, z] == [q, x, y, z] && [p] + [q, x, y, z] == [p, q, x, y, z];
  }

  function ScreenGates(a: Answers): seq<Option<Ruling>> {
    [CheckRegistry(a).1, CheckCatalogue(a).1, CheckIdentity(a).1, CheckKillSwitch(a).1, CheckMandate(a).1]
  }

  lemma ScreenIsFirst(a: Answers)
    ensures Screen(a).0 == FirstOf(ScreenGates(a))
  {
    hide CheckRegistry, CheckCatalogue, CheckIdentity, CheckKillSwitch, CheckMandate;
    FirstOfFive(CheckRegistry(a).1, CheckCatalogue(a).1, CheckIdentity(a).1, CheckKillSwitch(a).1, CheckMandate(a).1);
  }

  lemma ScreenDenies(a: Answers)
    ensures Screen(a).0.Some? ==> Screen(a).0.value.effect == Deny
  {
  }

  lemma WeighIsFirst(a: Answers)
    ensures var first := FirstOf(EarlyGates(a)); var ruling := Weigh(a, Screen(a)).0;
            && ruling == (if first.Some? then first.value else CheckPolicy(a).1)
            && (ruling.effect == Deny <==> first.Some?)
  {
    hide Screen, CheckPolicy;
    ScreenIsFirst(a);
    ScreenDenies(a);
    var rest := [PolicyGate(a), RiskGate(a), ThresholdGate(a)];
    assert EarlyGates(a) == ScreenGates(a) + rest;
    FirstOfSum(ScreenGates(a), rest);
    FirstOfThree(PolicyGate(a), RiskGate(a), ThresholdGate(a));
  }

  /**
   * The ruling is that of the first gate that denies, each gate judged by itself in the fixed order,
   * and policy's own ruling if none does; it denies exactly if some gate does, so that no denial is
   * ever undone. The stages fail to rule only in the two cases named here.
   */
  lemma FirstDenialWins(counters: L.Counters, env: Env, c: Case, a: Answers)
    requires counters.Valid() && env.cfg.Valid()
    ensures var j, first := Judge(counters, env, c, a), FirstOf(Gates(counters, env, c, a));
            && (j.ruling.Ok? ==> j.ruling.value == if first.Some? then first.value else CheckPolicy(a).1)
            && (j.ruling.Ok? ==> (j.ruling.value.effect == Deny <==> first.Some?))
            && (j.ruling == Err(ObserveFailed) <==> first.None? && a.baseline.ObserveDown?)
            && (j.ruling == Err(ReleaseFailed) <==>
                Charges(counters, env, c, a) && CheckBaseline(a).1.Some? && !a.releaseUp)
            && (j.holds <==> Charges(counters, env, c, a))
  {
    hide Weigh, Screen, EarlyGates, CheckLimits, GiveBack, CheckPolicy;
    WeighIsFirst(a);
    var limit, base := LimitGate(counters, env, c, a), CheckBaseline(a).1;
    FirstOfSum(EarlyGates(a), [limit, base]);
    FirstOfSum(EarlyGates(a), [limit]);
    FirstOfCons(limit, [base]);
    FirstOfCons(base, []);
    FirstOfCons(limit, []);
    assert [limit] + [base] == [limit, base] && [base] + [] == [base] && [limit] + [] == [limit];
    LimitDenies(counters, env, c, a);
  }

  lemma LimitDenies(counters: L.Counters, env: Env, c: Case, a: Answers)
    requires counters.Valid() && env.cfg.Valid()
    ensures LimitGate(counters, env, c, a).Some? ==> LimitGate(counters, env, c, a).value.effect == Deny
    ensures CheckLimits(counters, env, c, a).2 <==> LimitGate(counters, env, c, a).None? && a.limitsUp
  {
    hide L.TryConsume;
  }

  // ---------------------------------------------------------------------------------------
  // Nine stages, in order
  // ---------------------------------------------------------------------------------------

  function Names(stages: seq<StageRecord>): seq<StageName> {
    seq(|stages|, i requires 0 <= i < |stages| => stages[i].name)
  }

  lemma NineStages(counters: L.Counters, env: Env, c: Case, a: Answers)
    requires counters.Valid() && env.cfg.Valid()
    ensures Names(Judge(counters, env, c, a).stages) == NINE
  {
    hide CheckLimits, CheckRegistry, CheckCatalogue, CheckIdentity, CheckKillSwitch;
    hide CheckMandate, CheckPolicy, CheckBaseline, GiveBack;
    assert Names(Screen(a).1) == [ToolRegistry, Catalogue, Identity, KillSwitch, Mandate];
    assert Names(Weigh(a, Screen(a)).1) == [ToolRegistry, Catalogue, Identity, KillSwitch, Mandate, PolicyRules, Risk];
  }

  // ---------------------------------------------------------------------------------------
  // Failing closed
  // ---------------------------------------------------------------------------------------

  /** The dependencies that never degrade. */
  predicate CoreUp(a: Answers) {
    && !a.registry.ToolRegistryDown? && !a.catalogue.CatalogueDown? && !a.catalogue.AttestationDown?
    && !a.policy.BundleDown? && !a.risk.EngineDown?
  }

  /** Every dependency that a decision which passes all stages has asked. */
  predicate AllUp(a: Answers) {
    && CoreUp(a) && !a.globalSwitch.SwitchDown? && !a.tenantSwitch.SwitchDown?
    && !a.mandate.MandateDown? && !a.revocation.RevocationDown? && a.limitsUp
    && !a.baseline.BaselineDown? && !a.baseline.ObserveDown?
  }

  /** A decision that is not a denial asked only dependencies that answered, unless the action is advisory. */
  lemma FailsClosed(counters: L.Counters, env: Env, c: Case, a: Answers)
    requires counters.Valid() && env.cfg.Valid()
    requires Judge(counters, env, c, a).ruling.Ok? && Judge(counters, env, c, a).ruling.value.effect != Deny
    ensures CoreUp(a) && (!a.advisory ==> AllUp(a))
  {
    hide L.TryConsume, GiveBack, Weigh, Screen, FirstOf, Judge;
    FirstDenialWins(counters, env, c, a);
    NoGateDenies(counters, env, c, a);
  }

  lemma NoGateDenies(counters: L.Counters, env: Env, c: Case, a: Answers)
    requires counters.Valid() && env.cfg.Valid() && FirstOf(Gates(counters, env, c, a)).None?
    ensures CoreUp(a) && (!a.advisory ==> AllUp(a) || a.baseline.ObserveDown?)
  {
    hide L.TryConsume, CheckLimits;
    var gates := Gates(counters, env, c, a);
    FirstOfIs(gates);
    assert gates[0].None? && gates[1].None? && gates[3].None? && gates[4].None? && gates[5].None?;
    assert gates[6].None? && gates[8].None? && gates[9].None?;
    LimitUp(counters, env, c, a);
  }

  lemma LimitUp(counters: L.Counters, env: Env, c: Case, a: Answers)
    requires counters.Valid() && env.cfg.Valid() && LimitGate(counters, env, c, a).None?
    ensures !a.advisory ==> a.limitsUp
  {
    hide L.TryConsume;
  }

  // ---------------------------------------------------------------------------------------
  // Dispatch
  // ---------------------------------------------------------------------------------------

  /** Appending evidence succeeds for a known decision, or with a signer that answers. */
  predicate Durable(store: Store, decisionId: Id, signer: Signer) { decisionId in store.receipts || signer.available }

  lemma AppendExactly(store: Store, env: Env, c: Case, ruling: Ruling, signer: Signer)
    ensures AppendIntent(store, env.mac, RecordOf(c, ruling), signer).1.Ok? <==> Durable(store, c.decisionId, signer)
  {
  }

  /**
   * The dispatcher is called exactly if the decision is an allow without blocking obligations, it is
   * not a replay, and its evidence is durable; nobody else touches the dispatcher.
   */
  lemma DispatchExactly(sys: System, env: Env, c: Case, a: Answers, replay: bool, signer: Signer, signerAfter: Signer)
    requires sys.counters.Valid() && env.cfg.Valid()
    ensures var e, ruling :=
              Evaluate(sys, env, c, a, replay, signer, signerAfter), Judge(sys.counters, env, c, a).ruling;
            && (e.dispatched <==>
                && ruling.Ok? && ruling.value.effect == Allow && !ruling.value.blocking && !replay
                && Durable(sys.store, c.decisionId, signer))
            && (!e.dispatched ==> e.system.desk == sys.desk)
  {
    hide Judge, AppendIntent, AppendOutcome, GiveBack, D.DispatchAlone;
    var ruling := Judge(sys.counters, env, c, a).ruling;
    if ruling.Ok? { AppendExactly(sys.store, env, c, ruling.value, signer); }
  }

  /** The receipts index is keyed by the decision each receipt names. */
  ghost predicate Indexed(store: Store) { forall d :: d in store.receipts ==> store.receipts[d].decisionId == d }

  /** Every store that appends, seals and purges lead to is indexed. */
  lemma ReachableIsIndexed(w: R.World, mac: Mac, h: M.Hash)
    requires Audit.Reachable(w, mac, h)
    ensures Indexed(w.store)
  {
    hide R.SegmentsOk, R.LogOk, R.OutcomesOk, R.AnchorsOk, R.PurgedOk, R.PurgesOk;
    Audit.ReachableKeeps(w, mac, h);
    forall d | d in w.store.receipts ensures w.store.receipts[d].decisionId == d {
      assert R.IsLiveAt(w.store, w.hist, w.store.receipts[d].segmentId, w.store.receipts[d].seqNo);
    }
  }

  /** What the store holds for a decision before its effect may run: a receipt it will vouch for. */
  lemma AppendedIsVouchedFor(store: Store, env: Env, c: Case, ruling: Ruling, signer: Signer)
    requires Indexed(store) && Durable(store, c.decisionId, signer)
    ensures var (store', r) := AppendIntent(store, env.mac, RecordOf(c, ruling), signer);
            r.Ok? && HasReceipt(store', r.value)
  {
  }

  /**
   * Evidence precedes effect: whatever reaches the dispatcher carries a receipt that the evidence
   * store holds already, so the dispatcher never refuses it for its receipt, and still holds afterwards.
   */
  lemma EvidenceComesFirst(sys: System, env: Env, c: Case, a: Answers, replay: bool, signer: Signer,
                           signerAfter: Signer) returns (receipt: Receipt)
    requires sys.counters.Valid() && env.cfg.Valid() && Indexed(sys.store)
    requires Evaluate(sys, env, c, a, replay, signer, signerAfter).dispatched
    ensures var e, ruling :=
              Evaluate(sys, env, c, a, replay, signer, signerAfter), Judge(sys.counters, env, c, a).ruling;
            && ruling.Ok? && AppendIntent(sys.store, env.mac, RecordOf(c, ruling.value), signer).1 == Ok(receipt)
            && HasReceipt(AppendIntent(sys.store, env.mac, RecordOf(c, ruling.value), signer).0, receipt)
            && HasReceipt(e.system.store, receipt)
            && e.system.desk ==
              D.DispatchAlone(sys.desk, env.maxInFlight, env.checked, RequestOf(c, receipt), true, c.ran).0
  {
    hide Judge, AppendIntent, GiveBack, D.DispatchAlone;
    DispatchExactly(sys, env, c, a, replay, signer, signerAfter);
    var ruling := Judge(sys.counters, env, c, a).ruling.value;
    AppendedIsVouchedFor(sys.store, env, c, ruling, signer);
    receipt := AppendIntent(sys.store, env.mac, RecordOf(c, ruling), signer).1.value;
  }

  /**
   * A decision leaves its own intent record exactly if its id is new. Under a reused id the dispatcher
   * is still called, but with the receipt of the older decision and without an intent record of this
   * one; what this execution came to is then added to the older record's outcomes.
   */
  lemma OwnRecordExactly(sys: System, env: Env, c: Case, a: Answers, replay: bool, signer: Signer, signerAfter: Signer)
    requires sys.counters.Valid() && env.cfg.Valid()
    requires Judge(sys.counters, env, c, a).ruling.Ok? && Durable(sys.store, c.decisionId, signer)
    ensures var e, ruling :=
              Evaluate(sys, env, c, a, replay, signer, signerAfter), Judge(sys.counters, env, c, a).ruling.value;
            var own := NextRecord(sys.store, env.mac, RecordOf(c, ruling), signer.keyId);
            && Live(e.system.store, c.segmentId) ==
              Live(sys.store, c.segmentId) + (if c.decisionId in sys.store.receipts then [] else [own])
            && (e.ended.Decided? ==>
                e.ended.receipt == if c.decisionId in sys.store.receipts then sys.store.receipts[c.decisionId]
                else ReceiptOf(own))
            && own.record == IntentRecord(c.decisionId, c.segmentId, c.tenantId, c.now, ruling.effect, c.body)
            && (Indexed(sys.store) ==>
                OutcomeTold(sys.store, e.system.store, env, c, e.ended, signerAfter.keyId,
                            if c.decisionId in sys.store.receipts then sys.store.receipts[c.decisionId].segmentId
                            else c.segmentId))
  {
    hide Judge, GiveBack, DispatchIfPermitted, CompletedAt, NextRecord, AppendOutcome, ReceiptOf, OutcomeTold, Indexed;
    var ruling := Judge(sys.counters, env, c, a).ruling.value;
    var (store1, appended) := AppendIntent(sys.store, env.mac, RecordOf(c, ruling), signer);
    var execution := DispatchIfPermitted(sys.desk, store1, env, c, ruling, appended.value, replay).1;
    var outcome := OutcomeRecord(c.decisionId, CompletedAt(execution, c.now), env.encode(execution));
    OutcomeSparesIntents(store1, env.mac, appended.value, outcome, signerAfter);
    RecordsDecision(sys.store, env, c, ruling, signer.keyId);
    if Indexed(sys.store) {
      AppendFiles(sys.store, env, c, ruling, signer);
      TellsOutcome(sys.store, store1, env, c, ruling, appended.value, execution, signerAfter);
    }
  }

  /**
   * What an evaluation adds to a segment's outcome chain: one record of how it ended, in the segment
   * of its receipt, unless the decision has one for the same instant; nothing if it was not signed.
   */
  function Told(store: Store, env: Env, c: Case, ended: Ended, keyId: Id, segmentId: Id, id: Id): seq<StoredOutcome> {
    if !ended.Decided? || id != segmentId then []
    else
      var o := OutcomeRecord(c.decisionId, CompletedAt(ended.execution, c.now), env.encode(ended.execution));
      if (o.decisionId, o.completedAt) in store.outcomeKeys then [] else [NextOutcome(store, env.mac, id, o, keyId)]
  }

  ghost predicate OutcomeTold(store: Store, store': Store, env: Env, c: Case, ended: Ended, keyId: Id, segmentId: Id) {
    forall id :: OutcomesOf(store', id) == OutcomesOf(store, id) + Told(store, env, c, ended, keyId, segmentId, id)
  }

  /** Appending an intent files a receipt under its decision and leaves the outcomes alone. */
  lemma AppendFiles(store: Store, env: Env, c: Case, ruling: Ruling, signer: Signer)
    requires Indexed(store) && Durable(store, c.decisionId, signer)
    ensures var (store', r) := AppendIntent(store, env.mac, RecordOf(c, ruling), signer);
            && r.Ok? && r.value.decisionId == c.decisionId && c.decisionId in store'.receipts
            && r.value.segmentId ==
                 (if c.decisionId in store.receipts then store.receipts[c.decisionId].segmentId else c.segmentId)
            && store'.outcomeChain == store.outcomeChain && store'.outcomeKeys == store.outcomeKeys
  {
  }

  lemma TellsOutcome(before: Store, store: Store, env: Env, c: Case, ruling: Ruling, receipt: Receipt, e: Execution,
                     signer: Signer)
    requires store.outcomeChain == before.outcomeChain && store.outcomeKeys == before.outcomeKeys
    requires receipt.decisionId == c.decisionId && c.decisionId in store.receipts
    ensures var o := OutcomeRecord(c.decisionId, CompletedAt(e, c.now), env.encode(e));
            var (store', recorded) := AppendOutcome(store, env.mac, receipt, o, signer);
            var ended := if recorded.Err? && !IsWriteError(recorded.error) then OutcomeNotSigned(recorded.error)
                         else Decided(ruling, receipt, e);
            OutcomeTold(before, store', env, c, ended, signer.keyId, receipt.segmentId)
  {
    hide CompletedAt;
  }

  lemma OutcomeSparesIntents(store: Store, mac: Mac, receipt: Receipt, o: OutcomeRecord, signer: Signer)
    ensures AppendOutcome(store, mac, receipt, o, signer).0.segments == store.segments
  {
  }

  lemma RecordsDecision(store: Store, env: Env, c: Case, ruling: Ruling, keyId: Id)
    ensures NextRecord(store, env.mac, RecordOf(c, ruling), keyId).record ==
            IntentRecord(c.decisionId, c.segmentId, c.tenantId, c.now, ruling.effect, c.body)
  {
  }

  // ---------------------------------------------------------------------------------------
  // What becomes of a decision
  // ---------------------------------------------------------------------------------------

  /** A dispatch under a receipt that is vouched for, told by the desk, the action and the job alone. */
  ghost predicate Dispatches(d: D.Desk, d': D.Desk, max: int, c: Case, receipt: Receipt, x: Execution) {
    if c.idempotencyKey in d.outcomes then x == Dispatched(d.outcomes[c.idempotencyKey]) && d' == d
    else if c.action !in d.handlers || d.inFlight >= max then x == DispatchRefused && d' == d
    else
      && x.Dispatched? && d' == d.(outcomes := d.outcomes[c.idempotencyKey := x.outcome])
      && D.Tells(D.Request(c.action, c.idempotencyKey, receipt, c.timeout, c.now), c.ran, x.outcome)
  }

  /** The time an execution is recorded with: the decision's own, unless a job has its own. */
  ghost predicate CompletesAt(x: Execution, now: Time, t: Time) {
    match x
    case Dispatched(o) => t == if o == D.Pending then 0.0 else o.completedAt
    case _ => t == now
  }

  /**
   * How every decision on record ends: what the caller is told, which key and action are dispatched,
   * what that leaves on the desk, and the time its outcome is recorded with.
   */
  lemma ExecutionExactly(sys: System, env: Env, c: Case, a: Answers, replay: bool, signer: Signer, signerAfter: Signer)
    requires sys.counters.Valid() && env.cfg.Valid() && Indexed(sys.store)
    requires Evaluate(sys, env, c, a, replay, signer, signerAfter).ended.Decided?
    ensures var e := Evaluate(sys, env, c, a, replay, signer, signerAfter);
            var ruling, x, receipt := e.ended.ruling, e.ended.execution, e.ended.receipt;
            var permitted := ruling.effect == Allow && !ruling.blocking && !replay;
            && Judge(sys.counters, env, c, a).ruling == Ok(ruling)
            && (x == Denied <==> ruling.effect == Deny)
            && (x == AwaitingApproval <==>
                ruling.effect == RequireApproval || (ruling.effect == Allow && ruling.blocking))
            && (x == Replayed <==> ruling.effect == Allow && !ruling.blocking && replay)
            && (permitted ==> Dispatches(sys.desk, e.system.desk, env.maxInFlight, c, receipt, x))
            && (!permitted ==> e.system.desk == sys.desk)
            && CompletesAt(x, c.now, CompletedAt(x, c.now))
  {
    hide Judge, AppendIntent, AppendOutcome, GiveBack, D.DispatchAlone, D.Tells;
    var ruling := Judge(sys.counters, env, c, a).ruling.value;
    AppendExactly(sys.store, env, c, ruling, signer);
    AppendedIsVouchedFor(sys.store, env, c, ruling, signer);
    var receipt := AppendIntent(sys.store, env.mac, RecordOf(c, ruling), signer).1.value;
    DR.DispatchTells(sys.desk, env.maxInFlight, env.checked, RequestOf(c, receipt), true, c.ran);
  }

  /**
   * How an evaluation ends. It is interrupted exactly if the stages do not rule, reports missing
   * evidence exactly if the intent could not be signed, and with a signer that answers afterwards it
   * is decided in every other case.
   */
  lemma EndsExactly(sys: System, env: Env, c: Case, a: Answers, replay: bool, signer: Signer, signerAfter: Signer)
    requires sys.counters.Valid() && env.cfg.Valid() && Indexed(sys.store)
    ensures var ended, ruling := Evaluate(sys, env, c, a, replay, signer, signerAfter).ended,
                                 Judge(sys.counters, env, c, a).ruling;
            var durable := Durable(sys.store, c.decisionId, signer);
            && (forall why :: ended == Interrupted(why) <==> ruling == Err(why))
            && (ended == NotDurable(SigningUnavailable) <==> ruling.Ok? && !durable)
            && (ended.NotDurable? ==> ended.error == SigningUnavailable)
            && (ended.OutcomeNotSigned? ==>
                ended.error == SigningUnavailable && ruling.Ok? && durable && !signerAfter.available)
            && (ruling.Ok? && durable && signerAfter.available ==> ended.Decided?)
  {
    hide Judge, GiveBack, DispatchIfPermitted, CompletedAt, NextRecord, NextOutcome, OpenSegment;
    var ruling := Judge(sys.counters, env, c, a).ruling;
    if ruling.Ok? && Durable(sys.store, c.decisionId, signer) {
      AppendFiles(sys.store, env, c, ruling.value, signer);
    }
  }

  // ---------------------------------------------------------------------------------------
  // Budget
  // ---------------------------------------------------------------------------------------

  /** What the decision's counter holds in the window that ends now. */
  function Window(counters: L.Counters, c: Case): seq<L.Entry> {
    W.Since(L.AtOf, counters.Entries(c.limitKey.name), c.now - c.limitKey.window)
  }

  function OwnEntry(env: Env, c: Case): L.Entry { L.Entry(c.now, L.Member(env.repr, c.decisionId, c.now), 1.0) }

  /** No live entry would be taken for this decision's when it is released. */
  ghost predicate Unused(es: seq<L.Entry>, decisionId: Id) {
    forall i :: 0 <= i < |es| ==> !EndsWith(es[i].member, ":" + decisionId)
  }

  lemma {:induction false} UnusedSince(es: seq<L.Entry>, d: Id, h: Time)
    requires Unused(es, d)
    ensures Unused(W.Since(L.AtOf, es, h), d)
  {
    hide EndsWith;
    if es != [] { UnusedSince(es[..|es| - 1], d, h); }
  }

  lemma {:induction false} WithoutUnused(es: seq<L.Entry>, d: Id)
    requires Unused(es, d)
    ensures L.Without(es, ":" + d) == es
  {
    hide EndsWith;
    if es != [] { WithoutUnused(es[..|es| - 1], d); }
  }

  lemma OwnEnds(env: Env, c: Case)
    ensures EndsWith(OwnEntry(env, c).member, ":" + c.decisionId)
  {
    var m, x := OwnEntry(env, c).member, ":" + c.decisionId;
    assert m == env.repr(c.now) + x;
    assert m[|m| - |x|..] == x;
  }

  lemma UnusedIsNoMember(es: seq<L.Entry>, d: Id, member: string)
    requires Unused(es, d) && EndsWith(member, ":" + d)
    ensures !L.HasMember(es, member)
  {
    hide EndsWith;
  }

  lemma Charging(counters: L.Counters, env: Env, c: Case)
    requires counters.Valid() && env.cfg.Valid() && c.limitKey.window > 0.0
    requires Unused(counters.Entries(c.limitKey.name), c.decisionId)
    ensures var (counters', v) := L.TryConsume(counters, env.cfg, env.repr, c.limitKey, 1.0, c.decisionId, c.now);
            Window(counters', c) == if v.admitted then Window(counters, c) + [OwnEntry(env, c)] else Window(counters, c)
  {
    hide W.Since, L.Member, L.Charge, L.Cost, L.HasMember, EndsWith, Unused;
    var es, h, own := counters.Entries(c.limitKey.name), c.now - c.limitKey.window, OwnEntry(env, c);
    var kept := W.Since(L.AtOf, es, h);
    LR.OwnEntries(counters, env.cfg, env.repr, c.limitKey, 1.0, c.decisionId, c.now);
    UnusedSince(es, c.decisionId, h);
    OwnEnds(env, c);
    UnusedIsNoMember(kept, c.decisionId, own.member);
    W.SinceSince(L.AtOf, es, h, h);
    W.SinceSnoc(L.AtOf, kept, own, h);
  }

  lemma Releasing(counters: L.Counters, c: Case, rest: seq<L.Entry>, own: L.Entry)
    requires counters.Valid() && Unused(rest, c.decisionId) && EndsWith(own.member, ":" + c.decisionId)
    requires Window(counters, c) == rest + [own] || Window(counters, c) == rest
    ensures Window(L.Release(counters, c.limitKey.name, c.decisionId), c) == rest
  {
    hide W.Since, L.Without, EndsWith;
    var x := ":" + c.decisionId;
    LR.WithoutSince(counters.Entries(c.limitKey.name), c.now - c.limitKey.window, x);
    LR.WithoutSnoc(rest, own, x);
    WithoutUnused(rest, c.decisionId);
    EmptyIsEmpty(c.now - c.limitKey.window, x);
  }

  lemma EmptyIsEmpty(h: Time, x: string)
    ensures W.Since(L.AtOf, [], h) == [] && L.Without([], x) == []
  {
  }

  /**
   * Whether the evaluation ends with this decision's entry in the window: budget was taken, and then
   * the observation failed, nothing can be released, or the decision passes and its evidence is durable.
   */
  predicate KeepsBudget(counters: L.Counters, env: Env, c: Case, a: Answers, durable: bool)
    requires counters.Valid() && env.cfg.Valid()
  {
    && Charges(counters, env, c, a)
    && (a.baseline.ObserveDown? || !a.releaseUp || (CheckBaseline(a).1.None? && durable))
  }

  lemma KeepsBudgetIs(counters: L.Counters, env: Env, c: Case, a: Answers, durable: bool)
    requires counters.Valid() && env.cfg.Valid()
    ensures var j := Judge(counters, env, c, a);
            KeepsBudget(counters, env, c, a, durable) <==>
            j.holds && (j.ruling.Err? || (j.ruling.value.effect != Deny && (durable || !a.releaseUp)))
  {
    hide Judge, EarlyGates, LimitGate, FirstOf;
    FirstDenialWins(counters, env, c, a);
    var limit, base := LimitGate(counters, env, c, a), CheckBaseline(a).1;
    FirstOfSum(EarlyGates(a) + [limit], [base]);
    FirstOfCons(base, []);
    assert FirstOf([]).None? by { FirstOfIs([]); }
    var ruling := Judge(counters, env, c, a).ruling;
    assert ruling.Err? ==> ruling.error.ObserveFailed? || ruling.error.ReleaseFailed?;
    assert [base] + [] == [base] && Gates(counters, env, c, a) == EarlyGates(a) + [limit] + [base];
  }

  lemma JudgedBudget(counters: L.Counters, env: Env, c: Case, a: Answers)
    requires counters.Valid() && env.cfg.Valid() && c.limitKey.window > 0.0
    requires Unused(counters.Entries(c.limitKey.name), c.decisionId)
    ensures var j := Judge(counters, env, c, a);
            Window(j.counters, c) ==
              if j.holds && (j.ruling.Err? || j.ruling.value.effect != Deny)
              then Window(counters, c) + [OwnEntry(env, c)]
              else Window(counters, c)
  {
    hide L.TryConsume, L.Release, Window, EndsWith, Weigh, Screen, Unused, OwnEntry;
    Charging(counters, env, c);
    UnusedWindow(counters, c);
    OwnEnds(env, c);
    BaselineDenies(a);
    var (charged, velocity, holds) := CheckLimits(counters, env, c, a);
    if holds { Releasing(charged, c, Window(counters, c), OwnEntry(env, c)); }
  }

  lemma BaselineDenies(a: Answers)
    ensures CheckBaseline(a).1.Some? ==> CheckBaseline(a).1.value.effect == Deny
  {
  }

  lemma UnusedWindow(counters: L.Counters, c: Case)
    requires Unused(counters.Entries(c.limitKey.name), c.decisionId)
    ensures Unused(Window(counters, c), c.decisionId)
  {
    UnusedSince(counters.Entries(c.limitKey.name), c.decisionId, c.now - c.limitKey.window);
  }

  /**
   * Budget is conserved, whatever the pipeline does. The window ends with the entries it began with,
   * and with this decision's own entry exactly if `KeepsBudget`.
   */
  lemma BudgetExactly(sys: System, env: Env, c: Case, a: Answers, replay: bool, signer: Signer, signerAfter: Signer)
    requires sys.counters.Valid() && env.cfg.Valid() && c.limitKey.window > 0.0
    requires Unused(sys.counters.Entries(c.limitKey.name), c.decisionId)
    ensures var e := Evaluate(sys, env, c, a, replay, signer, signerAfter);
            Window(e.system.counters, c) ==
              if KeepsBudget(sys.counters, env, c, a, Durable(sys.store, c.decisionId, signer))
              then Window(sys.counters, c) + [OwnEntry(env, c)]
              else Window(sys.counters, c)
  {
    hide Judge, L.Release, Window, EndsWith, AppendIntent, AppendOutcome, DispatchIfPermitted, Unused, OwnEntry;
    hide KeepsBudget;
    KeepsBudgetIs(sys.counters, env, c, a, Durable(sys.store, c.decisionId, signer));
    var j := Judge(sys.counters, env, c, a);
    JudgedBudget(sys.counters, env, c, a);
    UnusedWindow(sys.counters, c);
    OwnEnds(env, c);
    if j.ruling.Ok? {
      AppendExactly(sys.store, env, c, j.ruling.value, signer);
      if j.holds { Releasing(j.counters, c, Window(sys.counters, c), OwnEntry(env, c)); }
    }
  }

  /**
   * With the limit and baseline stores up, the window holds this decision's entry exactly if the
   * decision was not a denial and its evidence is durable.
   */
  lemma BudgetConserved(sys: System, env: Env, c: Case, a: Answers, replay: bool, signer: Signer, signerAfter: Signer)
    requires sys.counters.Valid() && env.cfg.Valid() && c.limitKey.window > 0.0
    requires Unused(sys.counters.Entries(c.limitKey.name), c.decisionId)
    requires a.limitsUp && a.releaseUp && !a.baseline.ObserveDown?
    ensures var e, ruling :=
              Evaluate(sys, env, c, a, replay, signer, signerAfter), Judge(sys.counters, env, c, a).ruling;
            && ruling.Ok?
            && Window(e.system.counters, c) ==
                 Window(sys.counters, c) +
                 (if ruling.value.effect != Deny && Durable(sys.store, c.decisionId, signer) then [OwnEntry(env, c)]
                  else [])
  {
    hide Evaluate, Window, Unused, OwnEntry, EndsWith, L.TryConsume, Weigh, Screen, KeepsBudget;
    KeepsBudgetIs(sys.counters, env, c, a, Durable(sys.store, c.decisionId, signer));
    BudgetExactly(sys, env, c, a, replay, signer, signerAfter);
    assert Window(sys.counters, c) + [] == Window(sys.counters, c);
  }
}
