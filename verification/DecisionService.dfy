/** The decision service: it drives the limit store, the evidence store and the dispatcher. */
module DecisionService {
  import opened Bytes
  import opened Evidence
  import opened Decisions
  import opened LimitStore
  import opened EvidenceStore
  import opened Dispatcher
  import L = Limits
  import D = Dispatching
  import Ledger

  /** The stages up to the risk threshold, in the order of the code; `ruling` is rebound as they go. */
  method RunEarlyStages(a: Answers) returns (ruling: Ruling, stages: seq<StageRecord>)
    ensures (ruling, stages) == Weigh(a, Screen(a))
  {
    hide CheckRegistry, CheckCatalogue, CheckIdentity, CheckKillSwitch, CheckMandate, CheckPolicy;
    var decision := CheckRegistry(a).1;
    stages := [StageRecord(ToolRegistry, CheckRegistry(a).0)];
    assert [] + stages == stages;

    if decision.None? {
      decision := CheckCatalogue(a).1;
      stages := stages + [StageRecord(Catalogue, CheckCatalogue(a).0)];
    } else {
      stages := stages + [StageRecord(Catalogue, Skipped)];
    }

    var status := Skipped;
    if decision.None? { status, decision := CheckIdentity(a).0, CheckIdentity(a).1; }
    stages := stages + [StageRecord(Identity, status)];

    status := Skipped;
    if decision.None? { status, decision := CheckKillSwitch(a).0, CheckKillSwitch(a).1; }
    stages := stages + [StageRecord(KillSwitch, status)];

    status := Skipped;
    if decision.None? { status, decision := CheckMandate(a).0, CheckMandate(a).1; }
    stages := stages + [StageRecord(Mandate, status)];
    assert (decision, stages) == Screen(a);
    ghost var screened := stages;

    if decision.None? {
      ruling := CheckPolicy(a).1;
      stages := stages + [StageRecord(PolicyRules, CheckPolicy(a).0)];
    } else {
      ruling := decision.value;
      stages := stages + [StageRecord(PolicyRules, Skipped)];
    }

    stages := stages + [StageRecord(Risk, if a.risk.EngineDown? then Failed else Executed)];
    assert stages == screened + [stages[|screened|], stages[|screened| + 1]];
    if a.risk.EngineDown? && ruling.effect != Deny { ruling := Denial(DependencyUnavailable); }
    if ruling.effect != Deny && a.risk.Scored? && a.enforceThreshold && a.risk.exceeds {
      ruling := Denial(RiskThresholdExceeded);
    }
  }

  class Service {
    const limits: InMemoryLimitStore
    const evidence: InMemoryEvidenceStore
    const dispatcher: InMemoryDispatcher
    const encode: Execution -> Bytes

    constructor (limits: InMemoryLimitStore, evidence: InMemoryEvidenceStore, dispatcher: InMemoryDispatcher,
                 encode: Execution -> Bytes)
      ensures this.limits == limits && this.evidence == evidence && this.dispatcher == dispatcher
      ensures this.encode == encode
    {
      this.limits, this.evidence, this.dispatcher, this.encode := limits, evidence, dispatcher, encode;
    }

    ghost function View(): System reads limits, evidence, dispatcher {
      System(limits.View(), evidence.View(), dispatcher.View())
    }

    function Surroundings(): Env reads dispatcher {
      Env(limits.cfg, limits.repr, evidence.mac, dispatcher.maxInFlight, dispatcher.Checked(), encode)
    }

    /** The answers, with the limit store's availability as that store has it. */
    function Seen(a: Answers): Answers reads limits { a.(limitsUp := limits.available, releaseUp := limits.available) }

    method TakeBudget(c: Case, a: Answers) returns (check: Check, holds: bool)
      requires limits.Valid()
      modifies limits
      ensures limits.Valid() && limits.available == old(limits.available)
      ensures (limits.View(), check, holds) == CheckLimits(old(limits.View()), Surroundings(), c, old(Seen(a)))
    {
      hide L.TryConsume;
      var verdict := limits.TryConsume(c.limitKey, 1.0, c.decisionId, c.now);
      if verdict.Err? {
        return if a.advisory then (Skipped, None) else (Failed, Some(Denial(DependencyUnavailable))), false;
      }
      var v := verdict.value;
      return (Executed, if v.admitted then None else Some(Denial(LimitExceeded))), v.admitted;
    }

    method ReturnBudget(c: Case, holds: bool) returns (ok: bool)
      requires limits.Valid()
      modifies limits
      ensures limits.Valid() && limits.available == old(limits.available)
      ensures ok <==> !holds || limits.available
      ensures limits.View() == if holds && limits.available
              then L.Release(old(limits.View()), c.limitKey.name, c.decisionId) else old(limits.View())
    {
      hide L.Release;
      if !holds { return true; }
      var released := limits.ReleaseBudget(c.limitKey.name, c.decisionId);
      return released.Ok?;
    }

    method RunStages(c: Case, a: Answers)
      returns (stages: seq<StageRecord>, ruling: Result<Ruling, Interrupt>, holds: bool)
      requires limits.Valid()
      modifies limits
      ensures limits.Valid() && limits.available == old(limits.available)
      ensures Judged(limits.View(), stages, ruling, holds) == Judge(old(limits.View()), Surroundings(), c, old(Seen(a)))
    {
      hide CheckLimits, Weigh, Screen, L.TryConsume, L.Release;
      ghost var seen := Seen(a);
      assert Weigh(a, Screen(a)) == Weigh(seen, Screen(seen)) by { EarlyStagesIgnoreLimits(a, seen); }
      var decision;
      decision, stages := RunEarlyStages(a);
      if decision.effect == Deny {
        return stages + [StageRecord(Velocity, Skipped), StageRecord(Baseline, Skipped)], Ok(decision), false;
      }
      var velocity;
      velocity, holds := TakeBudget(c, a);
      stages := stages + [StageRecord(Velocity, velocity.0)];
      if velocity.1.Some? { return stages + [StageRecord(Baseline, Skipped)], Ok(velocity.1.value), holds; }
      var baseline := CheckBaseline(a);
      stages := stages + [StageRecord(Baseline, baseline.0)];
      if a.baseline.ObserveDown? { return stages, Err(ObserveFailed), holds; }
      if baseline.1.None? { return stages, Ok(decision), holds; }
      var released := ReturnBudget(c, holds);
      if !released { return stages, Err(ReleaseFailed), holds; }
      return stages, Ok(baseline.1.value), holds;
    }

    method DispatchPermitted(c: Case, ruling: Ruling, receipt: Receipt, replay: bool)
      returns (execution: Execution, called: bool)
      modifies dispatcher
      ensures (dispatcher.View(), execution, called) ==
              DispatchIfPermitted(old(dispatcher.View()), evidence.View(), old(Surroundings()), c, ruling, receipt,
                                  replay)
      ensures Surroundings() == old(Surroundings())
    {
      hide D.DispatchAlone;
      if ruling.effect == Deny { return Denied, false; }
      if ruling.effect == RequireApproval || ruling.blocking { return AwaitingApproval, false; }
      if replay { return Replayed, false; }
      var issued := evidence.CheckReceipt(receipt);
      var r := dispatcher.Dispatch(RequestOf(c, receipt), issued, c.ran);
      return if r.Ok? then Dispatched(r.value) else DispatchRefused, true;
    }

    /** Evidence first, then the effect, then the outcome record. */
    method Finish(c: Case, ghost a: Answers, ghost stages: seq<StageRecord>, ruling: Ruling, holds: bool, replay: bool,
                  signer: Signer, signerAfter: Signer) returns (ended: Ended, called: bool)
      requires limits.Valid() && a.releaseUp == limits.available
      modifies limits, evidence, dispatcher
      ensures limits.Valid()
      ensures Evaluated(View(), stages, ended, called) ==
              Conclude(old(View()), old(Surroundings()), c, a, stages, ruling, holds, replay, signer, signerAfter)
    {
      hide Ledger.AppendIntent, Ledger.AppendOutcome, L.Release, DispatchIfPermitted, CompletedAt;
      var appended := evidence.AppendIntent(RecordOf(c, ruling), signer);
      if appended.Err? {
        var _ := ReturnBudget(c, holds);
        return NotDurable(appended.error), false;
      }
      var receipt := appended.value;
      var execution;
      execution, called := DispatchPermitted(c, ruling, receipt, replay);
      var outcome := OutcomeRecord(c.decisionId, CompletedAt(execution, c.now), encode(execution));
      var recorded := evidence.AppendOutcome(receipt, outcome, signerAfter);
      ended := if recorded.Err? && !IsWriteError(recorded.error) then OutcomeNotSigned(recorded.error)
               else Decided(ruling, receipt, execution);
    }

    method Evaluate(c: Case, a: Answers, replay: bool, signer: Signer, signerAfter: Signer)
      returns (stages: seq<StageRecord>, ended: Ended, called: bool)
      requires limits.Valid()
      modifies limits, evidence, dispatcher
      ensures limits.Valid()
      ensures Evaluated(View(), stages, ended, called) ==
              Decisions.Evaluate(old(View()), old(Surroundings()), c, old(Seen(a)), replay, signer, signerAfter)
    {
      hide Judge, Conclude;
      ghost var seen := Seen(a);
      var ruling, holds;
      stages, ruling, holds := RunStages(c, a);
      if ruling.Err? { return stages, Interrupted(ruling.error), false; }
      ended, called := Finish(c, seen, stages, ruling.value, holds, replay, signer, signerAfter);
    }
  }

  lemma EarlyStagesIgnoreLimits(a: Answers, b: Answers)
    requires b == a.(limitsUp := b.limitsUp, releaseUp := b.releaseUp)
    ensures Weigh(a, Screen(a)) == Weigh(b, Screen(b))
  {
  }
}
