/** The decision pipeline: nine stages in order, evidence, then at most one dispatch. */
module Decisions {
  import opened Bytes
  import opened Evidence
  import opened Ledger
  import L = Limits
  import D = Dispatching

  // ---------------------------------------------------------------------------------------
  // Rulings and stages
  // ---------------------------------------------------------------------------------------

  datatype Reason =
    | DependencyUnavailable | ToolDefinitionChanged | ToolNotGoverned | ActionNotGoverned | PromptInjection
    | AttestationNotSatisfied | IdentityUnverified | KillSwitchEngaged
    | MandateMissing | MandateRevoked | MandateExceeded
    | PolicyBundleUnavailable | RiskThresholdExceeded | LimitExceeded | BaselineAnomaly | ByPolicy

  /** An authorization decision; `blocking` tells whether it carries an undischarged blocking obligation. */
  datatype Ruling = Ruling(effect: Effect, reason: Reason, blocking: bool)

  function Denial(reason: Reason): Ruling { Ruling(Deny, reason, false) }

  datatype StageName =
    | ToolRegistry
    | Catalogue
    | Identity
    | KillSwitch
    | Mandate
    | PolicyRules
    | Risk
    | Velocity
    | Baseline

  datatype Status = Executed | Skipped | Failed

  datatype StageRecord = StageRecord(name: StageName, status: Status)

  const NINE := [ToolRegistry, Catalogue, Identity, KillSwitch, Mandate, PolicyRules, Risk, Velocity, Baseline]

  // What the dependencies answer, should they be asked.

  datatype RegistryAnswer = ByName | Tool | ToolRegistryDown | Quarantined | UnknownTool

  datatype CatalogueAnswer = ByTool | Governed | CatalogueDown | UnknownAction | Injected | Unattested | AttestationDown

  datatype SwitchAnswer = Off | Engaged | SwitchDown

  datatype MandateAnswer = MandateDown | NoMandate | Found

  datatype RevocationAnswer = RevocationDown | Revoked | Current

  datatype PolicyAnswer = BundleDown | Decides(ruling: Ruling)

  datatype RiskAnswer = EngineDown | Scored(exceeds: bool)

  datatype BaselineAnswer = NoExposure | BaselineDown | Anomalous | Normal | ObserveDown

  datatype Answers = Answers(
    advisory: bool, registry: RegistryAnswer, catalogue: CatalogueAnswer, assertedMatches: bool,
    globalSwitch: SwitchAnswer, tenantSwitch: SwitchAnswer, mandate: MandateAnswer, revocation: RevocationAnswer,
    permits: bool,
    policy: PolicyAnswer, risk: RiskAnswer, enforceThreshold: bool, limitsUp: bool, releaseUp: bool,
    baseline: BaselineAnswer)

  /** A stage's own record, and its denial if it denies. */
  type Check = (Status, Option<Ruling>)

  function CheckRegistry(a: Answers): Check {
    match a.registry
    case ByName => (Skipped, None)
    case Tool => (Executed, None)
    case ToolRegistryDown => (Failed, Some(Denial(DependencyUnavailable)))
    case Quarantined => (Executed, Some(Denial(ToolDefinitionChanged)))
    case UnknownTool => (Executed, Some(Denial(ToolNotGoverned)))
  }

  function CheckCatalogue(a: Answers): Check {
    match a.catalogue
    case ByTool => (Skipped, None)
    case Governed => (Executed, None)
    case CatalogueDown => (Failed, Some(Denial(DependencyUnavailable)))
    case UnknownAction => (Executed, Some(Denial(ActionNotGoverned)))
    case Injected => (Executed, Some(Denial(PromptInjection)))
    case Unattested => (Executed, Some(Denial(AttestationNotSatisfied)))
    case AttestationDown => (Executed, Some(Denial(AttestationNotSatisfied)))
  }

  function CheckIdentity(a: Answers): Check {
    if a.assertedMatches then (Executed, None) else (Failed, Some(Denial(IdentityUnverified)))
  }

  /** The tenant switch is asked only while the global one is off. */
  function CheckKillSwitch(a: Answers): Check {
    if a.advisory then (Skipped, None)
    else if a.globalSwitch.SwitchDown? || (a.globalSwitch.Off? && a.tenantSwitch.SwitchDown?)
    then (Failed, Some(Denial(DependencyUnavailable)))
    else if a.globalSwitch.Engaged? || a.tenantSwitch.Engaged? then (Executed, Some(Denial(KillSwitchEngaged)))
    else (Executed, None)
  }

  function CheckMandate(a: Answers): Check {
    if a.mandate.MandateDown? || (a.mandate.Found? && a.revocation.RevocationDown?) then
      if a.advisory then (Skipped, None) else (Failed, Some(Denial(DependencyUnavailable)))
    else if a.mandate.NoMandate? then (Executed, Some(Denial(MandateMissing)))
    else if a.revocation.Revoked? then (Executed, Some(Denial(MandateRevoked)))
    else if !a.permits then (Executed, Some(Denial(MandateExceeded)))
    else (Executed, None)
  }

  function CheckPolicy(a: Answers): (Status, Ruling) {
    match a.policy
    case BundleDown => (Failed, Denial(PolicyBundleUnavailable))
    case Decides(ruling) => (Executed, ruling)
  }

  /** One rung of the ladder: a stage is asked only while nothing has been denied. */
  function Rung(denial: Option<Ruling>, stages: seq<StageRecord>, name: StageName, check: Check):
    (Option<Ruling>, seq<StageRecord>)
  {
    if denial.Some? then (denial, stages + [StageRecord(name, Skipped)])
    else (check.1, stages + [StageRecord(name, check.0)])
  }

  /** The stages before policy. */
  function Screen(a: Answers): (Option<Ruling>, seq<StageRecord>) {
    var r1 := Rung(None, [], ToolRegistry, CheckRegistry(a));
    var r2 := Rung(r1.0, r1.1, Catalogue, CheckCatalogue(a));
    var r3 := Rung(r2.0, r2.1, Identity, CheckIdentity(a));
    var r4 := Rung(r3.0, r3.1, KillSwitch, CheckKillSwitch(a));
    Rung(r4.0, r4.1, Mandate, CheckMandate(a))
  }

  /** Policy, then risk, which is always assessed, and its threshold. */
  function Weigh(a: Answers, screened: (Option<Ruling>, seq<StageRecord>)): (Ruling, seq<StageRecord>) {
    var ruled := if screened.0.Some? then (Skipped, screened.0.value) else CheckPolicy(a);
    var stages := screened.1
        + [StageRecord(PolicyRules, ruled.0), StageRecord(Risk, if a.risk.EngineDown? then Failed else Executed)];
    if ruled.1.effect == Deny then (ruled.1, stages)
    else if a.risk.EngineDown? then (Denial(DependencyUnavailable), stages)
    else if a.enforceThreshold && a.risk.exceeds then (Denial(RiskThresholdExceeded), stages)
    else (ruled.1, stages)
  }

  // ---------------------------------------------------------------------------------------
  // Limits and baseline
  // ---------------------------------------------------------------------------------------

  datatype Env = Env(cfg: L.Config, repr: L.Repr, mac: Mac, maxInFlight: int, checked: bool, encode: Execution -> Bytes)

  datatype Case = Case(
    decisionId: Id, segmentId: Id, tenantId: Id, now: Time, body: Bytes, limitKey: L.LimitKey,
    action: string, idempotencyKey: Id, timeout: Time, ran: D.Ran)

  /** The counters after the stages, the records of all nine, the ruling, and whether budget is held. */
  datatype Judged =
    | Judged(counters: L.Counters, stages: seq<StageRecord>, ruling: Result<Ruling, Interrupt>, holds: bool)

  /** Failures that leave the pipeline before evidence is written. */
  datatype Interrupt = ObserveFailed | ReleaseFailed

  function CheckLimits(counters: L.Counters, env: Env, c: Case, a: Answers): (r: (L.Counters, Check, bool))
    requires counters.Valid() && env.cfg.Valid()
    ensures r.0.Valid()
  {
    if !a.limitsUp then
      (counters, if a.advisory then (Skipped, None) else (Failed, Some(Denial(DependencyUnavailable))), false)
    else
      var (counters', v) := L.TryConsume(counters, env.cfg, env.repr, c.limitKey, 1.0, c.decisionId, c.now);
      (counters', (Executed, if v.admitted then None else Some(Denial(LimitExceeded))), v.admitted)
  }

  function CheckBaseline(a: Answers): Check {
    match a.baseline
    case NoExposure => (Skipped, None)
    case BaselineDown => if a.advisory then (Skipped, None) else (Failed, Some(Denial(DependencyUnavailable)))
    case Anomalous => (Executed, Some(Denial(BaselineAnomaly)))
    case Normal => (Executed, None)
    case ObserveDown => (Executed, None)
  }

  /** Budget is given back only if some is held; the store may be unreachable by then. */
  function GiveBack(counters: L.Counters, c: Case, a: Answers, holds: bool): (r: L.Counters)
    requires counters.Valid()
    ensures r.Valid()
  {
    if holds && a.releaseUp then L.Release(counters, c.limitKey.name, c.decisionId) else counters
  }

  function Judge(counters: L.Counters, env: Env, c: Case, a: Answers): (r: Judged)
    requires counters.Valid() && env.cfg.Valid()
    ensures r.counters.Valid()
  {
    var (ruling, stages) := Weigh(a, Screen(a));
    if ruling.effect == Deny then
      Judged(counters, stages + [StageRecord(Velocity, Skipped), StageRecord(Baseline, Skipped)], Ok(ruling), false)
    else
      var (charged, velocity, holds) := CheckLimits(counters, env, c, a);
      var stages8 := stages + [StageRecord(Velocity, velocity.0)];
      if velocity.1.Some? then Judged(charged, stages8 + [StageRecord(Baseline, Skipped)], Ok(velocity.1.value), holds)
      else
        var (status, anomaly) := CheckBaseline(a);
        var all := stages8 + [StageRecord(Baseline, status)];
        if a.baseline.ObserveDown? then Judged(charged, all, Err(ObserveFailed), holds)
        else if anomaly.None? then Judged(charged, all, Ok(ruling), holds)
        else if holds && !a.releaseUp then Judged(charged, all, Err(ReleaseFailed), holds)
        else Judged(GiveBack(charged, c, a, holds), all, Ok(anomaly.value), holds)
  }

  // ---------------------------------------------------------------------------------------
  // Evidence and dispatch
  // ---------------------------------------------------------------------------------------

  datatype Execution = Denied | AwaitingApproval | Replayed | Dispatched(outcome: D.Outcome) | DispatchRefused

  datatype System = System(counters: L.Counters, store: Store, desk: D.Desk)

  datatype Ended =
    | Decided(ruling: Ruling, receipt: Receipt, execution: Execution)
    | Interrupted(why: Interrupt)
    | NotDurable(error: EvidenceError)
    | OutcomeNotSigned(error: EvidenceError)

  /** The end of an evaluation, the stage records it made, and whether it called the dispatcher. */
  datatype Evaluated = Evaluated(system: System, stages: seq<StageRecord>, ended: Ended, dispatched: bool)

  function RequestOf(c: Case, receipt: Receipt): D.Request {
    D.Request(c.action, c.idempotencyKey, receipt, c.timeout, c.now)
  }

  /** What becomes of a decision with a receipt, and whether the dispatcher was called for it. */
  function DispatchIfPermitted(desk: D.Desk, store: Store, env: Env, c: Case, ruling: Ruling, receipt: Receipt,
                               replay: bool):
    (D.Desk, Execution, bool)
  {
    if ruling.effect == Deny then (desk, Denied, false)
    else if ruling.effect == RequireApproval || ruling.blocking then (desk, AwaitingApproval, false)
    else if replay then (desk, Replayed, false)
    else
      var (desk', r) :=
            D.DispatchAlone(desk, env.maxInFlight, env.checked, RequestOf(c, receipt), HasReceipt(store, receipt),
                            c.ran);
      (desk', if r.Ok? then Dispatched(r.value) else DispatchRefused, true)
  }

  function CompletedAt(e: Execution, now: Time): Time {
    match e
    case Dispatched(Pending) => 0.0
    case Dispatched(Indeterminate(t)) => t
    case Dispatched(Failed(t, _)) => t
    case Dispatched(Executed(t, _)) => t
    case _ => now
  }

  function RecordOf(c: Case, ruling: Ruling): IntentRecord {
    IntentRecord(c.decisionId, c.segmentId, c.tenantId, c.now, ruling.effect, c.body)
  }

  /** Everything after the stages: evidence first, then the effect, then the outcome record. */
  function Conclude(sys: System, env: Env, c: Case, a: Answers, stages: seq<StageRecord>, ruling: Ruling, holds: bool,
                    replay: bool,
                    signer: Signer, signerAfter: Signer): (r: Evaluated)
    requires sys.counters.Valid()
    ensures r.system.counters.Valid()
  {
    var (store1, appended) := AppendIntent(sys.store, env.mac, RecordOf(c, ruling), signer);
    if appended.Err? then
      Evaluated(sys.(counters := GiveBack(sys.counters, c, a, holds), store := store1), stages,
                NotDurable(appended.error), false)
    else
      var receipt := appended.value;
      var (desk', execution, called) := DispatchIfPermitted(sys.desk, store1, env, c, ruling, receipt, replay);
      var outcome := OutcomeRecord(c.decisionId, CompletedAt(execution, c.now), env.encode(execution));
      var (store2, recorded) := AppendOutcome(store1, env.mac, receipt, outcome, signerAfter);
      var ended := if recorded.Err? && !IsWriteError(recorded.error) then OutcomeNotSigned(recorded.error)
                   else Decided(ruling, receipt, execution);
      Evaluated(System(sys.counters, store2, desk'), stages, ended, called)
  }

  function Evaluate(sys: System, env: Env, c: Case, a: Answers, replay: bool, signer: Signer,
                    signerAfter: Signer): (r: Evaluated)
    requires sys.counters.Valid() && env.cfg.Valid()
    ensures r.system.counters.Valid()
  {
    var j := Judge(sys.counters, env, c, a);
    var sys' := sys.(counters := j.counters);
    match j.ruling
    case Err(why) => Evaluated(sys', j.stages, Interrupted(why), false)
    case Ok(ruling) => Conclude(sys', env, c, a, j.stages, ruling, j.holds, replay, signer, signerAfter)
  }
}
