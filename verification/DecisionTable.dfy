/**
 * Which ruling follows from which answers, told by the answers alone.
 *
 * Nothing here refers to how a stage computes its verdict: the conditions are about what the
 * dependencies say, and the only thing asked of the limit store is whether it admits the action.
 */
module DecisionTable {
  import opened Bytes
  import opened Evidence
  import opened Decisions
  import L = Limits

  // ---------------------------------------------------------------------------------------
  // What it takes to pass
  // ---------------------------------------------------------------------------------------

  predicate ToolOk(a: Answers) { a.registry.ByName? || a.registry.Tool? }

  predicate ActionOk(a: Answers) { a.catalogue.ByTool? || a.catalogue.Governed? }

  /** An advisory action passes an emergency stop; for others both switches must be known to be off. */
  predicate SwitchOk(a: Answers) { a.advisory || (a.globalSwitch.Off? && a.tenantSwitch.Off?) }

  predicate MandateUnknown(a: Answers) { a.mandate.MandateDown? || (a.mandate.Found? && a.revocation.RevocationDown?) }

  predicate MandateOk(a: Answers) {
    if MandateUnknown(a) then a.advisory else a.mandate.Found? && a.revocation.Current? && a.permits
  }

  predicate PolicyOk(a: Answers) { a.policy.Decides? && a.policy.ruling.effect != Deny }

  predicate RiskOk(a: Answers) { a.risk.Scored? && (a.enforceThreshold ==> !a.risk.exceeds) }

  predicate BudgetOk(a: Answers, admitted: bool) { if a.limitsUp then admitted else a.advisory }

  predicate BaselineOk(a: Answers) {
    a.baseline.NoExposure? || a.baseline.Normal? || (a.advisory && a.baseline.BaselineDown?)
  }

  /** Nothing before the stage of this number stands in the way. */
  predicate Through(a: Answers, admitted: bool, stage: nat) {
    && (stage > 0 ==> ToolOk(a))
    && (stage > 1 ==> ActionOk(a))
    && (stage > 2 ==> a.assertedMatches)
    && (stage > 3 ==> SwitchOk(a))
    && (stage > 4 ==> MandateOk(a))
    && (stage > 5 ==> PolicyOk(a))
    && (stage > 6 ==> RiskOk(a))
    && (stage > 7 ==> BudgetOk(a, admitted))
    && (stage > 8 ==> BaselineOk(a))
  }

  predicate Admitted(counters: L.Counters, env: Env, c: Case)
    requires counters.Valid() && env.cfg.Valid()
  {
    L.TryConsume(counters, env.cfg, env.repr, c.limitKey, 1.0, c.decisionId, c.now).1.admitted
  }

  // ---------------------------------------------------------------------------------------
  // What a denial is for
  // ---------------------------------------------------------------------------------------

  predicate SwitchDown(a: Answers) {
    !a.advisory && (a.globalSwitch.SwitchDown? || (a.globalSwitch.Off? && a.tenantSwitch.SwitchDown?))
  }

  predicate SwitchEngaged(a: Answers) {
    !a.advisory && (a.globalSwitch.Engaged? || (a.globalSwitch.Off? && a.tenantSwitch.Engaged?))
  }

  /** A dependency that had to answer and did not. */
  predicate Unanswered(a: Answers, admitted: bool) {
    || a.registry.ToolRegistryDown?
    || (Through(a, admitted, 1) && a.catalogue.CatalogueDown?)
    || (Through(a, admitted, 3) && SwitchDown(a))
    || (Through(a, admitted, 4) && !a.advisory && MandateUnknown(a))
    || (Through(a, admitted, 6) && a.risk.EngineDown?)
    || (Through(a, admitted, 7) && !a.advisory && !a.limitsUp)
    || (Through(a, admitted, 8) && !a.advisory && a.baseline.BaselineDown?)
  }

  /** The grounds on which the pipeline itself denies for the reason. */
  predicate Grounds(a: Answers, admitted: bool, reason: Reason) {
    match reason
    case DependencyUnavailable => Unanswered(a, admitted)
    case ToolDefinitionChanged => a.registry.Quarantined?
    case ToolNotGoverned => a.registry.UnknownTool?
    case ActionNotGoverned => Through(a, admitted, 1) && a.catalogue.UnknownAction?
    case PromptInjection => Through(a, admitted, 1) && a.catalogue.Injected?
    case AttestationNotSatisfied =>
      Through(a, admitted, 1) && (a.catalogue.Unattested? || a.catalogue.AttestationDown?)
    case IdentityUnverified => Through(a, admitted, 2) && !a.assertedMatches
    case KillSwitchEngaged => Through(a, admitted, 3) && SwitchEngaged(a)
    case MandateMissing => Through(a, admitted, 4) && a.mandate.NoMandate?
    case MandateRevoked => Through(a, admitted, 4) && a.mandate.Found? && a.revocation.Revoked?
    case MandateExceeded => Through(a, admitted, 4) && a.mandate.Found? && a.revocation.Current? && !a.permits
    case PolicyBundleUnavailable => Through(a, admitted, 5) && a.policy.BundleDown?
    case RiskThresholdExceeded => Through(a, admitted, 6) && a.risk.Scored? && a.enforceThreshold && a.risk.exceeds
    case LimitExceeded => Through(a, admitted, 7) && a.limitsUp && !admitted
    case BaselineAnomaly => Through(a, admitted, 8) && a.baseline.Anomalous?
    case ByPolicy => false
  }

  /** Policy itself says no. */
  predicate DeniedByPolicy(a: Answers, admitted: bool) {
    Through(a, admitted, 5) && a.policy.Decides? && a.policy.ruling.effect == Deny
  }

  /** The baseline denies, and the budget that was taken cannot be given back. */
  predicate CannotRelease(a: Answers, admitted: bool) {
    && Through(a, admitted, 8) && (a.baseline.Anomalous? || (!a.advisory && a.baseline.BaselineDown?))
    && a.limitsUp && !a.releaseUp
  }

  // ---------------------------------------------------------------------------------------
  // Stage by stage
  // ---------------------------------------------------------------------------------------

  /** The denial of the stages before policy, if the answers call for one. */
  ghost predicate ScreenTold(a: Answers, admitted: bool, denial: Option<Ruling>) {
    && (denial.None? <==> Through(a, admitted, 5))
    && (denial.Some? ==> exists reason :: denial == Some(Denial(reason)) && Grounds(a, admitted, reason))
  }

  /** A stage passes exactly on its condition, and if it is reached and does not, it has grounds. */
  ghost predicate GateTold(a: Answers, admitted: bool, stage: nat, ok: bool, verdict: Option<Ruling>) {
    && (verdict.None? <==> ok)
    && (verdict.Some? && Through(a, admitted, stage) ==>
          verdict == Some(Denial(verdict.value.reason)) && Grounds(a, admitted, verdict.value.reason))
  }

  lemma ToolGateTells(a: Answers, admitted: bool)
    ensures GateTold(a, admitted, 0, ToolOk(a), CheckRegistry(a).1)
  {
  }

  lemma ActionGateTells(a: Answers, admitted: bool)
    ensures GateTold(a, admitted, 1, ActionOk(a), CheckCatalogue(a).1)
  {
  }

  lemma IdentityGateTells(a: Answers, admitted: bool)
    ensures GateTold(a, admitted, 2, a.assertedMatches, CheckIdentity(a).1)
  {
  }

  lemma SwitchGateTells(a: Answers, admitted: bool)
    ensures GateTold(a, admitted, 3, SwitchOk(a), CheckKillSwitch(a).1)
  {
  }

  lemma MandateGateTells(a: Answers, admitted: bool)
    ensures GateTold(a, admitted, 4, MandateOk(a), CheckMandate(a).1)
  {
  }

  lemma ScreenTells(a: Answers, admitted: bool)
    ensures ScreenTold(a, admitted, Screen(a).0)
  {
    hide CheckRegistry, CheckCatalogue, CheckIdentity, CheckKillSwitch, CheckMandate, Grounds;
    hide ToolOk, ActionOk, SwitchOk, MandateOk, PolicyOk, RiskOk;
    ToolGateTells(a, admitted);
    ActionGateTells(a, admitted);
    IdentityGateTells(a, admitted);
    SwitchGateTells(a, admitted);
    MandateGateTells(a, admitted);
  }

  ghost predicate WeighTold(a: Answers, admitted: bool, ruling: Ruling) {
    if DeniedByPolicy(a, admitted) then ruling == a.policy.ruling
    else if Through(a, admitted, 7) then ruling == a.policy.ruling
    else exists reason :: ruling == Denial(reason) && Grounds(a, admitted, reason)
  }

  lemma WeighTells(a: Answers, admitted: bool)
    ensures WeighTold(a, admitted, Weigh(a, Screen(a)).0)
  {
    hide Screen;
    ScreenTells(a, admitted);
    if Through(a, admitted, 5) && !DeniedByPolicy(a, admitted) && !Through(a, admitted, 7) {
      var reason := if a.policy.BundleDown? then PolicyBundleUnavailable
      else if a.risk.EngineDown? then DependencyUnavailable else RiskThresholdExceeded;
      assert Weigh(a, Screen(a)).0 == Denial(reason) && Grounds(a, admitted, reason);
    }
  }

  /** At most one reason fits, so the reason found is the only one. */
  lemma OneReason(a: Answers, admitted: bool, r: Reason, r': Reason)
    requires Grounds(a, admitted, r) && Grounds(a, admitted, r')
    ensures r == r'
  {
  }

  ghost predicate JudgeTold(a: Answers, admitted: bool, ruling: Result<Ruling, Interrupt>) {
    if DeniedByPolicy(a, admitted) || Through(a, admitted, 9) then ruling == Ok(a.policy.ruling)
    else if Through(a, admitted, 8) && a.baseline.ObserveDown? then ruling == Err(ObserveFailed)
    else if CannotRelease(a, admitted) then ruling == Err(ReleaseFailed)
    else exists reason :: ruling == Ok(Denial(reason)) && Grounds(a, admitted, reason)
  }

  lemma JudgeTells(counters: L.Counters, env: Env, c: Case, a: Answers)
    requires counters.Valid() && env.cfg.Valid()
    ensures JudgeTold(a, Admitted(counters, env, c), Judge(counters, env, c, a).ruling)
  {
    hide Screen, Weigh, L.TryConsume, L.Release;
    var admitted, ruling := Admitted(counters, env, c), Judge(counters, env, c, a).ruling;
    WeighTells(a, admitted);
    if Through(a, admitted, 7) && !Through(a, admitted, 9) {
      var reason :=
        if !Through(a, admitted, 8) then if a.limitsUp then LimitExceeded else DependencyUnavailable
        else if a.baseline.Anomalous? then BaselineAnomaly else DependencyUnavailable;
      if ruling.Ok? { assert ruling == Ok(Denial(reason)) && Grounds(a, admitted, reason); }
    }
  }

  /**
   * The ruling, for every combination of answers. It is no denial exactly if each stage's condition
   * holds, and is then policy's own. Policy's denial stands if policy is reached. Any other denial has
   * the one reason whose grounds are met, and the two ways not to rule are exact.
   */
  lemma RulingExactly(counters: L.Counters, env: Env, c: Case, a: Answers)
    requires counters.Valid() && env.cfg.Valid()
    ensures var admitted, r := Admitted(counters, env, c), Judge(counters, env, c, a).ruling;
            && (r.Ok? && r.value.effect != Deny <==> Through(a, admitted, 9))
            && (Through(a, admitted, 9) ==> r == Ok(a.policy.ruling))
            && (r == Err(ObserveFailed) <==> Through(a, admitted, 8) && a.baseline.ObserveDown?)
            && (r == Err(ReleaseFailed) <==> CannotRelease(a, admitted))
            && (if DeniedByPolicy(a, admitted) then r == Ok(a.policy.ruling)
                else forall reason :: r == Ok(Denial(reason)) <==>
                       Grounds(a, admitted, reason) && !CannotRelease(a, admitted))
  {
    var admitted, r := Admitted(counters, env, c), Judge(counters, env, c, a).ruling;
    JudgeTells(counters, env, c, a);
    CasesExclude(a, admitted);
    hide Judge, Admitted, Through, Grounds, CannotRelease, DeniedByPolicy;
    if !DeniedByPolicy(a, admitted) {
      forall reason ensures r == Ok(Denial(reason)) <==> Grounds(a, admitted, reason) && !CannotRelease(a, admitted) {
        GroundsStop(a, admitted, reason);
        if found :| r == Ok(Denial(found)) && Grounds(a, admitted, found) {
          if Grounds(a, admitted, reason) { OneReason(a, admitted, found, reason); }
        }
      }
    }
  }

  lemma CasesExclude(a: Answers, admitted: bool)
    ensures Through(a, admitted, 9) ==>
              && a.policy.Decides? && a.policy.ruling.effect != Deny && !DeniedByPolicy(a, admitted)
              && !a.baseline.ObserveDown? && !CannotRelease(a, admitted)
    ensures DeniedByPolicy(a, admitted) ==>
              && a.policy.Decides? && a.policy.ruling.effect == Deny
              && !Through(a, admitted, 8) && !CannotRelease(a, admitted)
    ensures a.baseline.ObserveDown? ==> !CannotRelease(a, admitted)
  {
  }

  /** What is denied on some grounds does not pass, is not left to policy, and is not interrupted by observing. */
  lemma GroundsStop(a: Answers, admitted: bool, reason: Reason)
    ensures Grounds(a, admitted, reason) ==>
              && !Through(a, admitted, 9) && !DeniedByPolicy(a, admitted)
              && !(Through(a, admitted, 8) && a.baseline.ObserveDown?)
  {
  }

  // ---------------------------------------------------------------------------------------
  // What each stage records
  // ---------------------------------------------------------------------------------------

  /** The statuses of the nine stages: a stage is skipped if the action is denied before it. */
  function StatusOf(a: Answers, admitted: bool, name: StageName): Status {
    match name
    case ToolRegistry =>
      if a.registry.ByName? then Skipped else if a.registry.ToolRegistryDown? then Failed else Executed
    case Catalogue =>
      if !Through(a, admitted, 1) || a.catalogue.ByTool? then Skipped
      else if a.catalogue.CatalogueDown? then Failed else Executed
    case Identity => if !Through(a, admitted, 2) then Skipped else if a.assertedMatches then Executed else Failed
    case KillSwitch =>
      if !Through(a, admitted, 3) || a.advisory then Skipped else if SwitchDown(a) then Failed else Executed
    case Mandate =>
      if !Through(a, admitted, 4) || (MandateUnknown(a) && a.advisory) then Skipped
      else if MandateUnknown(a) then Failed else Executed
    case PolicyRules => if !Through(a, admitted, 5) then Skipped else if a.policy.BundleDown? then Failed else Executed
    case Risk => if a.risk.EngineDown? then Failed else Executed
    case Velocity =>
      if !Through(a, admitted, 7) || (!a.limitsUp && a.advisory) then Skipped
      else if !a.limitsUp then Failed else Executed
    case Baseline =>
      if !Through(a, admitted, 8) || a.baseline.NoExposure? || (a.baseline.BaselineDown? && a.advisory) then Skipped
      else if a.baseline.BaselineDown? then Failed else Executed
  }

  lemma ScreenRecords(a: Answers, admitted: bool)
    ensures Screen(a).1 ==
            [OnRecord(a, admitted, ToolRegistry), OnRecord(a, admitted, Catalogue), OnRecord(a, admitted, Identity),
             OnRecord(a, admitted, KillSwitch), OnRecord(a, admitted, Mandate)]
  {
    hide Grounds;
    ToolGateTells(a, admitted);
    ActionGateTells(a, admitted);
    IdentityGateTells(a, admitted);
    SwitchGateTells(a, admitted);
  }

  function OnRecord(a: Answers, admitted: bool, name: StageName): StageRecord {
    StageRecord(name, StatusOf(a, admitted, name))
  }

  lemma WeighRecords(a: Answers, admitted: bool)
    ensures Weigh(a, Screen(a)).1 == Screen(a).1 + [OnRecord(a, admitted, PolicyRules), OnRecord(a, admitted, Risk)]
  {
    hide Screen, Grounds;
    ScreenTells(a, admitted);
  }

  /** The ruling before limits passes exactly if the answers do. */
  lemma WeighPasses(a: Answers, admitted: bool)
    ensures Weigh(a, Screen(a)).0.effect == Deny <==> !Through(a, admitted, 7)
  {
    hide Screen, Weigh, Grounds;
    WeighTells(a, admitted);
  }

  lemma JudgeRecords(counters: L.Counters, env: Env, c: Case, a: Answers)
    requires counters.Valid() && env.cfg.Valid()
    ensures var admitted := Admitted(counters, env, c);
            Judge(counters, env, c, a).stages ==
            Weigh(a, Screen(a)).1 + [OnRecord(a, admitted, Velocity), OnRecord(a, admitted, Baseline)]
  {
    hide Screen, Weigh, L.TryConsume, L.Release;
    WeighPasses(a, Admitted(counters, env, c));
  }

  /** Every stage is on record, in order, with the status the answers call for. */
  lemma StagesExactly(counters: L.Counters, env: Env, c: Case, a: Answers)
    requires counters.Valid() && env.cfg.Valid()
    ensures var admitted, stages := Admitted(counters, env, c), Judge(counters, env, c, a).stages;
            |stages| == 9 && forall i :: 0 <= i < 9 ==> stages[i] == OnRecord(a, admitted, NINE[i])
  {
    hide Screen, Weigh, Judge, Admitted, StatusOf;
    var admitted := Admitted(counters, env, c);
    ScreenRecords(a, admitted);
    WeighRecords(a, admitted);
    JudgeRecords(counters, env, c, a);
  }
}
