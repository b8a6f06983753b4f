/** `ExecutionGate.check`: the trust chain between plan, validation result and lease. */
module ExecutionGate {
  import opened Prelude
  import opened Artifacts
  import opened ScopePath
  import LeaseManager

  datatype Failure =
    | PlanUnsigned | PlanSignature
    | ValidationUnsigned | ValidationSignature
    | ProposalMismatch | ValidationMismatch
    | LeaseInvalid | LeaseBinding
    | UnknownCapability(capability: string)
    | NotGranted(capability: string)
    | ExplicitlyDenied(capability: string)
    | ScopeNotCovered(path: string)
    | LeaseUnsigned | LeaseSignature
    | ValidationNotPassed

  /** When each failure applies; no check depends on another having passed. */
  ghost predicate Applies(f: Failure, plan: Plan, v: ValidationResult, lease: Lease, now: int) {
    match f
    case PlanUnsigned => plan.signature.Unsigned?
    case PlanSignature => plan.signature == Signed(false)
    case ValidationUnsigned => v.signature.Unsigned?
    case ValidationSignature => v.signature == Signed(false)
    case ProposalMismatch => plan.proposalId != v.proposalId
    case ValidationMismatch => plan.validationId != v.validationId
    case LeaseInvalid => lease.status != "active" || !InWindow(lease, now)
    case LeaseBinding => lease.planId != plan.planId
    case UnknownCapability(c) => c in plan.required && LeaseKey(c).None?
    case NotGranted(c) => c in plan.required && LeaseKey(c).Some? && LeaseKey(c).value !in lease.granted
    case ExplicitlyDenied(c) => c in plan.required && LeaseKey(c).Some? && IsDenied(lease.denied, LeaseKey(c).value)
    case ScopeNotCovered(p) => p in plan.allowedPaths && lease.allowedPaths != []
        && !CoveredByAny(lease.allowedPaths, p)
    case LeaseUnsigned => lease.signature.Unsigned?
    case LeaseSignature => lease.signature == Signed(false)
    case ValidationNotPassed => !v.passed
  }

  function SignatureFailures(s: Signature, missing: Failure, bad: Failure): seq<Failure> {
    if s.Unsigned? then [missing] else if s.verifies then [] else [bad]
  }

  function When(condition: bool, f: Failure): seq<Failure> {
    if condition then [f] else []
  }

  function CapabilityFailures(c: string, lease: Lease): seq<Failure> {
    var key := LeaseKey(c);
    if key.None? then [UnknownCapability(c)]
    else When(key.value !in lease.granted, NotGranted(c)) + When(IsDenied(lease.denied, key.value), ExplicitlyDenied(c))
  }

  /** Check 7, for every required capability. */
  method CheckCapabilities(plan: Plan, lease: Lease) returns (failures: seq<Failure>)
    ensures forall f :: f in failures <==> exists c <- plan.required :: f in CapabilityFailures(c, lease)
  {
    failures := [];
    var left := plan.required;
    while left != {}
      invariant left <= plan.required
      invariant forall f :: f in failures <==>
                  exists c :: c in plan.required && c !in left && f in CapabilityFailures(c, lease)
      decreases |left|
    {
      var c := Pick(left);
      failures := failures + CapabilityFailures(c, lease);
      left := left - {c};
    }
  }

  /** Check 8, skipped when either scope is empty. */
  method CheckScope(plan: Plan, lease: Lease) returns (failures: seq<Failure>)
    ensures forall f :: f in failures <==>
              f.ScopeNotCovered? && f.path in plan.allowedPaths && lease.allowedPaths != []
                  && !CoveredByAny(lease.allowedPaths, f.path)
  {
    failures := [];
    if plan.allowedPaths != [] && lease.allowedPaths != [] {
      for i := 0 to |plan.allowedPaths|
        invariant forall f :: f in failures <==>
                    f.ScopeNotCovered? && f.path in plan.allowedPaths[..i] && !CoveredByAny(lease.allowedPaths, f.path)
      {
        assert plan.allowedPaths[..i + 1] == plan.allowedPaths[..i] + [plan.allowedPaths[i]];
        if !CoveredByAny(lease.allowedPaths, plan.allowedPaths[i]) {
          failures := failures + [ScopeNotCovered(plan.allowedPaths[i])];
        }
      }
      assert plan.allowedPaths[..|plan.allowedPaths|] == plan.allowedPaths;
    }
  }

  /** `ExecutionGate.check`: exactly the failures that apply are collected, and none means allowed. */
  method Check(plan: Plan, v: ValidationResult, lease: Lease, now: int) returns (allowed: bool, failures: seq<Failure>)
    ensures forall f :: f in failures <==> Applies(f, plan, v, lease, now)
    ensures allowed <==> failures == []
  {
    var before := PlanFailures(plan, v, lease, now);
    var capabilities := CheckCapabilities(plan, lease);
    var scope := CheckScope(plan, lease);
    var after := SignatureFailures(lease.signature, LeaseUnsigned, LeaseSignature)
        + When(!v.passed, ValidationNotPassed);
    failures := before + capabilities + scope + after;
    allowed := |failures| == 0;
    hide PlanFailures, SignatureFailures, When, CapabilityFailures, CoveredByAny;
    forall f ensures f in failures <==> Applies(f, plan, v, lease, now) {
      CapabilityFailureApplies(f, plan, v, lease, now);
      PlanFailureApplies(f, plan, v, lease, now);
      LeaseFailureApplies(f, plan, v, lease, now);
    }
  }

  /** Checks 1 to 6. */
  function PlanFailures(plan: Plan, v: ValidationResult, lease: Lease, now: int): seq<Failure> {
    SignatureFailures(plan.signature, PlanUnsigned, PlanSignature)
    + SignatureFailures(v.signature, ValidationUnsigned, ValidationSignature)
    + When(plan.proposalId != v.proposalId, ProposalMismatch)
    + When(plan.validationId != v.validationId, ValidationMismatch)
    + When(!LeaseManager.IsValidLease(lease, now), LeaseInvalid)
    + When(lease.planId != plan.planId, LeaseBinding)
  }

  lemma PlanFailureApplies(f: Failure, plan: Plan, v: ValidationResult, lease: Lease, now: int)
    ensures f in PlanFailures(plan, v, lease, now) <==>
            && (f.PlanUnsigned? || f.PlanSignature? || f.ValidationUnsigned? || f.ValidationSignature?
                || f.ProposalMismatch? || f.ValidationMismatch? || f.LeaseInvalid? || f.LeaseBinding?)
            && Applies(f, plan, v, lease, now)
  {}

  lemma LeaseFailureApplies(f: Failure, plan: Plan, v: ValidationResult, lease: Lease, now: int)
    ensures f in SignatureFailures(lease.signature, LeaseUnsigned, LeaseSignature)
            + When(!v.passed, ValidationNotPassed) <==>
            (f.LeaseUnsigned? || f.LeaseSignature? || f.ValidationNotPassed?) && Applies(f, plan, v, lease, now)
  {}

  lemma CapabilityFailureApplies(f: Failure, plan: Plan, v: ValidationResult, lease: Lease, now: int)
    ensures (exists c <- plan.required :: f in CapabilityFailures(c, lease)) <==>
            (f.UnknownCapability? || f.NotGranted? || f.ExplicitlyDenied?) && Applies(f, plan, v, lease, now)
  {
    if (f.UnknownCapability? || f.NotGranted? || f.ExplicitlyDenied?) && Applies(f, plan, v, lease, now) {
      assert f in CapabilityFailures(f.capability, lease);
    }
  }
}
