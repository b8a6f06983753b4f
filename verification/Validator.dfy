/** `validate_proposal`: five checks, each collecting its violations. */
module Validator {
  import opened Artifacts
  import opened ScopePath
  import Text

  /** The parts of validation that are pattern tables or schema files, as predicates. */
  datatype Policy = Policy(schemaRest: Proposal -> bool, nonDeterministic: string -> bool,
      selfCertifying: string -> bool)

  datatype Violation =
    | Traversal(path: string)
    | NotAllowed(path: string)
    | Denied(path: string)
    | Undeclared(path: string)
    | NonDeterministic(testId: string)

  predicate KnownOperation(operation: string) {
    operation == "create" || operation == "modify" || operation == "delete" || operation == "append"
  }

  /** The rules of the proposal schema that later stages rely on, and the rest of it. */
  predicate SchemaConforms(p: Proposal, policy: Policy) {
    && (forall m <- p.modifications :: KnownOperation(m.operation))
    && p.targetPaths != [] && p.acceptanceTests != []
    && policy.schemaRest(p)
  }

  function ScopeViolations(p: Proposal, path: string): seq<Violation> {
    if Text.Contains(path, "..") then [Traversal(path)]
    else
      (if CoveredByAny(p.allowedPaths, path) then [] else [NotAllowed(path)])
      + (if CoveredByAny(p.deniedPaths, path) then [Denied(path)] else [])
  }

  /** What a modification path must satisfy: no `..`, under an allowed path and under no denied one. */
  predicate PathAdmitted(p: Proposal, path: string) {
    !Text.Contains(path, "..") && CoveredByAny(p.allowedPaths, path) && !CoveredByAny(p.deniedPaths, path)
  }

  /** `_check_scope_containment` */
  method CheckScopeContainment(p: Proposal) returns (violations: seq<Violation>)
    ensures violations == [] <==> forall m <- p.modifications :: PathAdmitted(p, m.path)
    ensures forall v :: v in violations <==> exists m <- p.modifications :: v in ScopeViolations(p, m.path)
  {
    violations := [];
    for i := 0 to |p.modifications|
      invariant violations == [] <==> forall k :: 0 <= k < i ==> PathAdmitted(p, p.modifications[k].path)
      invariant forall v :: v in violations <==>
                  exists k :: 0 <= k < i && v in ScopeViolations(p, p.modifications[k].path)
    {
      violations := violations + ScopeViolations(p, p.modifications[i].path);
    }
  }

  predicate IsDeclared(p: Proposal, path: string) {
    path in p.targetPaths || path in p.declaredEffects
  }

  /** `_check_undeclared_side_effects` */
  method CheckUndeclaredSideEffects(p: Proposal) returns (violations: seq<Violation>)
    ensures violations == [] <==> forall m <- p.modifications :: IsDeclared(p, m.path)
    ensures forall v <- violations :: v.Undeclared? && !IsDeclared(p, v.path)
  {
    violations := [];
    for i := 0 to |p.modifications|
      invariant violations == [] <==> forall k :: 0 <= k < i ==> IsDeclared(p, p.modifications[k].path)
      invariant forall v <- violations :: v.Undeclared? && !IsDeclared(p, v.path)
    {
      if p.modifications[i].path !in p.targetPaths {
        if p.modifications[i].path !in p.declaredEffects {
          violations := violations + [Undeclared(p.modifications[i].path)];
        }
      }
    }
  }

  /** `_check_deterministic_tests` */
  method CheckDeterministicTests(p: Proposal, policy: Policy) returns (violations: seq<Violation>)
    ensures violations == [] <==> forall t <- p.acceptanceTests :: !policy.nonDeterministic(t.command)
  {
    violations := [];
    for i := 0 to |p.acceptanceTests|
      invariant violations == [] <==> forall k :: 0 <= k < i ==> !policy.nonDeterministic(p.acceptanceTests[k].command)
    {
      if policy.nonDeterministic(p.acceptanceTests[i].command) {
        violations := violations + [NonDeterministic(p.acceptanceTests[i].testId)];
      }
    }
  }

  /** What a passed validation certifies. */
  predicate Admissible(p: Proposal, policy: Policy) {
    && SchemaConforms(p, policy)
    && (forall m <- p.modifications :: PathAdmitted(p, m.path))
    && (forall m <- p.modifications :: IsDeclared(p, m.path))
    && (forall t <- p.acceptanceTests :: !policy.nonDeterministic(t.command))
    && !policy.selfCertifying(p.intent)
  }

  /** `validate_proposal`; the result is signed whatever the verdict. */
  method ValidateProposal(p: Proposal, policy: Policy, validationId: string, keysVerify: bool)
      returns (r: ValidationResult)
    ensures r == ValidationResult(validationId, p.proposalId, Admissible(p, policy), Signed(keysVerify))
  {
    var schema := SchemaConforms(p, policy);
    var scope := CheckScopeContainment(p);
    var effects := CheckUndeclaredSideEffects(p);
    var tests := CheckDeterministicTests(p, policy);
    var selfCertified := policy.selfCertifying(p.intent);
    var allPassed := schema && scope == [] && effects == [] && tests == [] && !selfCertified;
    r := ValidationResult(validationId, p.proposalId, allPassed, Signed(keysVerify));
  }
}
