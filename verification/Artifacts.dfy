/** The artifacts that the governed runtime passes from stage to stage. */
module Artifacts {
  import opened Prelude

  /** Signing is abstract: a signature is missing, or present and either verifies or not. */
  datatype Signature = Unsigned | Signed(verifies: bool)

  datatype Modification = Modification(path: string, operation: string, content: string)

  datatype AcceptanceTest = AcceptanceTest(testId: string, command: string)

  datatype Proposal = Proposal(
    proposalId: string,
    source: string,
    intent: string,
    targetPaths: seq<string>,
    modifications: seq<Modification>,
    acceptanceTests: seq<AcceptanceTest>,
    allowedPaths: seq<string>,
    deniedPaths: seq<string>,
    declaredEffects: seq<string>)

  datatype ValidationResult = ValidationResult(validationId: string, proposalId: string, passed: bool,
      signature: Signature)

  datatype Step = Step(stepId: string, operation: string, path: string, content: string, capability: string)

  datatype Plan = Plan(
    planId: string,
    proposalId: string,
    validationId: string,
    steps: seq<Step>,
    required: set<string>,
    allowedPaths: seq<string>,
    signature: Signature)

  /** The configuration a lease grants for one capability key; absent keys are `None`. */
  datatype Grant = Grant(allowedPaths: Option<seq<string>>, write: Option<bool>, allowed: Option<bool>)

  datatype Lease = Lease(
    planId: string,
    granted: map<string, Grant>,
    denied: map<string, bool>,
    allowedPaths: seq<string>,
    maxFilesModified: nat,
    validFrom: Option<int>,
    expiresAt: Option<int>,
    status: string,
    signature: Signature)

  /** `CAP_MAP`, the same table in the execution gate and in the ToolGate. */
  function LeaseKey(capability: string): Option<string> {
    if capability == "FILESYSTEM_READ" || capability == "FILESYSTEM_WRITE" then Some("filesystem")
    else if capability == "TEST_EXECUTION" then Some("test_execution")
    else if capability == "ARTIFACT_GENERATION" then Some("artifact_generation")
    else if capability == "REPOSITORY_MODIFICATION" then Some("repository_modification")
    else None
  }

  predicate IsDenied(denied: map<string, bool>, key: string) {
    key in denied && denied[key]
  }

  /** The time window of a lease; a missing bound does not restrict. */
  predicate InWindow(lease: Lease, now: int) {
    && (lease.validFrom.Some? ==> lease.validFrom.value <= now)
    && (lease.expiresAt.Some? ==> now <= lease.expiresAt.value)
  }
}
