/** Leases: what is granted for a plan, and when a lease is valid. */
module LeaseManager {
  import opened Prelude
  import opened Artifacts

  /** `build_capabilities_from_plan`, which fills the granted dictionary in place. */
  method BuildCapabilities(plan: Plan) returns (granted: map<string, Grant>, denied: map<string, bool>)
    ensures granted == GrantedFor(plan) && denied == DENIED
  {
    granted := map[];
    if "FILESYSTEM_WRITE" in plan.required {
      granted := granted["filesystem" := Grant(Some(plan.allowedPaths), Some(true), None)];
    }
    if "FILESYSTEM_READ" in plan.required {
      var existing := if "filesystem" in granted then granted["filesystem"] else Grant(None, None, None);
      granted := granted["filesystem" := existing.(allowedPaths := Some(plan.allowedPaths))];
    }
    if "TEST_EXECUTION" in plan.required {
      granted := granted["test_execution" := Grant(None, None, Some(true))];
    }
    if "ARTIFACT_GENERATION" in plan.required {
      granted := granted["artifact_generation" := Grant(None, None, Some(true))];
    }
    denied := map["network_access" := true, "dependency_installation" := true];
  }

  const DENIED: map<string, bool> := map["network_access" := true, "dependency_installation" := true]

  /** The grants of a plan: reading and writing share the filesystem grant, and only writing makes it writable. */
  function GrantedFor(plan: Plan): map<string, Grant> {
    var canWrite, canRead := "FILESYSTEM_WRITE" in plan.required, "FILESYSTEM_READ" in plan.required;
    var files := Grant(Some(plan.allowedPaths), if canWrite then Some(true) else None, None);
    OneIf(canWrite || canRead, "filesystem", files)
    + OneIf("TEST_EXECUTION" in plan.required, "test_execution", Grant(None, None, Some(true)))
    + OneIf("ARTIFACT_GENERATION" in plan.required, "artifact_generation", Grant(None, None, Some(true)))
  }

  function OneIf(present: bool, key: string, grant: Grant): map<string, Grant> {
    if present then map[key := grant] else map[]
  }

  /** `issue_lease` for the capabilities built from the plan. */
  method IssueLease(plan: Plan, now: int, durationSeconds: nat, keysVerify: bool) returns (lease: Lease)
    ensures lease == LeaseFor(plan, now, durationSeconds, keysVerify)
  {
    var granted, denied := BuildCapabilities(plan);
    lease := Lease(plan.planId, granted, denied, plan.allowedPaths, |plan.steps|, Some(now),
        Some(now + durationSeconds), "active", Signed(keysVerify));
  }

  function LeaseFor(plan: Plan, now: int, durationSeconds: nat, keysVerify: bool): Lease {
    Lease(plan.planId, GrantedFor(plan), DENIED, plan.allowedPaths, |plan.steps|, Some(now),
        Some(now + durationSeconds), "active", Signed(keysVerify))
  }

  /** `check_lease_validity` */
  function IsValidLease(lease: Lease, now: int): (valid: bool)
    ensures valid <==> lease.status == "active" && InWindow(lease, now)
  {
    if lease.status == "revoked" then false
    else if lease.status == "expired" then false
    else if lease.status != "active" then false
    else if lease.validFrom.Some? && now < lease.validFrom.value then false
    else if lease.expiresAt.Some? && now > lease.expiresAt.value then false
    else true
  }
}
