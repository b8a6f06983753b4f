/** `ToolGate`: the default-deny mediator that every operation asks. */
module ToolGate {
  import opened Prelude
  import opened Artifacts
  import opened ScopePath
  import Text

  datatype Reason = NoLease | Expired | ExplicitlyDenied | NotGranted | PathRequired | OutOfScope | Authorized

  predicate NeedsPath(capability: string) {
    capability == "FILESYSTEM_READ" || capability == "FILESYSTEM_WRITE" || capability == "REPOSITORY_MODIFICATION"
  }

  /** `_is_capability_granted` */
  predicate IsGranted(granted: map<string, Grant>, capability: string) {
    var key := LeaseKey(capability);
    key.Some? && key.value in granted &&
    var grant := granted[key.value];
    if capability == "FILESYSTEM_WRITE" then grant.write == Some(true)
    else grant.allowed != Some(false)
  }

  /** The paths of `_path_in_scope`: the lease's scope and those of the filesystem grant. */
  function ScopePaths(granted: map<string, Grant>, allowedPaths: seq<string>): seq<string> {
    allowedPaths + if "filesystem" in granted && granted["filesystem"].allowedPaths.Some?
                   then granted["filesystem"].allowedPaths.value else []
  }

  predicate PathInScope(granted: map<string, Grant>, allowedPaths: seq<string>, path: string) {
    allowedPaths != [] && WithinAnyScope(ScopePaths(granted, allowedPaths), path)
  }

  /** `CAP_MAP.get(capability, capability.lower())` */
  function DeniedKey(capability: string): string {
    match LeaseKey(capability)
    case Some(key) => key
    case None => Text.Lower(capability)
  }

  /** What a lease authorizes while it is bound and in its window. */
  predicate Authorizes(lease: Lease, capability: string, path: string) {
    && !IsDenied(lease.denied, DeniedKey(capability))
    && IsGranted(lease.granted, capability)
    && (NeedsPath(capability) ==> path != "" && PathInScope(lease.granted, lease.allowedPaths, path))
  }

  /** A request is allowed only under a bound lease that is in its window and authorizes it. */
  predicate Permits(bound: Option<Lease>, capability: string, path: string, now: int) {
    bound.Some? && InWindow(bound.value, now) && Authorizes(bound.value, capability, path)
  }

  /** A request outside the window drops the lease for good. */
  function AfterRequest(bound: Option<Lease>, now: int): Option<Lease> {
    if bound.Some? && !InWindow(bound.value, now) then None else bound
  }

  class Gate {
    var lease: Option<Lease>
    var granted: map<string, Grant>
    var allowedPaths: seq<string>
    var denied: map<string, bool>

    /** The cached fields are those of the bound lease; without a lease nothing is granted. */
    ghost predicate Valid()
      reads this
    {
      match lease
      case None => granted == map[] && allowedPaths == [] && denied == map[]
      case Some(l) => granted == l.granted && allowedPaths == l.allowedPaths && denied == l.denied
    }

    constructor ()
      ensures Valid() && lease == None
    {
      lease, granted, allowedPaths, denied := None, map[], [], map[];
    }

    /** `bind_lease`: only an active lease in its window is bound; otherwise nothing changes. */
    method BindLease(l: Lease, now: int) returns (ok: bool)
      requires Valid()
      modifies this
      ensures Valid()
      ensures ok <==> l.status == "active" && InWindow(l, now)
      ensures lease == if ok then Some(l) else old(lease)
    {
      if l.status != "active" { return false; }
      if !InWindow(l, now) { return false; }
      lease, granted, denied, allowedPaths := Some(l), l.granted, l.denied, l.allowedPaths;
      return true;
    }

    /** `unbind` */
    method Unbind()
      modifies this
      ensures Valid() && lease == None
    {
      lease, granted, allowedPaths, denied := None, map[], [], map[];
    }

    /** `request_capability`: the decision and the bound lease afterwards. */
    method RequestCapability(capability: string, path: string, now: int) returns (allowed: bool, reason: Reason)
      requires Valid()
      modifies this
      ensures Valid()
      ensures allowed <==> Permits(old(lease), capability, path, now)
      ensures allowed <==> reason == Authorized
      ensures lease == AfterRequest(old(lease), now)
    {
      if lease.None? { return false, NoLease; }
      if !InWindow(lease.value, now) {
        Unbind();
        return false, Expired;
      }
      if IsDenied(denied, DeniedKey(capability)) { return false, ExplicitlyDenied; }
      if !IsGranted(granted, capability) { return false, NotGranted; }
      if NeedsPath(capability) {
        if path == "" { return false, PathRequired; }
        if !PathInScope(granted, allowedPaths, path) { return false, OutOfScope; }
      }
      return true, Authorized;
    }
  }

  // ---------- what a permission means ----------

  /** A path the lease names: one of its own scope, or one of its filesystem grant. */
  predicate NamesScope(lease: Lease, scope: string) {
    || scope in lease.allowedPaths
    || ("filesystem" in lease.granted && lease.granted["filesystem"].allowedPaths.Some?
        && scope in lease.granted["filesystem"].allowedPaths.value)
  }

  /** The lease has a scope of its own, and the path is at or below a path that it names. */
  ghost predicate LiesInScope(lease: Lease, path: string) {
    lease.allowedPaths != [] && exists scope :: NamesScope(lease, scope) && WithinScope(scope, path)
  }

  lemma PathInScopeMeaning(lease: Lease, path: string)
    ensures PathInScope(lease.granted, lease.allowedPaths, path) <==> LiesInScope(lease, path)
  {
    var all := ScopePaths(lease.granted, lease.allowedPaths);
    forall scope ensures NamesScope(lease, scope) <==> scope in all {}
    hide WithinScope, NamesScope, ScopePaths;
    if LiesInScope(lease, path) {
      var scope :| NamesScope(lease, scope) && WithinScope(scope, path);
      var i :| 0 <= i < |all| && all[i] == scope;
    }
    if WithinAnyScope(all, path) {
      var i :| 0 <= i < |all| && WithinScope(all[i], path);
      assert NamesScope(lease, all[i]);
    }
  }

  /**
   Whoever may use a file capability on one path may use it on exactly the paths in the lease's scope;
   any other path is refused.
   */
  lemma ScopeDecides(lease: Lease, capability: string, path: string, now: int)
    requires capability in ["FILESYSTEM_READ", "FILESYSTEM_WRITE", "REPOSITORY_MODIFICATION"]
    ensures Permits(Some(lease), capability, path, now) ==> path != "" && LiesInScope(lease, path)
    ensures (exists other :: Permits(Some(lease), capability, other, now)) && path != "" && LiesInScope(lease, path) ==>
              Permits(Some(lease), capability, path, now)
  {
    PathInScopeMeaning(lease, path);
    hide LiesInScope, PathInScope, IsGranted;
  }

  /** The two capabilities that name no file are allowed or refused whatever path comes with the request. */
  lemma OthersNeedNoPath(lease: Lease, capability: string, path: string, other: string, now: int)
    requires capability in ["TEST_EXECUTION", "ARTIFACT_GENERATION"]
    ensures Permits(Some(lease), capability, path, now) <==> Permits(Some(lease), capability, other, now)
  {
  }

  /** The entry of `granted_capabilities` that each capability asks for. */
  const GRANT_ENTRIES: map<string, string> := map[
    "FILESYSTEM_READ" := "filesystem", "FILESYSTEM_WRITE" := "filesystem", "TEST_EXECUTION" := "test_execution",
    "ARTIFACT_GENERATION" := "artifact_generation", "REPOSITORY_MODIFICATION" := "repository_modification"]

  /** Default deny: a permission comes from an entry of the lease that allows it, unless that entry is denied. */
  lemma DefaultDeny(bound: Option<Lease>, capability: string, path: string, now: int)
    ensures Permits(bound, capability, path, now) ==>
              && bound.Some? && capability in GRANT_ENTRIES
              && var lease, entry := bound.value, GRANT_ENTRIES[capability];
              && (lease.validFrom.Some? ==> lease.validFrom.value <= now)
              && (lease.expiresAt.Some? ==> now <= lease.expiresAt.value)
              && entry in lease.granted && (entry in lease.denied ==> !lease.denied[entry])
              && (if capability == "FILESYSTEM_WRITE" then lease.granted[entry].write == Some(true)
                  else lease.granted[entry].allowed != Some(false))
    ensures capability in ["TEST_EXECUTION", "ARTIFACT_GENERATION"] && bound.Some?
            && !Permits(bound, capability, path, now) ==>
              var lease, entry := bound.value, GRANT_ENTRIES[capability];
              || (lease.validFrom.Some? && now < lease.validFrom.value)
              || (lease.expiresAt.Some? && lease.expiresAt.value < now)
              || entry !in lease.granted || lease.granted[entry].allowed == Some(false)
              || (entry in lease.denied && lease.denied[entry])
  {
    hide PathInScope;
  }

  // ---------- over whole sequences of requests ----------

  datatype Request = Request(capability: string, path: string, now: int)

  ghost function AfterRequests(bound: Option<Lease>, requests: seq<Request>): Option<Lease> {
    if requests == [] then bound
    else AfterRequest(AfterRequests(bound, requests[..|requests| - 1]), requests[|requests| - 1].now)
  }

  /** Until it is bound again, a gate either still holds the lease it held, or has none and allows nothing. */
  lemma {:induction false} LeaseNeverChangesHands(bound: Option<Lease>, requests: seq<Request>, capability: string,
      path: string, now: int)
    ensures var after := AfterRequests(bound, requests);
            && (after == bound || after == None)
            && (Permits(after, capability, path, now) ==> Permits(bound, capability, path, now))
            && ((exists i :: 0 <= i < |requests| && bound.Some? && !InWindow(bound.value, requests[i].now)) ==>
                  !Permits(after, capability, path, now))
  {
    hide Authorizes, InWindow;
    if requests != [] {
      LeaseNeverChangesHands(bound, requests[..|requests| - 1], capability, path, now);
    }
  }
}
