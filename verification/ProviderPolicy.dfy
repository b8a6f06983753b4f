/** Which providers a capability request may be sent to. */
module ProviderPolicy {
  import opened Prelude

  datatype Constraints = Constraints(localOnly: bool, maxLatency: Option<int>, sensitivity: string,
      preferred: Option<string>)

  datatype Request = Request(capability: string, processId: string, constraints: Constraints)

  /** The registry of capabilities and the provider tables; a value, since the program keeps them as constants. */
  datatype Catalog = Catalog(registry: map<string, seq<string>>, local: set<string>, encrypted: set<string>,
      priority: map<string, int>)

  const TEXT_PROVIDERS := ["ollama", "apple_intelligence"]

  const CATALOG := Catalog(
    map["text.generate" := TEXT_PROVIDERS, "text.summarize" := TEXT_PROVIDERS, "text.classify" := TEXT_PROVIDERS,
        "speech.transcribe" := ["apple_intelligence"], "policy.evaluate" := TEXT_PROVIDERS],
    {"ollama", "apple_intelligence"},
    {"apple_intelligence"},
    map["ollama" := 1, "apple_intelligence" := 2])

  datatype Check = ProviderRegistered | CapabilitySupported | LocalOnly | SensitivityEncryption

  datatype Verdict = Verdict(allowed: bool, checks: seq<Check>)

  /** `_get_capable_providers` */
  function Capable(cat: Catalog, capability: string): seq<string> {
    if capability in cat.registry then cat.registry[capability] else []
  }

  /** What the four rules amount to. */
  predicate Allowed(cat: Catalog, req: Request, pid: string) {
    && pid in Capable(cat, req.capability)
    && (req.constraints.localOnly ==> pid in cat.local)
    && (req.constraints.sensitivity == "high" ==> pid in cat.encrypted)
  }

  ghost predicate IsKnown(cat: Catalog, pid: string) {
    exists c :: c in cat.registry && pid in cat.registry[c]
  }

  /** `evaluate`: the rules in order, stopping at the first that denies. */
  method Evaluate(cat: Catalog, req: Request, pid: string) returns (v: Verdict)
    ensures v.allowed == Allowed(cat, req, pid)
    ensures v.checks <= [ProviderRegistered, CapabilitySupported, LocalOnly, SensitivityEncryption]
    ensures v.allowed ==> |v.checks| == 4
    ensures |v.checks| == 1 <==> !IsKnown(cat, pid)
    ensures |v.checks| >= 3 <==> pid in Capable(cat, req.capability)
    ensures |v.checks| == 3 <==> pid in Capable(cat, req.capability) && req.constraints.localOnly && pid !in cat.local
  {
    var checks := [ProviderRegistered];
    var known: set<string> := {};
    var capabilities := cat.registry.Keys;
    while capabilities != {}
      invariant capabilities <= cat.registry.Keys
      invariant forall p :: p in known <==> exists c :: c in cat.registry.Keys - capabilities && p in cat.registry[c]
      decreases |capabilities|
    {
      var c := Pick(capabilities);
      known := known + set p <- cat.registry[c];
      capabilities := capabilities - {c};
    }
    assert pid in known <==> IsKnown(cat, pid);
    if pid !in known { return Verdict(false, checks); }
    checks := checks + [CapabilitySupported];
    if req.capability !in cat.registry || pid !in cat.registry[req.capability] { return Verdict(false, checks); }
    checks := checks + [LocalOnly];
    if req.constraints.localOnly && pid !in cat.local { return Verdict(false, checks); }
    checks := checks + [SensitivityEncryption];
    if req.constraints.sensitivity == "high" && pid !in cat.encrypted { return Verdict(false, checks); }
    return Verdict(true, checks);
  }

  /** The shipped registry lists at most two providers for a capability, none of them twice. */
  lemma ShippedLists(capability: string)
    ensures Distinct(Capable(CATALOG, capability)) && |Capable(CATALOG, capability)| <= 2
  {
    assert |TEXT_PROVIDERS[0]| == 6 && |TEXT_PROVIDERS[1]| == 18;
  }
}
