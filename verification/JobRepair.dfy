/** Repair of a compiled job, as JSON: defaults for missing parts, enumerations, producer references. */
module JobRepair {
  import opened Prelude

  /** JSON as Python reads it. */
  datatype Json = Null | Bool(b: bool) | Num(n: real) | Str(s: string) | Arr(items: seq<Json>) | Obj(fields: map<string,
      Json>)

  type Fields = map<string, Json>

  const ARTIFACT_TYPES := {"document", "audio", "report", "dataset", "analysis"}
  const EXECUTION_MODES := {"sequential", "parallel", "conditional"}
  const VALIDATION_ACTIONS := {"reject", "repair", "flag_for_review"}
  const EXECUTION_ACTIONS := {"stop", "retry", "partial_complete", "flag_for_review"}
  const SEVERITIES := {"low", "medium", "high", "critical"}
  const LINEAGE_FIELDS := ["enabled", "record_inputs", "record_outputs", "record_agent_lineage"]

  const DEFAULT_RETRY: Fields := map["max_retries" := Num(1.0), "retry_on_failure" := Bool(true)]
  const DEFAULT_POLICY: Fields := map["mode" := Str("sequential"), "retry_policy" := Obj(DEFAULT_RETRY)]
  const DEFAULT_HANDLING: Fields :=
      map["on_validation_failure" := Str("reject"), "on_execution_failure" := Str("flag_for_review")]
  const DEFAULT_LINEAGE: Fields :=
    map["enabled" := Bool(true), "record_inputs" := Bool(true), "record_outputs" := Bool(true),
        "record_agent_lineage" := Bool(true)]

  /** Lists and dictionaries cannot be looked up in a set: Python raises. */
  predicate IsHashable(j: Json) {
    !j.Arr? && !j.Obj?
  }

  /** Equality in Python sets: `True == 1` and `False == 0`. */
  function Key(j: Json): Json {
    match j
    case Bool(b) => Num(if b then 1.0 else 0.0)
    case _ => j
  }

  function Get(f: Fields, key: string): Json {
    if key in f then f[key] else Null
  }

  // ---------- one value at a time ----------

  predicate IsOneOf(j: Json, allowed: set<string>) {
    j.Str? && j.s in allowed
  }

  /** `if f.get(key) not in allowed: f[key] = default` */
  function FixEnum(f: Fields, key: string, allowed: set<string>, default: string): Outcome<Fields> {
    if !IsHashable(Get(f, key)) then Raised
    else if IsOneOf(Get(f, key), allowed) then Ok(f)
    else Ok(f[key := Str(default)])
  }

  function FixRetry(f: Fields): Fields {
    var rp := Get(f, "retry_policy");
    f["retry_policy" := Obj(if rp.Obj?
                            then WithDefault(WithDefault(rp.fields, "max_retries", Num(1.0)), "retry_on_failure",
                            Bool(true)) else DEFAULT_RETRY)]
  }

  function WithDefault(f: Fields, key: string, default: Json): (r: Fields)
    ensures forall k <- f :: k in r && r[k] == f[k]
    ensures key in r
  {
    if key in f then f else f[key := default]
  }

  function FixPolicy(f: Fields): Outcome<Fields> {
    match FixEnum(f, "mode", EXECUTION_MODES, "sequential")
    case Raised => Raised
    case Ok(ep) => Ok(FixRetry(ep))
  }

  function FixHandling(f: Fields): Outcome<Fields> {
    match FixEnum(f, "on_validation_failure", VALIDATION_ACTIONS, "reject")
    case Raised => Raised
    case Ok(fh) => FixEnum(fh, "on_execution_failure", EXECUTION_ACTIONS, "flag_for_review")
  }

  function FixLineage(f: Fields, keys: seq<string>): Fields {
    if keys == [] then f
    else
      var g, key := FixLineage(f, keys[..|keys| - 1]), keys[|keys| - 1];
      if Get(g, key).Bool? then g else g[key := Bool(true)]
  }

  function FixArtifact(a: Json): Outcome<Json> {
    if !a.Obj? then Ok(a)
    else
      match FixEnum(a.fields, "artifact_type", ARTIFACT_TYPES, "document")
      case Raised => Raised
      case Ok(f) => Ok(Obj(f))
  }

  function FixConstraint(c: Json): Outcome<Json> {
    if !c.Obj? || "severity" !in c.fields then Ok(c)
    else
      match FixEnum(c.fields, "severity", SEVERITIES, "medium")
      case Raised => Raised
      case Ok(f) => Ok(Obj(f))
  }

  function FixProducer(ids: set<Json>, first: Json): Json -> Outcome<Json> {
    (a: Json) =>
      if !a.Obj? then Ok(a)
      else if !IsHashable(Get(a.fields, "producer_agent")) then Raised
      else if Key(Get(a.fields, "producer_agent")) in ids then Ok(a)
      else Ok(Obj(a.fields["producer_agent" := first]))
  }

  /** A loop over a list that replaces each element in place. */
  function FixEach(fix: Json -> Outcome<Json>, items: seq<Json>): (r: Outcome<seq<Json>>)
    ensures r.Ok? ==> |r.value| == |items| && forall i :: 0 <= i < |items| ==> fix(items[i]) == Ok(r.value[i])
    ensures r.Raised? ==> exists i :: 0 <= i < |items| && fix(items[i]).Raised?
  {
    if items == [] then Ok([])
    else
      match FixEach(fix, items[..|items| - 1])
      case Raised => Raised
      case Ok(front) =>
        match fix(items[|items| - 1])
        case Raised => Raised
        case Ok(j) => Ok(front + [j])
  }

  // ---------- the agents ----------

  /** The set of the agents' ids. */
  function AgentIds(agents: seq<Json>): Outcome<set<Json>> {
    if agents == [] then Ok({})
    else
      var a := agents[|agents| - 1];
      match AgentIds(agents[..|agents| - 1])
      case Raised => Raised
      case Ok(ids) =>
        if !a.Obj? || "agent_id" !in a.fields then Ok(ids)
        else if !IsHashable(a.fields["agent_id"]) then Raised
        else Ok(ids + {Key(a.fields["agent_id"])})
  }

  function FixProducers(f: Fields): Outcome<Fields> {
    if !Get(f, "agents").Arr? || !Get(f, "artifacts").Arr? then Ok(f)
    else
      var agents := f["agents"].items;
      match AgentIds(agents)
      case Raised => Raised
      case Ok(ids) =>
        if ids == {} then Ok(f)
        else if agents == [] || !agents[0].Obj? || "agent_id" !in agents[0].fields then Raised
        else
          match FixEach(FixProducer(ids, agents[0].fields["agent_id"]), f["artifacts"].items)
          case Raised => Raised
          case Ok(items) => Ok(f["artifacts" := Arr(items)])
  }

  // ---------- the whole job ----------

  function WithDict(f: Fields, key: string, default: Fields): (r: Fields)
    ensures key in r && r[key].Obj?
    ensures forall k <- f :: k in r && (k != key ==> r[k] == f[k])
  {
    if Get(f, key).Obj? then f else f[key := Obj(default)]
  }

  function WithDefaults(job: Fields): (f: Fields)
    ensures "execution_policy" in f && f["execution_policy"].Obj?
    ensures "failure_handling" in f && f["failure_handling"].Obj?
    ensures "lineage_tracking" in f && f["lineage_tracking"].Obj?
  {
    assert "execution_policy"[0] == 'e' && "failure_handling"[0] == 'f' && "lineage_tracking"[0] == 'l';
    hide WithDict, WithDefault, Get;
    var e := WithDict(job, "execution_policy", DEFAULT_POLICY);
    var f := WithDict(e, "failure_handling", DEFAULT_HANDLING);
    var g := WithDict(f, "lineage_tracking", DEFAULT_LINEAGE);
    WithDefault(WithDefault(WithDefault(g, "constraints", Arr([])), "tools", Arr([])), "assumptions", Arr([]))
  }

  /** A list under `key` repaired element by element; anything else left alone. */
  function FixList(f: Fields, key: string, fix: Json -> Outcome<Json>): Outcome<Fields> {
    if !Get(f, key).Arr? then Ok(f)
    else
      match FixEach(fix, f[key].items)
      case Raised => Raised
      case Ok(items) => Ok(f[key := Arr(items)])
  }

  function FixSections(f: Fields): Outcome<Fields>
    requires "execution_policy" in f && f["execution_policy"].Obj?
    requires "failure_handling" in f && f["failure_handling"].Obj?
    requires "lineage_tracking" in f && f["lineage_tracking"].Obj?
  {
    match FixPolicy(f["execution_policy"].fields)
    case Raised => Raised
    case Ok(ep) =>
      match FixHandling(f["failure_handling"].fields)
      case Raised => Raised
      case Ok(fh) =>
        Ok(f["execution_policy" := Obj(ep)]["failure_handling" := Obj(fh)]
            ["lineage_tracking" := Obj(FixLineage(f["lineage_tracking"].fields, LINEAGE_FIELDS))])
  }

  function Repaired(job: Fields): Outcome<Fields> {
    match FixSections(WithDefaults(job))
    case Raised => Raised
    case Ok(a) =>
      match FixList(a, "artifacts", FixArtifact)
      case Raised => Raised
      case Ok(b) =>
        match FixList(b, "constraints", FixConstraint)
        case Raised => Raised
        case Ok(c) => FixProducers(c)
  }

  // ---------- the procedure ----------

  /** One of the loops over a list of dictionaries. */
  method RepairList(f: Fields, key: string, fix: Json -> Outcome<Json>) returns (r: Outcome<Fields>)
    ensures r == FixList(f, key, fix)
  {
    if !Get(f, key).Arr? { return Ok(f); }
    var items := f[key].items;
    for i := 0 to |items|
      invariant |items| == |f[key].items|
      invariant forall k :: i <= k < |items| ==> items[k] == f[key].items[k]
      invariant FixEach(fix, f[key].items[..i]) == Ok(items[..i])
    {
      assert f[key].items[..i + 1][..i] == f[key].items[..i];
      match fix(items[i]) {
        case Raised =>
          FixEachRaises(fix, f[key].items, i);
          return Raised;
        case Ok(j) =>
          items := items[i := j];
          assert items[..i + 1] == items[..i] + [j];
      }
    }
    assert f[key].items[..|items|] == f[key].items && items[..|items|] == items;
    return Ok(f[key := Arr(items)]);
  }

  lemma FixEachRaises(fix: Json -> Outcome<Json>, items: seq<Json>, i: nat)
    requires i < |items| && fix(items[i]).Raised?
    ensures FixEach(fix, items).Raised?
  {}

  method CollectAgentIds(agents: seq<Json>) returns (r: Outcome<set<Json>>)
    ensures r == AgentIds(agents)
  {
    var ids: set<Json> := {};
    for i := 0 to |agents|
      invariant AgentIds(agents[..i]) == Ok(ids)
    {
      assert agents[..i + 1][..i] == agents[..i];
      var a := agents[i];
      if a.Obj? && "agent_id" in a.fields {
        if !IsHashable(a.fields["agent_id"]) {
          AgentIdsRaise(agents, i + 1);
          return Raised;
        }
        ids := ids + {Key(a.fields["agent_id"])};
      }
    }
    assert agents[..|agents|] == agents;
    return Ok(ids);
  }

  lemma {:induction false} AgentIdsRaise(agents: seq<Json>, i: nat)
    requires i <= |agents| && AgentIds(agents[..i]).Raised?
    ensures AgentIds(agents).Raised?
  {
    if i < |agents| {
      assert agents[..|agents| - 1][..i] == agents[..i];
      AgentIdsRaise(agents[..|agents| - 1], i);
    } else {
      assert agents[..i] == agents;
    }
  }

  /** The missing parts of a job, and the values inside its three policy sections. */
  method RepairSections(job: Fields) returns (r: Outcome<Fields>)
    ensures r == FixSections(WithDefaults(job))
  {
    hide WithDefaults;
    var repaired := SupplyDefaults(job);
    var ep := FixPolicy(repaired["execution_policy"].fields);
    if ep.Raised? { return Raised; }
    var fh := FixHandling(repaired["failure_handling"].fields);
    if fh.Raised? { return Raised; }
    var lt := repaired["lineage_tracking"].fields;
    ghost var lineage := lt;
    hide FixPolicy, FixHandling;
    for i := 0 to |LINEAGE_FIELDS|
      invariant lt == FixLineage(lineage, LINEAGE_FIELDS[..i])
    {
      assert LINEAGE_FIELDS[..i + 1][..i] == LINEAGE_FIELDS[..i];
      if !Get(lt, LINEAGE_FIELDS[i]).Bool? {
        lt := lt[LINEAGE_FIELDS[i] := Bool(true)];
      }
    }
    assert LINEAGE_FIELDS[..|LINEAGE_FIELDS|] == LINEAGE_FIELDS;
    return Ok(repaired["execution_policy" := Obj(ep.value)]["failure_handling" := Obj(fh.value)]["lineage_tracking" :=
        Obj(lt)]);
  }

  method SupplyDefaults(job: Fields) returns (repaired: Fields)
    ensures repaired == WithDefaults(job)
  {
    hide WithDict, WithDefault;
    repaired := EnsureDict(job, "execution_policy", DEFAULT_POLICY);
    repaired := EnsureDict(repaired, "failure_handling", DEFAULT_HANDLING);
    repaired := EnsureDict(repaired, "lineage_tracking", DEFAULT_LINEAGE);
    repaired := EnsureKey(repaired, "constraints");
    repaired := EnsureKey(repaired, "tools");
    repaired := EnsureKey(repaired, "assumptions");
  }

  method EnsureDict(f: Fields, key: string, default: Fields) returns (r: Fields)
    ensures r == WithDict(f, key, default)
  {
    r := f;
    if key !in f || !f[key].Obj? {
      r := r[key := Obj(default)];
    }
  }

  method EnsureKey(f: Fields, key: string) returns (r: Fields)
    ensures r == WithDefault(f, key, Arr([]))
  {
    r := f;
    if key !in f {
      r := r[key := Arr([])];
    }
  }

  /** `repair_job` */
  method RepairJob(job: Fields) returns (r: Outcome<Fields>)
    ensures r == Repaired(job)
  {
    hide WithDefaults, FixEach;
    var sections := RepairSections(job);
    if sections.Raised? { return Raised; }
    var typed := RepairList(sections.value, "artifacts", FixArtifact);
    if typed.Raised? { return Raised; }
    var constrained := RepairList(typed.value, "constraints", FixConstraint);
    if constrained.Raised? { return Raised; }
    var f := constrained.value;
    if !Get(f, "agents").Arr? || !Get(f, "artifacts").Arr? { return Ok(f); }
    var agents := f["agents"].items;
    var ids := CollectAgentIds(agents);
    if ids.Raised? { return Raised; }
    if ids.value == {} { return Ok(f); }
    if agents == [] || !agents[0].Obj? || "agent_id" !in agents[0].fields { return Raised; }
    r := RepairList(f, "artifacts", FixProducer(ids.value, agents[0].fields["agent_id"]));
  }

  // ---------- what a repaired job looks like ----------

  ghost predicate PolicyFixed(j: Json) {
    && j.Obj? && IsOneOf(Get(j.fields, "mode"), EXECUTION_MODES)
    && var rp := Get(j.fields, "retry_policy");
    && rp.Obj? && "max_retries" in rp.fields && "retry_on_failure" in rp.fields
  }

  ghost predicate HandlingFixed(j: Json) {
    && j.Obj? && IsOneOf(Get(j.fields, "on_validation_failure"), VALIDATION_ACTIONS)
    && IsOneOf(Get(j.fields, "on_execution_failure"), EXECUTION_ACTIONS)
  }

  ghost predicate LineageFixed(j: Json) {
    j.Obj? && forall i :: 0 <= i < |LINEAGE_FIELDS| ==> Get(j.fields, LINEAGE_FIELDS[i]).Bool?
  }

  ghost predicate ArtifactFixed(a: Json) {
    a.Obj? ==> IsOneOf(Get(a.fields, "artifact_type"), ARTIFACT_TYPES)
  }

  ghost predicate ConstraintFixed(c: Json) {
    c.Obj? && "severity" in c.fields ==> IsOneOf(c.fields["severity"], SEVERITIES)
  }

  ghost predicate ProducerFixed(a: Json, ids: set<Json>) {
    a.Obj? ==> IsHashable(Get(a.fields, "producer_agent")) && Key(Get(a.fields, "producer_agent")) in ids
  }

  ghost predicate ProducersFixed(agents: Json, artifacts: Json) {
    agents.Arr? && artifacts.Arr? ==>
      && AgentIds(agents.items).Ok?
      && var ids := AgentIds(agents.items).value;
      ids != {} ==>
        && agents.items[0].Obj? && "agent_id" in agents.items[0].fields
        && forall a <- artifacts.items :: ProducerFixed(a, ids)
  }

  ghost predicate AllItems(j: Json, fixed: Json -> bool) {
    j.Arr? ==> forall i :: 0 <= i < |j.items| ==> fixed(j.items[i])
  }

  /** Every section in shape, every enumeration in range, every reference resolved. */
  ghost predicate WellShaped(f: Fields) {
    && PolicyFixed(Get(f, "execution_policy"))
    && HandlingFixed(Get(f, "failure_handling"))
    && LineageFixed(Get(f, "lineage_tracking"))
    && "constraints" in f && "tools" in f && "assumptions" in f
    && AllItems(Get(f, "artifacts"), ArtifactFixed)
    && AllItems(Get(f, "constraints"), ConstraintFixed)
    && ProducersFixed(Get(f, "agents"), Get(f, "artifacts"))
  }
}
