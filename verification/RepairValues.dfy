/** The values that a repaired job holds: valid ones are kept, and each other place gets its own default. */
module RepairValues {
  import opened Prelude
  import opened JobRepair
  import opened RepairProperties

  /** The value at a key of a section; `Null` where there is none. */
  function InsideOf(j: Json, key: string): Json {
    if j.Obj? then Get(j.fields, key) else Null
  }

  /** A value is kept when it is one of the allowed texts, and replaced by the default otherwise. */
  ghost predicate KeptOr(before: Json, after: Json, allowed: set<string>, default: string) {
    after == if before.Str? && before.s in allowed then before else Str(default)
  }

  /** A retry policy keeps what it says; one retry on failure is the default. */
  ghost predicate RetryRepaired(before: Json, after: Json) {
    && PresentOr(before, after, "max_retries", Num(1.0)) && PresentOr(before, after, "retry_on_failure", Bool(true))
    && forall k :: k != "max_retries" && k != "retry_on_failure" ==> InsideOf(after, k) == InsideOf(before, k)
  }

  ghost predicate PresentOr(before: Json, after: Json, key: string, default: Json) {
    InsideOf(after, key) == if before.Obj? && key in before.fields then before.fields[key] else default
  }

  // ---------- the three sections ----------

  lemma PolicyValues(f: Fields)
    requires FixPolicy(f).Ok?
    ensures var g := FixPolicy(f).value;
            && KeptOr(Get(f, "mode"), Get(g, "mode"), EXECUTION_MODES, "sequential")
            && RetryRepaired(Get(f, "retry_policy"), Get(g, "retry_policy"))
            && forall k :: k != "mode" && k != "retry_policy" ==> Get(g, k) == Get(f, k)
  {
    assert |"mode"| != |"retry_policy"| && |"max_retries"| != |"retry_on_failure"|;
  }

  lemma HandlingValues(f: Fields)
    requires FixHandling(f).Ok?
    ensures var g := FixHandling(f).value;
            && KeptOr(Get(f, "on_validation_failure"), Get(g, "on_validation_failure"), VALIDATION_ACTIONS, "reject")
            && KeptOr(Get(f, "on_execution_failure"), Get(g, "on_execution_failure"), EXECUTION_ACTIONS,
                      "flag_for_review")
            && forall k :: k != "on_validation_failure" && k != "on_execution_failure" ==> Get(g, k) == Get(f, k)
  {
    assert |"on_validation_failure"| != |"on_execution_failure"|;
  }

  lemma {:induction false} LineageValues(f: Fields, keys: seq<string>, k: string)
    ensures Get(FixLineage(f, keys), k) == if k in keys && !Get(f, k).Bool? then Bool(true) else Get(f, k)
  {
    if keys != [] {
      LineageValues(f, keys[..|keys| - 1], k);
      LineageValues(f, keys[..|keys| - 1], keys[|keys| - 1]);
      assert keys == keys[..|keys| - 1] + [keys[|keys| - 1]];
    }
  }

  ghost predicate PolicyRepaired(before: Json, after: Json) {
    && KeptOr(InsideOf(before, "mode"), InsideOf(after, "mode"), EXECUTION_MODES, "sequential")
    && RetryRepaired(InsideOf(before, "retry_policy"), InsideOf(after, "retry_policy"))
    && forall k :: k != "mode" && k != "retry_policy" ==> InsideOf(after, k) == InsideOf(before, k)
  }

  ghost predicate HandlingRepaired(before: Json, after: Json) {
    && KeptOr(InsideOf(before, "on_validation_failure"), InsideOf(after, "on_validation_failure"), VALIDATION_ACTIONS,
              "reject")
    && KeptOr(InsideOf(before, "on_execution_failure"), InsideOf(after, "on_execution_failure"), EXECUTION_ACTIONS,
              "flag_for_review")
    && forall k :: k != "on_validation_failure" && k != "on_execution_failure" ==>
         InsideOf(after, k) == InsideOf(before, k)
  }

  ghost predicate LineageRepaired(before: Json, after: Json) {
    forall k :: InsideOf(after, k) ==
                if k in LINEAGE_FIELDS && !InsideOf(before, k).Bool? then Bool(true) else InsideOf(before, k)
  }

  function WithSections(job: Fields): Fields {
    WithDict(WithDict(WithDict(job, "execution_policy", DEFAULT_POLICY), "failure_handling", DEFAULT_HANDLING),
             "lineage_tracking", DEFAULT_LINEAGE)
  }

  /** Supplying the lists leaves what is there alone. */
  lemma ListsKeepSections(job: Fields)
    ensures var d, g := WithDefaults(job), WithSections(job); forall k <- g :: k in d && d[k] == g[k]
  {
    hide WithDict, WithDefault;
  }

  ghost predicate SectionOr(before: Json, after: Json, default: Fields) {
    after == if before.Obj? then before else Obj(default)
  }

  lemma DefaultSections(job: Fields)
    ensures var d := WithDefaults(job);
            && SectionOr(Get(job, "execution_policy"), d["execution_policy"], DEFAULT_POLICY)
            && SectionOr(Get(job, "failure_handling"), d["failure_handling"], DEFAULT_HANDLING)
            && SectionOr(Get(job, "lineage_tracking"), d["lineage_tracking"], DEFAULT_LINEAGE)
  {
    ListsKeepSections(job);
    hide WithDefaults;
    assert "execution_policy"[0] == 'e' && "failure_handling"[0] == 'f' && "lineage_tracking"[0] == 'l';
    var e := WithDict(job, "execution_policy", DEFAULT_POLICY);
    var f := WithDict(e, "failure_handling", DEFAULT_HANDLING);
    assert WithSections(job) == WithDict(f, "lineage_tracking", DEFAULT_LINEAGE);
  }

  lemma SectionValues(job: Fields)
    requires FixSections(WithDefaults(job)).Ok?
    ensures var f := FixSections(WithDefaults(job)).value;
            && PolicyRepaired(Get(job, "execution_policy"), Get(f, "execution_policy"))
            && HandlingRepaired(Get(job, "failure_handling"), Get(f, "failure_handling"))
            && LineageRepaired(Get(job, "lineage_tracking"), Get(f, "lineage_tracking"))
  {
    DefaultSections(job);
    var d := WithDefaults(job);
    var ep, fh, lt := d["execution_policy"].fields, d["failure_handling"].fields, d["lineage_tracking"].fields;
    ThreeSections(d, Obj(FixPolicy(ep).value), Obj(FixHandling(fh).value), Obj(FixLineage(lt, LINEAGE_FIELDS)));
    hide WithDefaults, FixLineage, FixPolicy, FixHandling;
    PolicyOfSection(Get(job, "execution_policy"), ep);
    HandlingOfSection(Get(job, "failure_handling"), fh);
    LineageOfSection(Get(job, "lineage_tracking"), lt);
  }

  lemma PolicyOfSection(before: Json, f: Fields)
    requires f == (if before.Obj? then before.fields else DEFAULT_POLICY) && FixPolicy(f).Ok?
    ensures PolicyRepaired(before, Obj(FixPolicy(f).value))
  {
    PolicyValues(f);
    hide FixPolicy;
    assert |"mode"| != |"retry_policy"| && |"max_retries"| != |"retry_on_failure"|;
  }

  lemma HandlingOfSection(before: Json, f: Fields)
    requires f == (if before.Obj? then before.fields else DEFAULT_HANDLING) && FixHandling(f).Ok?
    ensures HandlingRepaired(before, Obj(FixHandling(f).value))
  {
    HandlingValues(f);
    hide FixHandling;
    assert |"on_validation_failure"| != |"on_execution_failure"|;
  }

  lemma LineageOfSection(before: Json, f: Fields)
    requires f == if before.Obj? then before.fields else DEFAULT_LINEAGE
    ensures LineageRepaired(before, Obj(FixLineage(f, LINEAGE_FIELDS)))
  {
    forall k
      ensures Get(FixLineage(f, LINEAGE_FIELDS), k)
              == if k in LINEAGE_FIELDS && !Get(f, k).Bool? then Bool(true) else Get(f, k)
    {
      LineageValues(f, LINEAGE_FIELDS, k);
    }
    hide FixLineage;
    if !before.Obj? {
      forall k ensures Get(f, k) == if k in LINEAGE_FIELDS then Bool(true) else Null {
        assert k in f <==> k in LINEAGE_FIELDS;
      }
    }
  }

  // ---------- the lists ----------

  /** The type of each artifact that is an object; the producer is stated separately. */
  ghost predicate TypesRepaired(before: Json, after: Json) {
    before.Arr? ==>
      && after.Arr? && |after.items| == |before.items|
      && forall i :: 0 <= i < |before.items| && before.items[i].Obj? ==>
           KeptOr(InsideOf(before.items[i], "artifact_type"), InsideOf(after.items[i], "artifact_type"),
                  ARTIFACT_TYPES, "document")
  }

  /** Each constraint keeps all but an invalid severity. */
  ghost predicate ConstraintsRepaired(before: Json, after: Json) {
    if !before.Arr? then after == before
    else
      && after.Arr? && |after.items| == |before.items|
      && forall i :: 0 <= i < |before.items| ==> ConstraintRepaired(before.items[i], after.items[i])
  }

  ghost predicate ConstraintRepaired(before: Json, after: Json) {
    if before.Obj? && "severity" in before.fields
    then && after.Obj? && KeptOr(before.fields["severity"], InsideOf(after, "severity"), SEVERITIES, "medium")
         && SameBut(before.fields, after.fields, "severity")
    else after == before
  }

  /** With some agent id a producer that is no agent's id becomes the first agent's; otherwise it stays. */
  ghost predicate ProducersRepaired(agents: Json, before: Json, after: Json) {
    before.Arr? ==>
      && after.Arr? && |after.items| == |before.items|
      && forall i :: 0 <= i < |before.items| && before.items[i].Obj? ==>
           var was, now := InsideOf(before.items[i], "producer_agent"), InsideOf(after.items[i], "producer_agent");
           if agents.Arr? && AgentIds(agents.items).Ok? && AgentIds(agents.items).value != {} && agents.items != []
              && Key(was) !in AgentIds(agents.items).value
           then now == InsideOf(agents.items[0], "agent_id")
           else now == was
  }

  lemma TypingValues(f: Fields)
    requires FixList(f, "artifacts", FixArtifact).Ok?
    ensures var after := Get(FixList(f, "artifacts", FixArtifact).value, "artifacts");
            TypesRepaired(Get(f, "artifacts"), after) && SameProducers(Get(f, "artifacts"), after)
  {
    if Get(f, "artifacts").Arr? {
      var before, after := f["artifacts"].items, FixEach(FixArtifact, f["artifacts"].items).value;
      assert |"artifact_type"| != |"producer_agent"|;
      assert forall i :: 0 <= i < |before| ==> FixArtifact(before[i]) == Ok(after[i]);
    }
  }

  ghost predicate SameProducers(before: Json, after: Json) {
    before.Arr? ==>
      && after.Arr? && |after.items| == |before.items|
      && forall i :: 0 <= i < |before.items| ==>
           (before.items[i].Obj? <==> after.items[i].Obj?)
           && InsideOf(after.items[i], "producer_agent") == InsideOf(before.items[i], "producer_agent")
  }

  ghost predicate SameTypes(before: Json, after: Json) {
    before.Arr? ==>
      && after.Arr? && |after.items| == |before.items|
      && forall i :: 0 <= i < |before.items| ==>
           InsideOf(after.items[i], "artifact_type") == InsideOf(before.items[i], "artifact_type")
  }

  lemma ProducingValues(f: Fields)
    requires FixProducers(f).Ok?
    ensures var before, after := Get(f, "artifacts"), Get(FixProducers(f).value, "artifacts");
            ProducersRepaired(Get(f, "agents"), before, after) && SameTypes(before, after)
  {
    var agents, artifacts := Get(f, "agents"), Get(f, "artifacts");
    if agents.Arr? && artifacts.Arr? && AgentIds(agents.items).value != {} {
      var ids, first := AgentIds(agents.items).value, agents.items[0].fields["agent_id"];
      var after := FixEach(FixProducer(ids, first), artifacts.items).value;
      assert |"artifact_type"| != |"producer_agent"|;
      assert forall i :: 0 <= i < |after| ==> FixProducer(ids, first)(artifacts.items[i]) == Ok(after[i]);
    }
  }

  lemma ConstrainingValues(f: Fields)
    requires FixList(f, "constraints", FixConstraint).Ok?
    ensures var g := FixList(f, "constraints", FixConstraint).value;
            ConstraintsRepaired(Get(f, "constraints"), Get(g, "constraints"))
  {
    if Get(f, "constraints").Arr? {
      var before, after := f["constraints"].items, FixEach(FixConstraint, f["constraints"].items).value;
      forall i | 0 <= i < |before| ensures ConstraintRepaired(before[i], after[i]) {
        assert FixConstraint(before[i]) == Ok(after[i]);
      }
    }
  }

  // ---------- the whole job ----------

  lemma ListsSupplied(job: Fields, k: string)
    requires FixSections(WithDefaults(job)).Ok? && k in ["constraints", "tools", "assumptions"]
    ensures Get(FixSections(WithDefaults(job)).value, k) == if k in job then job[k] else Arr([])
  {
    var e := WithDict(job, "execution_policy", DEFAULT_POLICY);
    var f := WithDict(e, "failure_handling", DEFAULT_HANDLING);
    var g := WithDict(f, "lineage_tracking", DEFAULT_LINEAGE);
    DictKeepsRest(job, "execution_policy", DEFAULT_POLICY, k);
    DictKeepsRest(e, "failure_handling", DEFAULT_HANDLING, k);
    DictKeepsRest(f, "lineage_tracking", DEFAULT_LINEAGE, k);
    hide WithDict;
    ThreeListsSupplied(g, k);
    assert Get(WithDefaults(job), k) == if k in job then job[k] else Arr([]);
    hide WithDefaults, FixPolicy, FixHandling, FixLineage;
    assert k != "execution_policy" && k != "failure_handling" && k != "lineage_tracking";
  }

  lemma ThreeListsSupplied(g: Fields, k: string)
    requires k in ["constraints", "tools", "assumptions"]
    ensures Get(WithDefault(WithDefault(WithDefault(g, "constraints", Arr([])), "tools", Arr([])), "assumptions",
                            Arr([])), k)
            == if k in g then g[k] else Arr([])
  {
    assert |"constraints"| == |"assumptions"| == 11 && |"tools"| == 5 && "constraints"[0] != "assumptions"[0];
  }

  ghost predicate AreStages(a: Fields, b: Fields, c: Fields) {
    && FixList(a, "artifacts", FixArtifact) == Ok(b) && FixList(b, "constraints", FixConstraint) == Ok(c)
    && FixProducers(c).Ok?
  }

  lemma RepairStages(job: Fields) returns (a: Fields, b: Fields, c: Fields)
    requires Repaired(job).Ok?
    ensures FixSections(WithDefaults(job)) == Ok(a) && AreStages(a, b, c) && Repaired(job) == FixProducers(c)
  {
    hide FixSections, WithDefaults, FixList, FixProducers;
    a := FixSections(WithDefaults(job)).value;
    b := FixList(a, "artifacts", FixArtifact).value;
    c := FixList(b, "constraints", FixConstraint).value;
  }

  lemma LaterStagesKeep(a: Fields, b: Fields, c: Fields, k: string)
    requires AreStages(a, b, c) && k != "artifacts" && k != "constraints"
    ensures Get(FixProducers(c).value, k) == Get(a, k) && Get(c, k) == Get(a, k)
  {
    hide FixList, FixProducers;
    ListFrame(a, "artifacts", FixArtifact, k);
    ListFrame(b, "constraints", FixConstraint, k);
    ProducersFrame(c, k);
  }

  lemma ConstraintsLast(a: Fields, b: Fields, c: Fields)
    requires AreStages(a, b, c)
    ensures ConstraintsRepaired(Get(a, "constraints"), Get(FixProducers(c).value, "constraints"))
  {
    hide FixList, FixProducers, ConstraintsRepaired;
    DistinctKeys();
    ListFrame(a, "artifacts", FixArtifact, "constraints");
    ConstrainingValues(b);
    ProducersFrame(c, "constraints");
  }

  lemma ArtifactsLast(a: Fields, b: Fields, c: Fields)
    requires AreStages(a, b, c)
    ensures var after := Get(FixProducers(c).value, "artifacts");
            TypesRepaired(Get(a, "artifacts"), after) && ProducersRepaired(Get(c, "agents"), Get(a, "artifacts"), after)
  {
    TypingValues(a);
    ProducingValues(c);
    DistinctKeys();
    ListFrame(b, "constraints", FixConstraint, "artifacts");
    hide FixList, FixProducers, KeptOr, InsideOf, Key, AgentIds;
  }

  /** Every value that repair may set: kept where valid, and otherwise the default of its own place. */
  lemma {:induction false} RepairedValues(job: Fields)
    requires Repaired(job).Ok?
    ensures var r := Repaired(job).value;
            && PolicyRepaired(Get(job, "execution_policy"), Get(r, "execution_policy"))
            && HandlingRepaired(Get(job, "failure_handling"), Get(r, "failure_handling"))
            && LineageRepaired(Get(job, "lineage_tracking"), Get(r, "lineage_tracking"))
            && Get(r, "tools") == (if "tools" in job then job["tools"] else Arr([]))
            && Get(r, "assumptions") == (if "assumptions" in job then job["assumptions"] else Arr([]))
            && ConstraintsRepaired(if "constraints" in job then job["constraints"] else Arr([]), Get(r, "constraints"))
            && TypesRepaired(Get(job, "artifacts"), Get(r, "artifacts"))
            && ProducersRepaired(Get(job, "agents"), Get(job, "artifacts"), Get(r, "artifacts"))
  {
    hide *;
    var a, b, c := RepairStages(job);
    SectionValues(job);
    ListsSupplied(job, "constraints");
    ListsSupplied(job, "tools");
    ListsSupplied(job, "assumptions");
    SectionsKeepArtifacts(job);
    SectionsKeepRest(job, "agents");
    LaterStagesKeep(a, b, c, "execution_policy");
    LaterStagesKeep(a, b, c, "failure_handling");
    LaterStagesKeep(a, b, c, "lineage_tracking");
    LaterStagesKeep(a, b, c, "tools");
    LaterStagesKeep(a, b, c, "assumptions");
    LaterStagesKeep(a, b, c, "agents");
    ConstraintsLast(a, b, c);
    ArtifactsLast(a, b, c);
  }
}
