/** What a repaired job looks like, that repairing it again changes nothing, and what repair leaves alone. */
module RepairProperties {
  import opened Prelude
  import opened JobRepair

  /** `f` and `g` differ at `key` at most. */
  ghost predicate SameBut(f: Fields, g: Fields, key: string) {
    forall k :: k != key ==> ((k in f <==> k in g) && Get(f, k) == Get(g, k))
  }

  ghost predicate SameAt(f: Fields, g: Fields, k: string) {
    (k in f <==> k in g) && Get(f, k) == Get(g, k)
  }

  // ---------- repaired jobs are well shaped ----------

  lemma {:induction false} LineageIsFixed(f: Fields, keys: seq<string>, i: nat)
    requires i < |keys|
    ensures Get(FixLineage(f, keys), keys[i]).Bool?
  {
    if i < |keys| - 1 {
      LineageIsFixed(f, keys[..|keys| - 1], i);
    }
  }

  lemma FixedHandling(f: Fields)
    requires FixHandling(f).Ok?
    ensures HandlingFixed(Obj(FixHandling(f).value))
  {
    assert |"on_validation_failure"| != |"on_execution_failure"|;
  }

  lemma FixedPolicy(f: Fields)
    requires FixPolicy(f).Ok?
    ensures PolicyFixed(Obj(FixPolicy(f).value))
  {
    assert |"mode"| != |"retry_policy"|;
  }

  /** Every key outside the six that get defaults keeps its value. */
  lemma SectionsKeepRest(job: Fields, k: string)
    requires FixSections(WithDefaults(job)).Ok?
    requires k !in {"execution_policy", "failure_handling", "lineage_tracking", "constraints", "tools", "assumptions"}
    ensures var f := FixSections(WithDefaults(job)).value;
            (k in f <==> k in job) && Get(f, k) == Get(job, k)
  {
    hide FixPolicy, FixHandling, FixLineage, WithDict, WithDefault;
    DefaultsKeepRest(job, k);
  }

  lemma DefaultsKeepRest(job: Fields, k: string)
    requires k !in {"execution_policy", "failure_handling", "lineage_tracking", "constraints", "tools", "assumptions"}
    ensures (k in WithDefaults(job) <==> k in job) && Get(WithDefaults(job), k) == Get(job, k)
  {
    var e := WithDict(job, "execution_policy", DEFAULT_POLICY);
    DictKeepsRest(job, "execution_policy", DEFAULT_POLICY, k);
    var f := WithDict(e, "failure_handling", DEFAULT_HANDLING);
    DictKeepsRest(e, "failure_handling", DEFAULT_HANDLING, k);
    var g := WithDict(f, "lineage_tracking", DEFAULT_LINEAGE);
    DictKeepsRest(f, "lineage_tracking", DEFAULT_LINEAGE, k);
    hide WithDict, Get;
  }

  lemma DictKeepsRest(f: Fields, key: string, default: Fields, k: string)
    requires k != key
    ensures (k in WithDict(f, key, default) <==> k in f) && Get(WithDict(f, key, default), k) == Get(f, k)
  {}

  ghost predicate SectionsFixed(f: Fields) {
    && PolicyFixed(Get(f, "execution_policy")) && HandlingFixed(Get(f, "failure_handling"))
    && LineageFixed(Get(f, "lineage_tracking"))
    && "constraints" in f && "tools" in f && "assumptions" in f
  }

  lemma {:induction false} SectionsAreFixed(job: Fields)
    requires FixSections(WithDefaults(job)).Ok?
    ensures SectionsFixed(FixSections(WithDefaults(job)).value)
  {
    var d := WithDefaults(job);
    FixedPolicy(d["execution_policy"].fields);
    FixedHandling(d["failure_handling"].fields);
    FixedLineage(d["lineage_tracking"].fields);
    DefaultsSupplied(job);
    hide PolicyFixed, HandlingFixed, LineageFixed, FixPolicy, FixHandling, FixLineage, WithDefaults, Get;
    ThreeSections(d, Obj(FixPolicy(d["execution_policy"].fields).value),
        Obj(FixHandling(d["failure_handling"].fields).value),
                  Obj(FixLineage(d["lineage_tracking"].fields, LINEAGE_FIELDS)));
  }

  lemma ThreeSections(d: Fields, ep: Json, fh: Json, lt: Json)
    ensures var f := d["execution_policy" := ep]["failure_handling" := fh]["lineage_tracking" := lt];
            && Get(f, "execution_policy") == ep && Get(f, "failure_handling") == fh && Get(f, "lineage_tracking") == lt
            && d.Keys <= f.Keys
  {
    assert "execution_policy"[0] == 'e' && "failure_handling"[0] == 'f' && "lineage_tracking"[0] == 'l';
  }

  lemma FixedLineage(f: Fields)
    ensures LineageFixed(Obj(FixLineage(f, LINEAGE_FIELDS)))
  {
    forall i | 0 <= i < |LINEAGE_FIELDS| ensures Get(FixLineage(f, LINEAGE_FIELDS), LINEAGE_FIELDS[i]).Bool? {
      LineageIsFixed(f, LINEAGE_FIELDS, i);
    }
  }

  lemma SectionsKept(f: Fields, g: Fields, key: string)
    requires SectionsFixed(f) && SameBut(f, g, key) && (key in f ==> key in g)
    requires key == "artifacts" || key == "constraints"
    ensures SectionsFixed(g)
  {
    hide PolicyFixed, HandlingFixed, LineageFixed;
    assert "execution_policy"[0] == 'e' && "failure_handling"[0] == 'f' && "lineage_tracking"[0] == 'l'
        && "tools"[0] == 't';
    assert |"artifacts"| == 9 && |"constraints"| == |"assumptions"| && "constraints"[0] != "assumptions"[0];
  }

  lemma DefaultsSupplied(job: Fields)
    ensures "constraints" in WithDefaults(job) && "tools" in WithDefaults(job) && "assumptions" in WithDefaults(job)
  {
    hide WithDict;
  }

  lemma FixedList(f: Fields, key: string, fix: Json -> Outcome<Json>, fixed: Json -> bool)
    requires FixList(f, key, fix).Ok?
    requires forall x, y :: fix(x) == Ok(y) ==> fixed(y)
    ensures AllItems(Get(FixList(f, key, fix).value, key), fixed)
    ensures SameBut(f, FixList(f, key, fix).value, key) && (key in f ==> key in FixList(f, key, fix).value)
  {}

  lemma FixedProducers(f: Fields)
    requires FixProducers(f).Ok?
    requires AllItems(Get(f, "artifacts"), ArtifactFixed)
    ensures var g := FixProducers(f).value;
            && SameBut(f, g, "artifacts") && ("artifacts" in f ==> "artifacts" in g)
               && AllItems(Get(g, "artifacts"), ArtifactFixed)
            && ProducersFixed(Get(g, "agents"), Get(g, "artifacts"))
  {
    var agents, artifacts := Get(f, "agents"), Get(f, "artifacts");
    assert |"agents"| != |"artifacts"|;
    if agents.Arr? && artifacts.Arr? && AgentIds(agents.items).value != {} {
      var ids, first := AgentIds(agents.items).value, agents.items[0].fields["agent_id"];
      FirstIsMember(agents.items);
      var items := FixEach(FixProducer(ids, first), artifacts.items).value;
      forall i | 0 <= i < |items| ensures ArtifactFixed(items[i]) && ProducerFixed(items[i], ids) {
        ProducerIsFixed(artifacts.items[i], ids, first);
      }
    }
  }

  lemma ProducerIsFixed(a: Json, ids: set<Json>, first: Json)
    requires FixProducer(ids, first)(a).Ok? && ArtifactFixed(a) && IsHashable(first) && Key(first) in ids
    ensures var b := FixProducer(ids, first)(a).value; ArtifactFixed(b) && ProducerFixed(b, ids)
  {
    assert |"producer_agent"| != |"artifact_type"|;
  }

  lemma {:induction false} FirstIsMember(agents: seq<Json>)
    requires AgentIds(agents).Ok? && agents != [] && agents[0].Obj? && "agent_id" in agents[0].fields
    ensures IsHashable(agents[0].fields["agent_id"]) && Key(agents[0].fields["agent_id"]) in AgentIds(agents).value
  {
    if |agents| > 1 {
      FirstIsMember(agents[..|agents| - 1]);
    }
  }

  lemma {:induction false} RepairedIsWellShaped(job: Fields)
    requires Repaired(job).Ok?
    ensures WellShaped(Repaired(job).value)
  {
    hide PolicyFixed, HandlingFixed, LineageFixed, FixSections, WithDefaults, FixProducers, FixList, AllItems,
        ProducersFixed, SectionsFixed;
    var a := FixSections(WithDefaults(job)).value;
    SectionsAreFixed(job);
    FixedList(a, "artifacts", FixArtifact, ArtifactFixed);
    var b := FixList(a, "artifacts", FixArtifact).value;
    SectionsKept(a, b, "artifacts");
    FixedList(b, "constraints", FixConstraint, ConstraintFixed);
    var c := FixList(b, "constraints", FixConstraint).value;
    SectionsKept(b, c, "constraints");
    assert Get(c, "artifacts") == Get(b, "artifacts") by { DistinctKeys(); }
    FixedProducers(c);
    var d := FixProducers(c).value;
    SectionsKept(c, d, "artifacts");
    assert Get(d, "constraints") == Get(c, "constraints") by { DistinctKeys(); }
    ShapeOf(d);
  }

  lemma ShapeOf(f: Fields)
    requires SectionsFixed(f) && AllItems(Get(f, "artifacts"), ArtifactFixed)
             && AllItems(Get(f, "constraints"), ConstraintFixed)
    requires ProducersFixed(Get(f, "agents"), Get(f, "artifacts"))
    ensures WellShaped(f)
  {
    hide PolicyFixed, HandlingFixed, LineageFixed, AllItems, ProducersFixed;
  }

  lemma DistinctKeys()
    ensures "artifacts" != "constraints" && "artifacts" != "agents" && "constraints" != "agents"
  {
    assert |"artifacts"| == 9 && |"constraints"| == 11 && |"agents"| == 6;
  }

  // ---------- well-shaped jobs are left as they are ----------

  lemma {:induction false} LineageStays(f: Fields, keys: seq<string>)
    requires forall i :: 0 <= i < |keys| ==> Get(f, keys[i]).Bool?
    ensures FixLineage(f, keys) == f
  {
    if keys != [] {
      LineageStays(f, keys[..|keys| - 1]);
    }
  }

  lemma PolicyStays(j: Json)
    requires PolicyFixed(j)
    ensures FixPolicy(j.fields) == Ok(j.fields)
  {
    var f := j.fields;
    assert FixRetry(f) == f["retry_policy" := f["retry_policy"]] == f;
  }

  lemma ListStays(f: Fields, key: string, fix: Json -> Outcome<Json>, fixed: Json -> bool)
    requires forall x :: fixed(x) ==> fix(x) == Ok(x)
    requires AllItems(Get(f, key), fixed)
    ensures FixList(f, key, fix) == Ok(f)
  {
    if Get(f, key).Arr? {
      EachStays(fix, f[key].items);
      assert f[key := f[key]] == f;
    }
  }

  lemma {:induction false} EachStays(fix: Json -> Outcome<Json>, items: seq<Json>)
    requires forall i :: 0 <= i < |items| ==> fix(items[i]) == Ok(items[i])
    ensures FixEach(fix, items) == Ok(items)
  {
    if items != [] {
      EachStays(fix, items[..|items| - 1]);
      assert items == items[..|items| - 1] + [items[|items| - 1]];
    }
  }

  lemma SectionsStay(f: Fields)
    requires SectionsFixed(f)
    ensures WithDefaults(f) == f && FixSections(f) == Ok(f)
  {
    hide IsOneOf;
    PolicyStays(f["execution_policy"]);
    LineageStays(f["lineage_tracking"].fields, LINEAGE_FIELDS);
    assert FixHandling(f["failure_handling"].fields) == Ok(f["failure_handling"].fields)
        by { HandlingStays(f["failure_handling"]); }
    hide FixPolicy, FixHandling, FixLineage;
    assert f["execution_policy" := f["execution_policy"]] == f;
    assert f["failure_handling" := f["failure_handling"]] == f;
    assert f["lineage_tracking" := f["lineage_tracking"]] == f;
  }

  lemma HandlingStays(j: Json)
    requires HandlingFixed(j)
    ensures FixHandling(j.fields) == Ok(j.fields)
  {}

  lemma ProducersStay(f: Fields)
    requires ProducersFixed(Get(f, "agents"), Get(f, "artifacts"))
    ensures FixProducers(f) == Ok(f)
  {
    var agents, artifacts := Get(f, "agents"), Get(f, "artifacts");
    if agents.Arr? && artifacts.Arr? && AgentIds(agents.items).value != {} {
      var ids, first := AgentIds(agents.items).value, agents.items[0].fields["agent_id"];
      forall i | 0 <= i < |artifacts.items|
          ensures FixProducer(ids, first)(artifacts.items[i]) == Ok(artifacts.items[i]) {
        assert ProducerFixed(artifacts.items[i], ids);
      }
      EachStays(FixProducer(ids, first), artifacts.items);
      assert f["artifacts" := f["artifacts"]] == f;
    }
  }

  /** The fixed points of repair are exactly the well-shaped jobs; so repairing twice is repairing once. */
  lemma {:induction false} FixedPointIsWellShaped(f: Fields)
    ensures Repaired(f) == Ok(f) <==> WellShaped(f)
  {
    if Repaired(f) == Ok(f) {
      RepairedIsWellShaped(f);
    }
    if WellShaped(f) {
      hide PolicyFixed, HandlingFixed, LineageFixed, FixSections, WithDefaults, FixProducers, FixList, AllItems,
          ProducersFixed;
      SectionsStay(f);
      ListStays(f, "artifacts", FixArtifact, ArtifactFixed);
      ListStays(f, "constraints", FixConstraint, ConstraintFixed);
      ProducersStay(f);
    }
  }

  lemma {:induction false} RepairIsIdempotent(job: Fields)
    requires Repaired(job).Ok?
    ensures Repaired(Repaired(job).value) == Repaired(job)
  {
    RepairedIsWellShaped(job);
    FixedPointIsWellShaped(Repaired(job).value);
  }

  // ---------- what repair leaves alone ----------

  lemma ListFrame(f: Fields, key: string, fix: Json -> Outcome<Json>, k: string)
    requires FixList(f, key, fix).Ok? && k != key
    ensures SameAt(f, FixList(f, key, fix).value, k)
  {}

  lemma ProducersFrame(f: Fields, k: string)
    requires FixProducers(f).Ok? && k != "artifacts"
    ensures SameAt(f, FixProducers(f).value, k)
  {}

  /** The objective, the agents and every other field but seven are as they were. */
  lemma {:induction false} RepairKeepsRest(job: Fields, k: string)
    requires Repaired(job).Ok?
    requires k !in {"execution_policy", "failure_handling", "lineage_tracking", "constraints", "tools", "assumptions",
             "artifacts"}
    ensures var r := Repaired(job).value;
            (k in r <==> k in job) && Get(r, k) == Get(job, k)
  {
    SectionsKeepRest(job, k);
    hide FixSections, WithDefaults, FixList, FixProducers, SameAt;
    var a := FixSections(WithDefaults(job)).value;
    var b := FixList(a, "artifacts", FixArtifact).value;
    var c := FixList(b, "constraints", FixConstraint).value;
    ListFrame(a, "artifacts", FixArtifact, k);
    ListFrame(b, "constraints", FixConstraint, k);
    ProducersFrame(c, k);
    SameAtChain(a, b, c, k);
    SameAtChain(a, c, FixProducers(c).value, k);
    SameAtMeaning(a, FixProducers(c).value, k);
  }

  lemma SameAtMeaning(f: Fields, g: Fields, k: string)
    requires SameAt(f, g, k)
    ensures (k in f <==> k in g) && Get(f, k) == Get(g, k)
  {}

  /** Artifacts are neither added nor dropped, and inside one only its type and its producer may change. */
  lemma {:induction false} RepairKeepsArtifacts(job: Fields)
    requires Repaired(job).Ok?
    ensures SameArtifacts(Get(job, "artifacts"), Get(Repaired(job).value, "artifacts"))
  {
    hide FixSections, WithDefaults, FixList, FixProducers, Get, SameArtifacts;
    var a := FixSections(WithDefaults(job)).value;
    assert Get(a, "artifacts") == Get(job, "artifacts") by { SectionsKeepArtifacts(job); }
    var b := FixList(a, "artifacts", FixArtifact).value;
    TypingKeepsArtifacts(a);
    var c := FixList(b, "constraints", FixConstraint).value;
    assert Get(c, "artifacts") == Get(b, "artifacts")
        by { DistinctKeys(); ListFrame(b, "constraints", FixConstraint, "artifacts");
        SameAtMeaning(b, c, "artifacts"); }
    ProducingKeepsArtifacts(c);
    SameArtifactsChain(Get(a, "artifacts"), Get(b, "artifacts"), Get(FixProducers(c).value, "artifacts"));
  }

  ghost predicate SameArtifacts(a: Json, b: Json) {
    if !a.Arr? then b == a
    else b.Arr? && |b.items| == |a.items| && forall i :: 0 <= i < |a.items| ==> SameArtifact(a.items[i], b.items[i])
  }

  ghost predicate SameArtifact(a: Json, b: Json) {
    if !a.Obj? then b == a
    else b.Obj? && forall k :: k != "artifact_type" && k != "producer_agent" ==> SameAt(a.fields, b.fields, k)
  }

  lemma SectionsKeepArtifacts(job: Fields)
    requires FixSections(WithDefaults(job)).Ok?
    ensures Get(FixSections(WithDefaults(job)).value, "artifacts") == Get(job, "artifacts")
  {
    assert |"artifacts"| == 9 && |"constraints"| == |"assumptions"| == 11 && |"tools"| == 5;
    SectionsKeepRest(job, "artifacts");
  }

  lemma TypingKeepsArtifacts(f: Fields)
    requires FixList(f, "artifacts", FixArtifact).Ok?
    ensures SameArtifacts(Get(f, "artifacts"), Get(FixList(f, "artifacts", FixArtifact).value, "artifacts"))
  {
    if Get(f, "artifacts").Arr? {
      var before, after := f["artifacts"].items, FixEach(FixArtifact, f["artifacts"].items).value;
      forall i | 0 <= i < |before| ensures SameArtifact(before[i], after[i]) {
        assert FixArtifact(before[i]) == Ok(after[i]);
      }
    }
  }

  lemma ProducingKeepsArtifacts(f: Fields)
    requires FixProducers(f).Ok?
    ensures SameArtifacts(Get(f, "artifacts"), Get(FixProducers(f).value, "artifacts"))
  {
    var agents, artifacts := Get(f, "agents"), Get(f, "artifacts");
    if agents.Arr? && artifacts.Arr? && AgentIds(agents.items).value != {} {
      var ids, first := AgentIds(agents.items).value, agents.items[0].fields["agent_id"];
      var after := FixEach(FixProducer(ids, first), artifacts.items).value;
      forall i | 0 <= i < |after| ensures SameArtifact(artifacts.items[i], after[i]) {
        assert FixProducer(ids, first)(artifacts.items[i]) == Ok(after[i]);
      }
    }
  }

  lemma SameArtifactsChain(a: Json, b: Json, c: Json)
    requires SameArtifacts(a, b) && SameArtifacts(b, c)
    ensures SameArtifacts(a, c)
  {
    if a.Arr? {
      forall i | 0 <= i < |a.items| ensures SameArtifact(a.items[i], c.items[i]) {
        SameArtifactChain(a.items[i], b.items[i], c.items[i]);
      }
    }
  }

  lemma SameArtifactChain(a: Json, b: Json, c: Json)
    requires SameArtifact(a, b) && SameArtifact(b, c)
    ensures SameArtifact(a, c)
  {
    hide SameAt;
    if a.Obj? {
      forall k | k != "artifact_type" && k != "producer_agent" ensures SameAt(a.fields, c.fields, k) {
        assert SameAt(a.fields, b.fields, k) && SameAt(b.fields, c.fields, k);
        SameAtChain(a.fields, b.fields, c.fields, k);
      }
    }
  }

  lemma SameAtChain(f: Fields, g: Fields, h: Fields, k: string)
    requires SameAt(f, g, k) && SameAt(g, h, k)
    ensures SameAt(f, h, k)
  {}
}
