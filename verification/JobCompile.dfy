/** Validation of a job and the bounded loop that repairs and validates again. JSON Schema validation is a parameter. */
module JobCompile {
  import opened Prelude
  import opened JobRepair
  import opened RepairProperties

  /** A validation error: one of the schema layer, or the position of an artifact with an unknown producer. */
  datatype Problem = SchemaProblem(message: string) | UnknownProducer(artifact: nat)

  /** The messages of the schema layer in order. */
  type Schema = Fields -> seq<string>

  function SchemaProblems(messages: seq<string>): (ps: seq<Problem>)
    ensures |ps| == |messages|
  {
    seq(|messages|, i requires 0 <= i < |messages| => SchemaProblem(messages[i]))
  }

  /** The artifacts whose producer is not among the ids. */
  function BadProducers(artifacts: seq<Json>, ids: set<Json>): Outcome<seq<Problem>> {
    if artifacts == [] then Ok([])
    else
      var n, a := |artifacts| - 1, artifacts[|artifacts| - 1];
      match BadProducers(artifacts[..n], ids)
      case Raised => Raised
      case Ok(before) =>
        if !a.Obj? || "producer_agent" !in a.fields then Ok(before)
        else if !IsHashable(a.fields["producer_agent"]) then Raised
        else if Key(a.fields["producer_agent"]) in ids then Ok(before)
        else Ok(before + [UnknownProducer(n)])
  }

  /** The semantic layer of validation. */
  function SemanticProblems(job: Fields): Outcome<seq<Problem>> {
    if !Get(job, "agents").Arr? || !Get(job, "artifacts").Arr? then Ok([])
    else
      match AgentIds(job["agents"].items)
      case Raised => Raised
      case Ok(ids) => BadProducers(job["artifacts"].items, ids)
  }

  function Problems(schema: Schema, job: Fields): Outcome<seq<Problem>> {
    match SemanticProblems(job)
    case Raised => Raised
    case Ok(ps) => Ok(SchemaProblems(schema(job)) + ps)
  }

  /** `validate_job`: no problems means valid. */
  method ValidateJob(schema: Schema, job: Fields) returns (r: Outcome<seq<Problem>>)
    ensures r == Problems(schema, job)
  {
    var errors := SchemaProblems(schema(job));
    ghost var first := errors;
    if !Get(job, "agents").Arr? || !Get(job, "artifacts").Arr? {
      assert errors == errors + [];
      return Ok(errors);
    }
    var artifacts := job["artifacts"].items;
    var ids := CollectAgentIds(job["agents"].items);
    if ids.Raised? { return Raised; }
    ghost var found := [];
    for i := 0 to |artifacts|
      invariant BadProducers(artifacts[..i], ids.value) == Ok(found)
      invariant errors == first + found
    {
      assert artifacts[..i + 1][..i] == artifacts[..i];
      var a := artifacts[i];
      if a.Obj? && "producer_agent" in a.fields {
        if !IsHashable(a.fields["producer_agent"]) {
          BadProducersRaise(artifacts, ids.value, i + 1);
          return Raised;
        }
        if Key(a.fields["producer_agent"]) !in ids.value {
          errors := errors + [UnknownProducer(i)];
          found := found + [UnknownProducer(i)];
        }
      }
    }
    assert artifacts[..|artifacts|] == artifacts;
    return Ok(errors);
  }

  lemma {:induction false} BadProducersRaise(artifacts: seq<Json>, ids: set<Json>, i: nat)
    requires i <= |artifacts| && BadProducers(artifacts[..i], ids).Raised?
    ensures BadProducers(artifacts, ids).Raised?
  {
    if i < |artifacts| {
      assert artifacts[..|artifacts| - 1][..i] == artifacts[..i];
      BadProducersRaise(artifacts[..|artifacts| - 1], ids, i);
    } else {
      assert artifacts[..i] == artifacts;
    }
  }

  /** No artifact is reported exactly when each one that names a producer names a known one. */
  lemma {:induction false} NoBadProducers(artifacts: seq<Json>, ids: set<Json>)
    ensures BadProducers(artifacts, ids) == Ok([]) <==>
            forall i :: 0 <= i < |artifacts| ==> NamesKnownProducer(artifacts[i], ids)
  {
    if artifacts != [] {
      var front := artifacts[..|artifacts| - 1];
      NoBadProducers(front, ids);
      assert forall i :: 0 <= i < |front| ==> front[i] == artifacts[i];
    }
  }

  ghost predicate NamesKnownProducer(a: Json, ids: set<Json>) {
    a.Obj? && "producer_agent" in a.fields ==>
      IsHashable(a.fields["producer_agent"]) && Key(a.fields["producer_agent"]) in ids
  }

  /** Some agent has an id. */
  predicate HasIds(agents: Json) {
    agents.Arr? && AgentIds(agents.items).Ok? && AgentIds(agents.items).value != {}
  }

  /**
   A repaired job passes the semantic layer unless it names a producer although no agent has an id:
   that is the one reference that repair cannot mend.
   */
  lemma {:induction false} RepairMendsReferences(job: Fields)
    requires Repaired(job).Ok?
    ensures var r := Repaired(job).value;
            var agents, artifacts := Get(r, "agents"), Get(r, "artifacts");
            SemanticProblems(r) == Ok([]) <==>
              !agents.Arr? || !artifacts.Arr? || HasIds(agents)
              || forall i :: 0 <= i < |artifacts.items| ==> !NamesProducer(artifacts.items[i])
  {
    RepairedIsWellShaped(job);
    hide Repaired, PolicyFixed, HandlingFixed, LineageFixed, AllItems;
    var r := Repaired(job).value;
    var agents, artifacts := Get(r, "agents"), Get(r, "artifacts");
    if agents.Arr? && artifacts.Arr? {
      var ids := AgentIds(agents.items).value;
      NoBadProducers(artifacts.items, ids);
      if ids != {} {
        forall i | 0 <= i < |artifacts.items| ensures NamesKnownProducer(artifacts.items[i], ids) {
          assert ProducerFixed(artifacts.items[i], ids);
        }
      } else {
        assert forall a :: NamesKnownProducer(a, ids) <==> !NamesProducer(a);
      }
    }
  }

  ghost predicate NamesProducer(a: Json) {
    a.Obj? && "producer_agent" in a.fields
  }

  // ---------- compile_job ----------

  datatype Compiled =
    | Accepted(attempts: int, job: Fields)
    | Rejected(attempts: int, problems: seq<Problem>, job: Fields)

  /** The loop from a given attempt on, with the job and the problems of the attempt before. */
  function CompileFrom(schema: Schema, job: Fields, problems: seq<Problem>, attempt: int,
      maxRepairs: int): Outcome<Compiled>
    decreases maxRepairs + 2 - attempt
  {
    if attempt > maxRepairs + 1 then Ok(Rejected(maxRepairs + 1, problems, job))
    else
      match Problems(schema, job)
      case Raised => Raised
      case Ok(ps) =>
        if ps == [] then Ok(Accepted(attempt, job))
        else if attempt > maxRepairs then Ok(Rejected(maxRepairs + 1, ps, job))
        else
          match Repaired(job)
          case Raised => Raised
          case Ok(r) => CompileFrom(schema, r, ps, attempt + 1, maxRepairs)
  }

  /** `compile_job` */
  method CompileJob(schema: Schema, job: Fields, maxRepairs: int) returns (r: Outcome<Compiled>)
    ensures r == CompileFrom(schema, job, [], 1, maxRepairs)
  {
    hide Repaired, Problems;
    var current := job;
    var all: seq<Problem> := [];
    var attempt := 1;
    while attempt < maxRepairs + 2
      invariant CompileFrom(schema, current, all, attempt, maxRepairs) == CompileFrom(schema, job, [], 1, maxRepairs)
      decreases maxRepairs + 2 - attempt
    {
      var errors := ValidateJob(schema, current);
      if errors.Raised? { return Raised; }
      if errors.value == [] { return Ok(Accepted(attempt, current)); }
      all := errors.value;
      if attempt <= maxRepairs {
        var repaired := RepairJob(current);
        if repaired.Raised? { return Raised; }
        current := repaired.value;
      } else {
        break;
      }
      attempt := attempt + 1;
    }
    return Ok(Rejected(maxRepairs + 1, all, current));
  }

  /** What the loop comes to: validate, repair once, validate again. */
  function CompileOnce(schema: Schema, job: Fields, maxRepairs: int): Outcome<Compiled> {
    match Problems(schema, job)
    case Raised => Raised
    case Ok(ps) =>
      if ps == [] then Ok(Accepted(1, job))
      else
        match Repaired(job)
        case Raised => Raised
        case Ok(r) =>
          match Problems(schema, r)
          case Raised => Raised
          case Ok(qs) => Ok(if qs == [] then Accepted(2, r) else Rejected(maxRepairs + 1, qs, r))
  }

  /** From a repaired job that does not validate, further rounds change nothing. */
  lemma {:induction false} FurtherRoundsAreIdle(schema: Schema, r: Fields, problems: seq<Problem>, attempt: int,
      maxRepairs: int)
    requires attempt <= maxRepairs + 1
    ensures Repaired(r) == Ok(r) && Problems(schema, r).Ok? && Problems(schema, r).value != [] ==>
              CompileFrom(schema, r, problems, attempt, maxRepairs)
              == Ok(Rejected(maxRepairs + 1, Problems(schema, r).value, r))
    decreases maxRepairs + 2 - attempt
  {
    hide Repaired, Problems;
    if attempt <= maxRepairs && Problems(schema, r).Ok? {
      FurtherRoundsAreIdle(schema, r, Problems(schema, r).value, attempt + 1, maxRepairs);
    }
  }

  /**
   With one repair or more the loop is decided by its first two attempts: the job is accepted as it is,
   or accepted once repaired, or never, and more repairs change only the attempt count of a rejection.
   */
  lemma {:induction false} CompileTakesTwoAttempts(schema: Schema, job: Fields, maxRepairs: int)
    requires maxRepairs >= 1
    ensures CompileFrom(schema, job, [], 1, maxRepairs) == CompileOnce(schema, job, maxRepairs)
  {
    if Repaired(job).Ok? {
      RepairIsIdempotent(job);
      hide Repaired, Problems;
      var r := Repaired(job).value;
      if Problems(schema, job).Ok? && Problems(schema, r).Ok? && Problems(schema, r).value != [] {
        FurtherRoundsAreIdle(schema, r, Problems(schema, job).value, 2, maxRepairs);
      }
    }
  }

  /** Without repairs the job is judged as it is; with a negative number it is not judged at all. */
  lemma CompileWithoutRepairs(schema: Schema, job: Fields, maxRepairs: int)
    requires maxRepairs <= 0
    ensures CompileFrom(schema, job, [], 1, maxRepairs) ==
            if maxRepairs < 0 then Ok(Rejected(maxRepairs + 1, [], job))
            else match Problems(schema, job)
                 case Raised => Raised
                 case Ok(ps) => Ok(if ps == [] then Accepted(1, job) else Rejected(1, ps, job))
  {
    hide Problems, Repaired;
  }
}
