/** `compile_plan`: a validated proposal becomes a list of steps and the capabilities they need. */
module Compiler {
  import opened Prelude
  import opened Artifacts
  import Text

  /** `OPERATION_CAPABILITIES.get(operation, "FILESYSTEM_WRITE")`: every operation writes. */
  function OperationCapability(operation: string): string {
    "FILESYSTEM_WRITE"
  }

  function ModificationStep(m: Modification, i: nat): Step {
    Step(StepId("step-", i + 1), m.operation, m.path, m.content, OperationCapability(m.operation))
  }

  function TestStep(t: AcceptanceTest): Step {
    Step("test-" + t.testId, "run_test", t.command, "", "TEST_EXECUTION")
  }

  function StepId(prefix: string, n: nat): string {
    prefix + Padded(n)
  }

  /** The step number in decimal, padded to three digits. */
  function Padded(n: nat): string {
    (if n < 10 then "00" else if n < 100 then "0" else "") + Text.Decimal(n)
  }

  lemma PaddingKeepsValue(zeros: string, s: string)
    requires (forall c <- zeros :: c == '0') && forall c <- s :: Text.IsDigit(c)
    ensures (forall c <- zeros + s :: Text.IsDigit(c)) && Text.Digits(zeros + s) == Text.Digits(s)
    decreases |zeros + s|
  {
    if s != "" {
      assert (zeros + s)[..|zeros + s| - 1] == zeros + s[..|s| - 1];
      PaddingKeepsValue(zeros, s[..|s| - 1]);
    } else if zeros != "" {
      var fewer := zeros[..|zeros| - 1];
      assert zeros[|zeros| - 1] in zeros && forall c <- fewer :: c in zeros;
      PaddingKeepsValue(fewer, "");
      assert zeros + s == zeros && fewer + "" == fewer;
    }
  }

  /** No two steps of one kind share an id: the padded number is the number. */
  lemma StepIdsDistinct(prefix: string, i: nat, j: nat)
    ensures StepId(prefix, i) == StepId(prefix, j) ==> i == j
  {
    var a, b := Padded(i), Padded(j);
    PaddedValue(i);
    PaddedValue(j);
    assert StepId(prefix, i)[|prefix|..] == a && StepId(prefix, j)[|prefix|..] == b;
  }

  lemma PaddedValue(n: nat)
    ensures (forall c <- Padded(n) :: Text.IsDigit(c)) && Text.Digits(Padded(n)) == n
  {
    var zeros := if n < 10 then "00" else if n < 100 then "0" else "";
    assert Padded(n) == zeros + Text.Decimal(n);
    PaddingKeepsValue(zeros, Text.Decimal(n));
    Text.DecimalValue(n);
  }

  function CompiledSteps(p: Proposal): seq<Step> {
    seq(|p.modifications|, i requires 0 <= i < |p.modifications| => ModificationStep(p.modifications[i], i))
    + seq(|p.acceptanceTests|, i requires 0 <= i < |p.acceptanceTests| => TestStep(p.acceptanceTests[i]))
  }

  /** The three refusals of the compiler. */
  predicate Compilable(p: Proposal, v: ValidationResult) {
    v.passed && v.proposalId == p.proposalId && (v.signature.Signed? ==> v.signature.verifies)
  }

  /**
   `compile_plan`: the plan holds the modifications and then the tests, in order, and requires exactly
   the capabilities that its steps name.
   */
  method CompilePlan(p: Proposal, v: ValidationResult, planId: string, keysVerify: bool) returns (r: Outcome<Plan>)
    ensures r.Ok? <==> Compilable(p, v)
    ensures r.Ok? ==>
              && r.value == Plan(planId, p.proposalId, v.validationId, CompiledSteps(p), r.value.required,
                 p.allowedPaths, Signed(keysVerify))
              && forall c :: c in r.value.required <==> exists s <- r.value.steps :: s.capability == c
  {
    if !v.passed { return Raised; }
    if v.proposalId != p.proposalId { return Raised; }
    if v.signature.Signed? && !v.signature.verifies { return Raised; }

    var steps: seq<Step> := [];
    var required: set<string> := {};
    for i := 0 to |p.modifications|
      invariant steps == seq(i, k requires 0 <= k < i => ModificationStep(p.modifications[k], k))
      invariant forall c :: c in required <==> exists s <- steps :: s.capability == c
    {
      var step := ModificationStep(p.modifications[i], i);
      RequireOneMore(required, steps, step);
      required := required + {step.capability};
      steps := steps + [step];
    }
    ghost var modificationSteps := steps;
    for i := 0 to |p.acceptanceTests|
      invariant steps == modificationSteps + seq(i, k requires 0 <= k < i => TestStep(p.acceptanceTests[k]))
      invariant forall c :: c in required <==> exists s <- steps :: s.capability == c
    {
      var step := TestStep(p.acceptanceTests[i]);
      RequireOneMore(required, steps, step);
      required := required + {step.capability};
      steps := steps + [step];
    }
    return Ok(Plan(planId, p.proposalId, v.validationId, steps, required, p.allowedPaths, Signed(keysVerify)));
  }

  lemma RequireOneMore(required: set<string>, steps: seq<Step>, step: Step)
    requires forall c :: c in required <==> exists s <- steps :: s.capability == c
    ensures forall c :: c in required + {step.capability} <==> exists s <- steps + [step] :: s.capability == c
  {
    assert step in steps + [step];
    forall s | s in steps ensures s in steps + [step] { }
  }
}
