/** `PipelineRunner.run`: proposal, validation, plan, lease, gate, execution and ledger, in that order. */
module PipelineRunner {
  import opened Prelude
  import opened Artifacts
  import opened Workspace
  import opened ScopePath
  import Validator
  import Compiler
  import LeaseManager
  import ExecutionGate
  import ToolGate
  import Executor
  import Admission

  /** What a run takes from its surroundings: fresh ids, the key registry, and the clock at each stage. */
  datatype Context = Context(
    validationId: string, planId: string, policy: Validator.Policy, keysVerify: bool,
    issuedAt: int, checkedAt: int, boundAt: int, env: Executor.Surroundings)

  const LEASE_SECONDS: nat := 300

  datatype Record = Record(planId: string, result: Executor.Result)

  predicate WindowOpen(c: Context, now: int) {
    c.issuedAt <= now <= c.issuedAt + LEASE_SECONDS
  }

  /** When a run gets as far as executing its plan. */
  predicate Admits(p: Proposal, c: Context) {
    Validator.Admissible(p, c.policy) && c.keysVerify && WindowOpen(c, c.checkedAt) && WindowOpen(c, c.boundAt)
  }

  /** The plan and the lease of an admitted run. */
  ghost predicate IsGoverned(p: Proposal, c: Context, plan: Plan, lease: Lease) {
    && Admission.IsPlanOf(plan, p, ValidationResult(c.validationId, p.proposalId, true, Signed(true)))
    && plan.planId == c.planId
    && lease == LeaseManager.LeaseFor(plan, c.issuedAt, LEASE_SECONDS, true)
  }

  /** A run that was carried out: what it did to the tree and what it recorded. */
  ghost predicate IsCarriedOut(p: Proposal, c: Context, before: Tree, after: Tree, record: Record, plan: Plan,
      lease: Lease, done: nat, passed: nat)
  {
    && IsGoverned(p, c, plan, lease)
    && record.planId == plan.planId
    && Executor.IsExecution(Some(lease), before, plan.steps, c.env, after, record.result, done, passed)
  }

  class Runner {
    var tree: Tree
    var ledger: seq<Record>

    constructor (tree: Tree)
      ensures this.tree == tree && ledger == []
    {
      this.tree, ledger := tree, [];
    }

    /**
     `run`: the plan is executed exactly for admitted proposals, and then recorded; every other
     proposal raises before the workspace or the ledger is touched.
     */
    method Run(p: Proposal, c: Context)
        returns (r: Outcome<Record>, ghost plan: Plan, ghost lease: Lease, ghost done: nat, ghost passed: nat)
      requires forall m <- p.modifications :: m.path == "" || Canonical(m.path)
      modifies this
      ensures r.Ok? <==> Admits(p, c)
      ensures r.Ok? ==> IsCarriedOut(p, c, old(tree), tree, r.value, plan, lease, done, passed)
      ensures r.Ok? ==> ledger == old(ledger) + [r.value]
      ensures r.Raised? ==> tree == old(tree) && ledger == old(ledger)
      ensures WellFormed(old(tree)) ==> WellFormed(tree)
    {
      plan, lease, done, passed := *, *, 0, 0;
      var validation := Validator.ValidateProposal(p, c.policy, c.validationId, c.keysVerify);
      if !validation.passed { return Raised, plan, lease, done, passed; }

      var compiled := Compiler.CompilePlan(p, validation, c.planId, c.keysVerify);
      if compiled.Raised? { return Raised, plan, lease, done, passed; }
      var thePlan := compiled.value;

      var theLease := LeaseManager.IssueLease(thePlan, c.issuedAt, LEASE_SECONDS, c.keysVerify);
      plan, lease := thePlan, theLease;

      var allowed, failures := ExecutionGate.Check(thePlan, validation, theLease, c.checkedAt);
      if WindowOpen(c, c.checkedAt) {
        Admission.CompiledPlanPassesGate(thePlan, p, validation, theLease, c.issuedAt, LEASE_SECONDS, c.checkedAt);
      } else {
        Admission.GateRefusesOtherwise(thePlan, p, validation, theLease, c.issuedAt, LEASE_SECONDS, c.checkedAt);
      }
      NoFailureMeansEmpty(failures);
      if !allowed { return Raised, plan, lease, done, passed; }

      var toolgate := new ToolGate.Gate();
      var bound := toolgate.BindLease(theLease, c.boundAt);
      if !bound { return Raised, plan, lease, done, passed; }

      var executor := new Executor.GovernedExecutor(toolgate, tree);
      var result;
      result, done, passed := executor.Execute(thePlan.steps, c.env);
      tree := executor.tree;
      ledger := ledger + [Record(thePlan.planId, result)];
      return Ok(Record(thePlan.planId, result)), plan, lease, done, passed;
    }
  }

  lemma NoFailureMeansEmpty(failures: seq<ExecutionGate.Failure>)
    ensures failures == [] <==> forall f :: f !in failures
  {
    if failures != [] {
      assert failures[0] in failures;
    }
  }
}
