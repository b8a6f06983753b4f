/**
 What holds between the stages of the runtime: a plan compiled from an admissible proposal, with the
 lease built from it, is refused by no later stage, and running it changes only what the scope allows.
 */
module Admission {
  import opened Prelude
  import opened Artifacts
  import opened ScopePath
  import opened Workspace
  import Validator
  import Compiler
  import LeaseManager
  import ExecutionGate
  import ToolGate
  import Executor

  /** The plan that `compile_plan` makes. */
  ghost predicate IsPlanOf(plan: Plan, p: Proposal, v: ValidationResult) {
    && plan.proposalId == p.proposalId && plan.validationId == v.validationId
    && plan.steps == Compiler.CompiledSteps(p) && plan.allowedPaths == p.allowedPaths
    && (forall c :: c in plan.required <==> exists s <- plan.steps :: s.capability == c)
  }

  lemma RequiredCapabilities(plan: Plan, p: Proposal, v: ValidationResult)
    requires IsPlanOf(plan, p, v)
    ensures "FILESYSTEM_WRITE" in plan.required <==> p.modifications != []
    ensures "TEST_EXECUTION" in plan.required <==> p.acceptanceTests != []
    ensures forall c <- plan.required :: c == "FILESYSTEM_WRITE" || c == "TEST_EXECUTION"
  {
    if p.modifications != [] {
      assert plan.steps[0].capability == "FILESYSTEM_WRITE";
    }
    if p.acceptanceTests != [] {
      assert plan.steps[|p.modifications|].capability == "TEST_EXECUTION";
    }
  }

  lemma LeaseGrantsRequired(plan: Plan, p: Proposal, v: ValidationResult)
    requires IsPlanOf(plan, p, v)
    ensures forall c <- plan.required :: LeaseKey(c).Some? && LeaseKey(c).value in LeaseManager.GrantedFor(plan)
                                         && !IsDenied(LeaseManager.DENIED, LeaseKey(c).value)
  {
    RequiredCapabilities(plan, p, v);
  }

  /** Every gate check passes for the lease issued for the plan, while signatures verify and the window is open. */
  lemma {:induction false} CompiledPlanPassesGate(plan: Plan, p: Proposal, v: ValidationResult, lease: Lease,
      issuedAt: int, duration: nat,
      now: int)
    requires IsPlanOf(plan, p, v) && v.passed && v.proposalId == p.proposalId
    requires v.signature == Signed(true) && plan.signature == Signed(true)
    requires lease == LeaseManager.LeaseFor(plan, issuedAt, duration, true) && InWindow(lease, now)
    ensures forall f :: !ExecutionGate.Applies(f, plan, v, lease, now)
  {
    LeaseGrantsRequired(plan, p, v);
    hide LeaseManager.GrantedFor, LeaseKey, IsPlanOf;
    forall path | path in plan.allowedPaths ensures CoveredByAny(lease.allowedPaths, path) {
      var i :| 0 <= i < |plan.allowedPaths| && plan.allowedPaths[i] == path;
      assert Covers(lease.allowedPaths[i], path);
    }
  }

  /** With a failing signature or outside the window, the gate refuses. */
  lemma GateRefusesOtherwise(plan: Plan, p: Proposal, v: ValidationResult, lease: Lease, issuedAt: int, duration: nat,
      now: int)
    requires lease == LeaseManager.LeaseFor(plan, issuedAt, duration, true)
    requires !InWindow(lease, now)
    ensures ExecutionGate.Applies(ExecutionGate.LeaseInvalid, plan, v, lease, now)
  {
  }

  /** The ToolGate authorizes every modification that the validator admitted, and every test. */
  lemma LeaseAuthorizesSteps(plan: Plan, p: Proposal, v: ValidationResult, policy: Validator.Policy, lease: Lease,
      issuedAt: int, duration: nat)
    requires IsPlanOf(plan, p, v) && Validator.Admissible(p, policy)
    requires lease == LeaseManager.LeaseFor(plan, issuedAt, duration, true)
    ensures forall m <- p.modifications :: m.path != "" ==> ToolGate.Authorizes(lease, "FILESYSTEM_WRITE", m.path)
    ensures ToolGate.Authorizes(lease, "TEST_EXECUTION", "")
  {
    RequiredCapabilities(plan, p, v);
    forall m | m in p.modifications && m.path != "" ensures ToolGate.Authorizes(lease, "FILESYSTEM_WRITE", m.path) {
      assert Validator.PathAdmitted(p, m.path);
      ValidatorImpliesToolGate(p.allowedPaths, m.path);
      WiderScope(p.allowedPaths, ToolGate.ScopePaths(lease.granted, lease.allowedPaths), m.path);
    }
  }

  lemma WiderScope(fewer: seq<string>, more: seq<string>, path: string)
    requires fewer <= more && WithinAnyScope(fewer, path)
    ensures WithinAnyScope(more, path)
  {
    var i :| 0 <= i < |fewer| && WithinScope(fewer[i], path);
    assert more[i] == fewer[i];
  }

  // ---------- the executor's split of a compiled plan ----------

  lemma {:induction false} SplitAppend(a: seq<Step>, b: seq<Step>)
    ensures Executor.ModificationSteps(a + b) == Executor.ModificationSteps(a) + Executor.ModificationSteps(b)
    ensures Executor.TestSteps(a + b) == Executor.TestSteps(a) + Executor.TestSteps(b)
  {
    if b == [] {
      assert a + b == a;
    } else {
      assert (a + b)[..|a + b| - 1] == a + b[..|b| - 1];
      SplitAppend(a, b[..|b| - 1]);
    }
  }

  lemma {:induction false} SplitUniform(steps: seq<Step>, areTests: bool)
    requires forall s <- steps :: (s.operation == "run_test") == areTests
    ensures Executor.ModificationSteps(steps) == if areTests then [] else steps
    ensures Executor.TestSteps(steps) == if areTests then steps else []
  {
    if steps != [] {
      SplitUniform(steps[..|steps| - 1], areTests);
      assert steps == steps[..|steps| - 1] + [steps[|steps| - 1]];
    }
  }

  function ModificationPart(p: Proposal): seq<Step> {
    seq(|p.modifications|, i requires 0 <= i < |p.modifications| => Compiler.ModificationStep(p.modifications[i], i))
  }

  function TestPart(p: Proposal): seq<Step> {
    seq(|p.acceptanceTests|, i requires 0 <= i < |p.acceptanceTests| => Compiler.TestStep(p.acceptanceTests[i]))
  }

  lemma ExecutorSplitsPlan(p: Proposal)
    requires forall m <- p.modifications :: Validator.KnownOperation(m.operation)
    ensures Executor.ModificationSteps(Compiler.CompiledSteps(p)) == ModificationPart(p)
    ensures Executor.TestSteps(Compiler.CompiledSteps(p)) == TestPart(p)
  {
    forall s | s in ModificationPart(p) ensures s.operation != "run_test" {
      var i :| 0 <= i < |p.modifications| && s == Compiler.ModificationStep(p.modifications[i], i);
      assert p.modifications[i] in p.modifications;
    }
    SplitAppend(ModificationPart(p), TestPart(p));
    SplitUniform(ModificationPart(p), false);
    SplitUniform(TestPart(p), true);
  }

  // ---------- the main results ----------

  /** An execution of the plan compiled from an admissible proposal, within the window of the lease built from it. */
  ghost predicate AdmittedRun(
    plan: Plan, p: Proposal, v: ValidationResult, policy: Validator.Policy, lease: Lease, issuedAt: int, duration: nat,
    before: Tree, env: Executor.Surroundings, after: Tree, r: Executor.Result, done: nat, passed: nat)
  {
    && IsPlanOf(plan, p, v) && Validator.Admissible(p, policy)
    && (forall m <- p.modifications :: Canonical(m.path))
    && lease == LeaseManager.LeaseFor(plan, issuedAt, duration, true)
    && (forall i: nat :: issuedAt <= env.clock(i) <= issuedAt + duration)
    && Executor.IsExecution(Some(lease), before, plan.steps, env, after, r, done, passed)
  }

  /**
   Admission implies no later refusal: in an open window no action fails for lack of authority.  A
   modification stops the run only where the file system cannot carry it out, and a test fails only
   through its own command.
   */
  lemma AdmittedRunIsNotRefused(
    plan: Plan, p: Proposal, v: ValidationResult, policy: Validator.Policy, lease: Lease, issuedAt: int, duration: nat,
    before: Tree, env: Executor.Surroundings, after: Tree, r: Executor.Result, done: nat, passed: nat)
    requires AdmittedRun(plan, p, v, policy, lease, issuedAt, duration, before, env, after, r, done, passed)
    ensures done < |p.modifications| ==>
              var m := p.modifications[done]; Effect(after, m.operation, m.path, m.content).None?
    ensures done == |p.modifications| && passed < |p.acceptanceTests| ==>
              var command := p.acceptanceTests[passed].command;
                  Executor.HasShellPattern(command) || !env.commandSucceeds(command)
    ensures r.verdict == Executor.AllCompleted <==> done == |p.modifications| && passed == |p.acceptanceTests|
  {
    ExecutorSplitsPlan(p);
    if done < |p.modifications| {
      ModificationIsPermitted(plan, p, v, policy, lease, issuedAt, duration, done, env.clock(done));
    } else if passed < |p.acceptanceTests| {
      TestIsPermitted(plan, p, v, policy, lease, issuedAt, duration, env.clock(|p.modifications| + passed));
    }
    hide Validator.Admissible, Executor.StepPermitted, ToolGate.Permits, Executor.HasShellPattern, Effect,
        LeaseManager.LeaseFor, Compiler.CompiledSteps;
  }

  /** The modification steps of an admitted run are those of its proposal. */
  lemma {:induction false} AdmittedRunSteps(
    plan: Plan, p: Proposal, v: ValidationResult, policy: Validator.Policy, lease: Lease, issuedAt: int, duration: nat,
    before: Tree, env: Executor.Surroundings, after: Tree, r: Executor.Result, done: nat, passed: nat)
    requires AdmittedRun(plan, p, v, policy, lease, issuedAt, duration, before, env, after, r, done, passed)
    ensures Executor.StepsDone(Some(lease), before, ModificationPart(p), env, done, after)
    ensures done <= |p.modifications| && passed <= |p.acceptanceTests|
  {
    ExecutorSplitsPlan(p);
    hide Executor.StepPermitted, Executor.TestPasses, Executor.IsActionLog, Executor.IsTestLog, LeaseManager.LeaseFor,
        Compiler.CompiledSteps, Canonical;
  }

  lemma ModificationIsPermitted(plan: Plan, p: Proposal, v: ValidationResult, policy: Validator.Policy, lease: Lease,
      issuedAt: int, duration: nat, i: nat, now: int)
    requires IsPlanOf(plan, p, v) && Validator.Admissible(p, policy) && i < |p.modifications|
             && Canonical(p.modifications[i].path)
    requires lease == LeaseManager.LeaseFor(plan, issuedAt, duration, true) && issuedAt <= now <= issuedAt + duration
    ensures Executor.StepPermitted(Some(lease), ModificationPart(p)[i], now)
  {
    LeaseAuthorizesSteps(plan, p, v, policy, lease, issuedAt, duration);
    hide Validator.Admissible, ToolGate.Authorizes, IsPlanOf;
    assert p.modifications[i] in p.modifications;
    CanonicalIsNotEmpty(p.modifications[i].path);
  }

  lemma TestIsPermitted(plan: Plan, p: Proposal, v: ValidationResult, policy: Validator.Policy, lease: Lease,
      issuedAt: int, duration: nat, now: int)
    requires IsPlanOf(plan, p, v) && Validator.Admissible(p, policy)
    requires lease == LeaseManager.LeaseFor(plan, issuedAt, duration, true) && issuedAt <= now <= issuedAt + duration
    ensures ToolGate.Permits(Some(lease), "TEST_EXECUTION", "", now)
  {
    LeaseAuthorizesSteps(plan, p, v, policy, lease, issuedAt, duration);
    hide Validator.Admissible, ToolGate.Authorizes, IsPlanOf;
  }

  /**
   Whatever a run does, a file whose content changed is the target of a completed modification, lies
   under an allowed path and under no denied one, and holds what its own modifications leave there.
   */
  lemma {:induction false} RunChangesOnlyItsScope(
    p: Proposal, policy: Validator.Policy, lease: Option<Lease>, before: Tree,
    env: Executor.Surroundings, after: Tree, r: Executor.Result, done: nat, passed: nat, path: string)
    requires Validator.Admissible(p, policy)
    requires Executor.IsExecution(lease, before, Compiler.CompiledSteps(p), env, after, r, done, passed)
    ensures done <= |p.modifications|
    ensures Lookup(after, path) == ContentAfter(path, Lookup(before, path), ModificationPart(p)[..done])
    ensures Lookup(after, path) != Lookup(before, path) ==>
              && (exists i :: 0 <= i < done && p.modifications[i].path == path
                    && r.actions[i].status == Executor.Completed)
              && CoveredByAny(p.allowedPaths, path) && !CoveredByAny(p.deniedPaths, path)
  {
    ExecutorSplitsPlan(p);
    hide Compiler.CompiledSteps, Executor.TestsDone, Executor.IsTestLog, Validator.SchemaConforms;
    var steps := ModificationPart(p)[..done];
    FoldPerFile(before, steps, path);
    if Lookup(after, path) != Lookup(before, path) {
      var i := ChangedFileIsNamed(before, steps, path);
      assert p.modifications[i] in p.modifications && p.modifications[i].path == path;
      assert Validator.PathAdmitted(p, path);
    }
  }

  /**
   The least authority a plan needs: its lease permits the capabilities the plan requires and no other,
   but for reading where it may write, and files only in the plan's scope.
   */
  lemma LeasePermitsRequired(plan: Plan, issuedAt: int, duration: nat, capability: string, path: string, now: int)
    ensures var lease := LeaseManager.LeaseFor(plan, issuedAt, duration, true);
            ToolGate.Permits(Some(lease), capability, path, now) <==>
              && issuedAt <= now <= issuedAt + duration
              && (if capability in ["FILESYSTEM_READ", "FILESYSTEM_WRITE"]
                  then (capability in plan.required || "FILESYSTEM_WRITE" in plan.required)
                       && path != "" && exists scope <- plan.allowedPaths :: WithinScope(scope, path)
                  else capability in plan.required && capability in ["TEST_EXECUTION", "ARTIFACT_GENERATION"])
  {
    var lease := LeaseManager.LeaseFor(plan, issuedAt, duration, true);
    PlanScope(plan, lease, path);
    PlanGrants(plan, capability);
    hide WithinScope, ToolGate.PathInScope, LeaseManager.GrantedFor, ToolGate.IsGranted, ToolGate.DeniedKey, IsDenied;
  }

  lemma PlanGrants(plan: Plan, capability: string)
    ensures !IsDenied(LeaseManager.DENIED, ToolGate.DeniedKey(capability))
            && ToolGate.IsGranted(LeaseManager.GrantedFor(plan), capability) <==>
            if capability in ["FILESYSTEM_READ", "FILESYSTEM_WRITE"]
            then capability in plan.required || "FILESYSTEM_WRITE" in plan.required
            else capability in plan.required && capability in ["TEST_EXECUTION", "ARTIFACT_GENERATION"]
  {
    if LeaseKey(capability).Some? {
      var key := LeaseKey(capability).value;
      assert |"network_access"| == 14 && key[0] != 'n' && key[0] != 'd';
      assert !IsDenied(LeaseManager.DENIED, key) by {
        assert "network_access"[0] == 'n' && "dependency_installation"[0] == 'd';
      }
    }
    hide LeaseManager.DENIED, IsDenied;
  }

  lemma PlanScope(plan: Plan, lease: Lease, path: string)
    requires lease.allowedPaths == plan.allowedPaths && lease.granted == LeaseManager.GrantedFor(plan)
    ensures ToolGate.PathInScope(lease.granted, lease.allowedPaths, path) <==>
            exists scope <- plan.allowedPaths :: WithinScope(scope, path)
  {
    ToolGate.PathInScopeMeaning(lease, path);
    hide ToolGate.PathInScope, WithinScope;
    assert forall scope :: ToolGate.NamesScope(lease, scope) <==> scope in plan.allowedPaths;
  }

  // ---------- without admission: what the ToolGate alone keeps ----------

  lemma {:induction false} ModificationStepsAreSteps(steps: seq<Step>)
    ensures forall s <- Executor.ModificationSteps(steps) :: s in steps && s.operation != "run_test"
  {
    if steps != [] {
      ModificationStepsAreSteps(steps[..|steps| - 1]);
    }
  }

  /** A file changes only where a permitted step names it, so only under a lease. */
  lemma ChangedByPermittedStep(lease: Option<Lease>, before: Tree, steps: seq<Step>, env: Executor.Surroundings,
      after: Tree, done: nat, path: string) returns (i: nat)
    requires Executor.StepsDone(lease, before, steps, env, done, after)
    requires Lookup(after, path) != Lookup(before, path)
    ensures i < |steps| && steps[i].path == path && Executor.StepPermitted(lease, steps[i], env.clock(i))
  {
    hide Executor.StepPermitted, Effect;
    i := ChangedFileIsNamed(before, steps[..done], path);
  }

  /**
   Whatever the steps, a file whose content changed lies in the lease's scope, unless a step names it
   under a capability that is no file capability.
   */
  lemma ChangesStayInScope(lease: Option<Lease>, before: Tree, steps: seq<Step>, env: Executor.Surroundings,
      after: Tree, r: Executor.Result, done: nat, passed: nat, path: string)
    requires Executor.IsExecution(lease, before, steps, env, after, r, done, passed)
    requires Lookup(after, path) != Lookup(before, path)
    ensures lease.Some?
    ensures || (path != "" && ToolGate.LiesInScope(lease.value, path))
            || exists s <- steps :: s.path == path && s.operation != "run_test"
                                    && s.capability in ["TEST_EXECUTION", "ARTIFACT_GENERATION"]
  {
    var mods := Executor.ModificationSteps(steps);
    var i := ChangedByPermittedStep(lease, before, mods, env, after, done, path);
    ModificationStepsAreSteps(steps);
    var s := mods[i];
    ToolGate.DefaultDeny(lease, s.capability, path, env.clock(i));
    hide ToolGate.LiesInScope, ToolGate.Permits, Executor.IsExecution;
    if s.capability !in ["TEST_EXECUTION", "ARTIFACT_GENERATION"] {
      ToolGate.ScopeDecides(lease.value, s.capability, path, env.clock(i));
    }
  }

  /** The exception is real: a step that names the test capability creates any file it can, in scope or not. */
  lemma TestCapabilityEscapesScope(lease: Lease, before: Tree, path: string, content: string,
      env: Executor.Surroundings) returns (s: Step, r: Executor.Result)
    requires ToolGate.Permits(Some(lease), "TEST_EXECUTION", "", env.clock(0))
    requires ParentsUsable(before, path) && path !in before.dirs
    ensures var after := Put(before, path, content);
            Executor.IsExecution(Some(lease), before, [s], env, after, r, 1, 0) && Lookup(after, path) == Some(content)
  {
    s := Step("step-001", "create", path, content, "TEST_EXECUTION");
    var action := Executor.Action(s.stepId, s.operation, s.path, Executor.Completed);
    r := Executor.Result([action], [path], [], Executor.AllCompleted);
    ToolGate.OthersNeedNoPath(lease, s.capability, path, "", env.clock(0));
    SplitUniform([s], false);
    assert StepEffect(before, s) == Some(Put(before, path, content));
    FoldOne(before, s);
    assert [s][..1] == [s] && [s][..0] == [];
    assert Executor.ArtifactsOf([s]) == [path];
    hide ToolGate.Permits, Fold, AllSucceed, StepEffect, Put, Executor.ArtifactsOf;
    assert Executor.StepsDone(Some(lease), before, [s], env, 1, Put(before, path, content));
    assert Executor.IsActionLog(r.actions, [s], 1) && Executor.IsTestLog(r.acceptance, [], 0);
  }

  lemma FoldOne(before: Tree, s: Step)
    requires StepEffect(before, s).Some?
    ensures AllSucceed(before, [s]) && Fold(before, [s]) == StepEffect(before, s).value
  {
    hide StepEffect;
    assert [s][..0] == [] && Fold(before, []) == before && AllSucceed(before, []);
  }

  /** A compiled plan, admitted or not, changes nothing outside the scope of the lease it runs under. */
  lemma CompiledPlanStaysInScope(p: Proposal, lease: Option<Lease>, before: Tree, env: Executor.Surroundings,
      after: Tree, r: Executor.Result, done: nat, passed: nat, path: string)
    requires Executor.IsExecution(lease, before, Compiler.CompiledSteps(p), env, after, r, done, passed)
    requires Lookup(after, path) != Lookup(before, path)
    ensures lease.Some? && path != "" && ToolGate.LiesInScope(lease.value, path)
  {
    ChangesStayInScope(lease, before, Compiler.CompiledSteps(p), env, after, r, done, passed, path);
    CompiledCapabilities(p);
    hide ToolGate.LiesInScope, Executor.IsExecution, Compiler.CompiledSteps;
  }

  lemma CompiledCapabilities(p: Proposal)
    ensures forall s <- Compiler.CompiledSteps(p) :: s.operation != "run_test" ==> s.capability == "FILESYSTEM_WRITE"
  {
  }

  lemma ChangedFileIsNamed(before: Tree, steps: seq<Step>, path: string) returns (i: nat)
    requires Lookup(Fold(before, steps), path) != Lookup(before, path)
    ensures i < |steps| && steps[i].path == path
  {
    if forall s <- steps :: s.path != path {
      UnnamedFileUnchanged(before, steps, path);
    }
    var s :| s in steps && s.path == path;
    i :| 0 <= i < |steps| && steps[i] == s;
  }
}
