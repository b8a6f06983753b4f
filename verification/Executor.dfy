/** `Executor.execute`: modification steps and then tests, halting at the first failure. */
module Executor {
  import opened Prelude
  import opened Artifacts
  import opened Workspace
  import ToolGate
  import Text

  datatype Status = Completed | Failed | Skipped

  datatype Action = Action(stepId: string, operation: string, path: string, status: Status)

  datatype TestRecord = TestRecord(testId: string, passed: bool)

  datatype Verdict = AllCompleted | Partial | NothingDone

  datatype Result = Result(actions: seq<Action>, artifacts: seq<string>, acceptance: seq<TestRecord>, verdict: Verdict)

  const SHELL_PATTERNS: seq<string> := [";", "&&", "||", "|", "`", "$(", "${", "\n", "\r", "<(", ">(", ">>"]

  predicate HasShellPattern(command: string) {
    exists i :: 0 <= i < |SHELL_PATTERNS| && Text.Contains(command, SHELL_PATTERNS[i])
  }

  function ModificationSteps(steps: seq<Step>): seq<Step> {
    if steps == [] then []
    else
      var front, last := steps[..|steps| - 1], steps[|steps| - 1];
      ModificationSteps(front) + if last.operation != "run_test" then [last] else []
  }

  function TestSteps(steps: seq<Step>): seq<Step> {
    if steps == [] then []
    else
      var front, last := steps[..|steps| - 1], steps[|steps| - 1];
      TestSteps(front) + if last.operation == "run_test" then [last] else []
  }

  predicate LeavesArtifact(operation: string) {
    operation == "create" || operation == "modify" || operation == "append"
  }

  function ArtifactsOf(steps: seq<Step>): seq<string> {
    if steps == [] then []
    else
      var front, last := steps[..|steps| - 1], steps[|steps| - 1];
      ArtifactsOf(front) + if LeavesArtifact(last.operation) then [last.path] else []
  }

  /** The surroundings of one execution: when each request is made, and which commands succeed. */
  datatype Surroundings = Surroundings(clock: nat -> int, commandSucceeds: string -> bool)

  predicate StepPermitted(lease: Option<Lease>, s: Step, now: int) {
    ToolGate.Permits(lease, s.capability, s.path, now)
  }

  /** A test passes when its command is free of shell patterns, permitted, and succeeds. */
  predicate TestPasses(lease: Option<Lease>, s: Step, now: int, env: Surroundings) {
    !HasShellPattern(s.path) && ToolGate.Permits(lease, "TEST_EXECUTION", "", now) && env.commandSucceeds(s.path)
  }

  /** The action log of `steps` of which the first `done` completed: completed, one failed, skipped. */
  ghost predicate IsActionLog(actions: seq<Action>, steps: seq<Step>, done: nat) {
    && |actions| == |steps| && done <= |steps|
    && forall i :: 0 <= i < |steps| ==>
         actions[i] == Action(steps[i].stepId, steps[i].operation, steps[i].path,
                              if i < done then Completed else if i == done then Failed else Skipped)
  }

  /** The first `done` steps were permitted and took effect in order; the next one, if any, could not. */
  ghost predicate StepsDone(lease: Option<Lease>, before: Tree, steps: seq<Step>, env: Surroundings, done: nat,
      after: Tree)
  {
    && done <= |steps|
    && (forall i :: 0 <= i < done ==> StepPermitted(lease, steps[i], env.clock(i)))
    && AllSucceed(before, steps[..done]) && after == Fold(before, steps[..done])
    && (done < |steps| ==> !StepPermitted(lease, steps[done], env.clock(done)) || StepEffect(after, steps[done]).None?)
  }

  /** The first `passed` tests passed and the next one, if any, did not; `offset` requests came before. */
  ghost predicate TestsDone(lease: Option<Lease>, tests: seq<Step>, env: Surroundings, offset: nat, passed: nat) {
    && passed <= |tests|
    && (forall j :: 0 <= j < passed ==> TestPasses(lease, tests[j], env.clock(offset + j), env))
    && (passed < |tests| ==> !TestPasses(lease, tests[passed], env.clock(offset + passed), env))
  }

  ghost predicate IsTestLog(records: seq<TestRecord>, tests: seq<Step>, passed: nat) {
    && |records| == |tests|
    && forall j :: 0 <= j < |tests| ==> records[j] == TestRecord(tests[j].stepId, j < passed)
  }

  function VerdictOf(allDone: bool, anyDone: bool): Verdict {
    if allDone then AllCompleted else if anyDone then Partial else NothingDone
  }

  /** What one execution does; `done` modification steps complete and `passed` tests pass. */
  ghost predicate IsExecution(lease: Option<Lease>, before: Tree, steps: seq<Step>, env: Surroundings, after: Tree,
      r: Result, done: nat, passed: nat)
  {
    var mods, tests := ModificationSteps(steps), TestSteps(steps);
    && StepsDone(lease, before, mods, env, done, after)
    && IsActionLog(r.actions, mods, done)
    && r.artifacts == ArtifactsOf(mods[..done])
    && (if done < |mods| then passed == 0 else TestsDone(lease, tests, env, |mods|, passed))
    && IsTestLog(r.acceptance, tests, passed)
    && r.verdict == VerdictOf(done == |mods| && passed == |tests|, done > 0)
  }

  /** The state of the loop over modification steps after `i` of them. */
  ghost predicate SoFar(lease: Option<Lease>, before: Tree, steps: seq<Step>, env: Surroundings, i: nat, done: nat,
      after: Tree, actions: seq<Action>, artifacts: seq<string>)
  {
    && i <= |steps|
    && StepsDone(lease, before, steps[..i], env, done, after)
    && IsActionLog(actions, steps[..i], done)
    && artifacts == ArtifactsOf(steps[..done])
  }

  function Logged(s: Step, status: Status): Action {
    Action(s.stepId, s.operation, s.path, status)
  }

  lemma {:induction false} AllSoFar(lease: Option<Lease>, before: Tree, steps: seq<Step>, env: Surroundings, done: nat,
      after: Tree,
      actions: seq<Action>, artifacts: seq<string>)
    requires SoFar(lease, before, steps, env, |steps|, done, after, actions, artifacts)
    ensures StepsDone(lease, before, steps, env, done, after) && IsActionLog(actions, steps, done)
            && artifacts == ArtifactsOf(steps[..done])
  {
    assert steps[..|steps|] == steps;
  }

  lemma DoneKeepsWellFormed(lease: Option<Lease>, before: Tree, steps: seq<Step>, env: Surroundings, done: nat,
      after: Tree)
    requires StepsDone(lease, before, steps, env, done, after)
    ensures WellFormed(before) ==> WellFormed(after)
  {
    if WellFormed(before) { FoldKeepsWellFormed(before, steps[..done]); }
  }

  /** After a failure the steps that follow are only logged. */
  lemma {:induction false} LaterStepsAreSkipped(lease: Option<Lease>, before: Tree, steps: seq<Step>, env: Surroundings,
      i: nat, done: nat,
      after: Tree, actions: seq<Action>, artifacts: seq<string>)
    requires i < |steps| && done < i && SoFar(lease, before, steps, env, i, done, after, actions, artifacts)
    ensures SoFar(lease, before, steps, env, i + 1, done, after, actions + [Logged(steps[i], Skipped)], artifacts)
  {
    hide StepPermitted, StepEffect, ArtifactsOf;
    assert steps[..i + 1][..done] == steps[..i][..done];
  }

  /** Without a failure so far, the next step either takes effect or is the failure. */
  lemma {:induction false} NextStepDecides(lease: Option<Lease>, before: Tree, steps: seq<Step>, env: Surroundings,
      i: nat, after: Tree,
      actions: seq<Action>, artifacts: seq<string>)
    requires i < |steps| && SoFar(lease, before, steps, env, i, i, after, actions, artifacts)
    ensures var s := steps[i];
            var effect := StepEffect(after, s);
            if StepPermitted(lease, s, env.clock(i)) && effect.Some?
            then SoFar(lease, before, steps, env, i + 1, i + 1, effect.value, actions + [Logged(s, Completed)],
                       if LeavesArtifact(s.operation) then artifacts + [s.path] else artifacts)
            else SoFar(lease, before, steps, env, i + 1, i, after, actions + [Logged(s, Failed)], artifacts)
  {
    hide StepPermitted, StepEffect, LeavesArtifact;
    var more := steps[..i + 1];
    assert more[..i] == steps[..i] == steps[..i][..i] && more[..i + 1] == more && more[..|more| - 1] == steps[..i];
  }

  /** The state of the loop over test steps after `j` of them. */
  ghost predicate TestsSoFar(lease: Option<Lease>, tests: seq<Step>, env: Surroundings, offset: nat,
      alreadyHalted: bool, j: nat, passed: nat, records: seq<TestRecord>)
  {
    && j <= |tests|
    && (if alreadyHalted then passed == 0 else TestsDone(lease, tests[..j], env, offset, passed))
    && IsTestLog(records, tests[..j], passed)
  }

  lemma {:induction false} NextTestDecides(lease: Option<Lease>, tests: seq<Step>, env: Surroundings, offset: nat,
      alreadyHalted: bool,
      j: nat, passed: nat, records: seq<TestRecord>)
    requires j < |tests| && TestsSoFar(lease, tests, env, offset, alreadyHalted, j, passed, records)
    ensures if alreadyHalted || passed < j
            then TestsSoFar(lease, tests, env, offset, alreadyHalted, j + 1, passed,
                            records + [TestRecord(tests[j].stepId, false)])
            else var ok := TestPasses(lease, tests[j], env.clock(offset + j), env);
                 TestsSoFar(lease, tests, env, offset, alreadyHalted, j + 1, if ok then j + 1 else passed,
                            records + [TestRecord(tests[j].stepId, ok)])
  {
    hide TestPasses;
    var ok := TestPasses(lease, tests[j], env.clock(offset + j), env);
    var before, more := tests[..j], tests[..j + 1];
    assert more[j] == tests[j] && forall k :: 0 <= k < j ==> more[k] == before[k];
    if !alreadyHalted && passed == j {
      assert IsTestLog(records + [TestRecord(tests[j].stepId, ok)], more, if ok then j + 1 else passed);
      assert TestsDone(lease, more, env, offset, if ok then j + 1 else passed);
    } else {
      assert IsTestLog(records + [TestRecord(tests[j].stepId, false)], more, passed);
    }
  }

  class GovernedExecutor {
    const toolgate: ToolGate.Gate
    var tree: Tree

    constructor (toolgate: ToolGate.Gate, tree: Tree)
      ensures this.toolgate == toolgate && this.tree == tree
    {
      this.toolgate, this.tree := toolgate, tree;
    }

    /** `_execute_step` */
    method ExecuteStep(s: Step, now: int) returns (status: Status)
      requires toolgate.Valid()
      modifies this, toolgate
      ensures toolgate.Valid()
      ensures var effect := StepEffect(old(tree), s);
              if StepPermitted(old(toolgate.lease), s, now) && effect.Some?
              then status == Completed && tree == effect.value && toolgate.lease == old(toolgate.lease)
              else status == Failed && tree == old(tree)
      ensures WellFormed(old(tree)) ==> WellFormed(tree)
    {
      var allowed, _ := toolgate.RequestCapability(s.capability, s.path, now);
      if !allowed { return Failed; }
      var effect := StepEffect(tree, s);
      if effect.None? { return Failed; }
      if WellFormed(tree) { EffectKeepsWellFormed(tree, s.operation, s.path, s.content); }
      tree := effect.value;
      return Completed;
    }

    /** One round of the loop over modification steps, nothing having failed so far. */
    method RunNext(ghost lease: Option<Lease>, ghost before: Tree, steps: seq<Step>, env: Surroundings, i: nat,
        actions: seq<Action>, artifacts: seq<string>)
      returns (actions': seq<Action>, artifacts': seq<string>, halted: bool, ghost done: nat)
      requires toolgate.Valid() && toolgate.lease == lease
      requires i < |steps| && SoFar(lease, before, steps, env, i, i, tree, actions, artifacts)
      modifies this, toolgate
      ensures toolgate.Valid()
      ensures SoFar(lease, before, steps, env, i + 1, done, tree, actions', artifacts')
      ensures if halted then done == i else done == i + 1 && toolgate.lease == lease
    {
      var s := steps[i];
      NextStepDecides(lease, before, steps, env, i, tree, actions, artifacts);
      hide *;
      var status := ExecuteStep(s, env.clock(i));
      actions' := actions + [Logged(s, status)];
      artifacts', halted, done := artifacts, status == Failed, i;
      if !halted {
        done := i + 1;
        if LeavesArtifact(s.operation) {
          artifacts' := artifacts + [s.path];
        }
      }
    }

    /** The loop over modification steps. */
    method RunModifications(steps: seq<Step>, env: Surroundings)
        returns (actions: seq<Action>, artifacts: seq<string>, halted: bool, ghost done: nat)
      requires toolgate.Valid()
      modifies this, toolgate
      ensures toolgate.Valid()
      ensures StepsDone(old(toolgate.lease), old(tree), steps, env, done, tree)
      ensures IsActionLog(actions, steps, done)
      ensures artifacts == ArtifactsOf(steps[..done])
      ensures halted <==> done < |steps|
      ensures !halted ==> toolgate.lease == old(toolgate.lease)
      ensures WellFormed(old(tree)) ==> WellFormed(tree)
    {
      actions, artifacts, halted, done := [], [], false, 0;
      ghost var lease, before := toolgate.lease, tree;
      assert SoFar(lease, before, steps, env, 0, 0, tree, actions, artifacts);
      hide *;
      for i := 0 to |steps|
        invariant toolgate.Valid() && done <= i
        invariant SoFar(lease, before, steps, env, i, done, tree, actions, artifacts)
        invariant halted <==> done < i
        invariant !halted ==> toolgate.lease == lease
      {
        if halted {
          LaterStepsAreSkipped(lease, before, steps, env, i, done, tree, actions, artifacts);
          actions := actions + [Logged(steps[i], Skipped)];
        } else {
          actions, artifacts, halted, done := RunNext(lease, before, steps, env, i, actions, artifacts);
        }
      }
      AllSoFar(lease, before, steps, env, done, tree, actions, artifacts);
      DoneKeepsWellFormed(lease, before, steps, env, done, tree);
    }

    /** `_run_test` */
    method RunTest(s: Step, now: int, env: Surroundings) returns (passed: bool)
      requires toolgate.Valid()
      modifies toolgate
      ensures toolgate.Valid()
      ensures passed <==> TestPasses(old(toolgate.lease), s, now, env)
      ensures passed ==> toolgate.lease == old(toolgate.lease)
    {
      if HasShellPattern(s.path) { return false; }
      var allowed, _ := toolgate.RequestCapability("TEST_EXECUTION", "", now);
      if !allowed { return false; }
      return env.commandSucceeds(s.path);
    }

    /** The loop over test steps, all of them skipped when an earlier step failed. */
    method RunTests(tests: seq<Step>, env: Surroundings, offset: nat, alreadyHalted: bool)
      returns (records: seq<TestRecord>, halted: bool, ghost passed: nat)
      requires toolgate.Valid()
      modifies toolgate
      ensures if alreadyHalted then passed == 0 else TestsDone(old(toolgate.lease), tests, env, offset, passed)
      ensures IsTestLog(records, tests, passed)
      ensures halted <==> alreadyHalted || passed < |tests|
    {
      records, halted, passed := [], alreadyHalted, 0;
      ghost var lease := toolgate.lease;
      for j := 0 to |tests|
        invariant toolgate.Valid() && passed <= j
        invariant TestsSoFar(lease, tests, env, offset, alreadyHalted, j, passed, records)
        invariant halted <==> alreadyHalted || passed < j
        invariant !halted ==> toolgate.lease == lease
      {
        hide *;
        NextTestDecides(lease, tests, env, offset, alreadyHalted, j, passed, records);
        if halted {
          records := records + [TestRecord(tests[j].stepId, false)];
        } else {
          var ok := RunTest(tests[j], env.clock(offset + j), env);
          records := records + [TestRecord(tests[j].stepId, ok)];
          if ok { passed := j + 1; } else { halted := true; }
        }
      }
      assert tests[..|tests|] == tests;
    }

    /** `execute` */
    method Execute(steps: seq<Step>, env: Surroundings) returns (r: Result, ghost done: nat, ghost passed: nat)
      requires toolgate.Valid()
      modifies this, toolgate
      ensures IsExecution(old(toolgate.lease), old(tree), steps, env, tree, r, done, passed)
      ensures WellFormed(old(tree)) ==> WellFormed(tree)
    {
      var mods, tests := ModificationSteps(steps), TestSteps(steps);
      var actions, artifacts, stopped, records, halted;
      actions, artifacts, stopped, done := RunModifications(mods, env);
      records, halted, passed := RunTests(tests, env, |mods|, stopped);
      var anyCompleted := exists i :: 0 <= i < |actions| && actions[i].status == Completed;
      if done > 0 {
        assert actions[0].status == Completed;
      }
      r := Result(actions, artifacts, records, VerdictOf(!halted, anyCompleted));
    }
  }
}
