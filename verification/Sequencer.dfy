/** `SequencePipeline` and `build_document_sequence`: several proposals run one after the other. */
module Sequencer {
  import opened Prelude
  import opened Artifacts
  import opened Workspace
  import opened ScopePath
  import opened Translator
  import Admission
  import Compiler
  import Executor
  import LeaseManager
  import PipelineRunner
  import Text
  import Validator

  /** A failed step either ran and did not complete, or raised before anything was carried out. */
  datatype StepStatus = Success | NotCompleted | Refused

  datatype SequenceStatus = SequenceCompleted | SequencePartial | SequenceFailed

  datatype SequenceResult = SequenceResult(steps: seq<StepStatus>, status: SequenceStatus, outputPath: Option<string>)

  /** Every file of `after` holds what the first `count` modifications of `p` make of it. */
  ghost predicate Transforms(p: Proposal, count: nat, before: Tree, after: Tree) {
    count <= |p.modifications| &&
    forall path :: Lookup(after, path)
        == ContentAfter(path, Lookup(before, path), Admission.ModificationPart(p)[..count])
  }

  /** A run that was carried out transforms the tree by its completed modifications, all of them when it completed. */
  lemma {:induction false} CarriedOutTransforms(p: Proposal, c: PipelineRunner.Context, before: Tree, after: Tree,
      record: PipelineRunner.Record,
                             plan: Plan, lease: Lease, done: nat, passed: nat)
    requires PipelineRunner.Admits(p, c)
    requires PipelineRunner.IsCarriedOut(p, c, before, after, record, plan, lease, done, passed)
    ensures Transforms(p, done, before, after)
    ensures record.result.verdict == Executor.AllCompleted ==> done == |p.modifications|
  {
    Admission.ExecutorSplitsPlan(p);
    forall path ensures done <= |p.modifications|
                && Lookup(after, path) == ContentAfter(path, Lookup(before, path),
                   Admission.ModificationPart(p)[..done])
    {
      Admission.RunChangesOnlyItsScope(p, c.policy, Some(lease), before, c.env, after, record.result, done, passed,
          path);
    }
  }

  /** The target of the last of the first `n` proposals that names one. */
  function LastTarget(proposals: seq<IntegrationProposal>, n: nat): Option<string>
    requires n <= |proposals|
  {
    if n == 0 then None
    else if proposals[n - 1].targetPath != "" then Some(proposals[n - 1].targetPath)
    else LastTarget(proposals, n - 1)
  }

  /** The results of a sequence are successes followed by at most one failure, which decides its status. */
  ghost predicate IsResult(r: SequenceResult, proposals: seq<IntegrationProposal>) {
    && |r.steps| <= |proposals|
    && (forall i :: 0 <= i < |r.steps| - 1 ==> r.steps[i] == Success)
    && match r.status
       case SequenceCompleted =>
         |r.steps| == |proposals| && (r.steps != [] ==> r.steps[|r.steps| - 1] == Success)
         && r.outputPath == LastTarget(proposals, |r.steps|)
       case SequencePartial =>
         r.steps != [] && r.steps[|r.steps| - 1] == NotCompleted && r.outputPath == LastTarget(proposals, |r.steps| - 1)
       case SequenceFailed =>
         r.steps != [] && r.steps[|r.steps| - 1] == Refused && r.outputPath == LastTarget(proposals, |r.steps| - 1)
  }

  /** A failed step did nothing, or carried out the first few of its modifications. */
  ghost predicate PartlyTransforms(p: Proposal, before: Tree, after: Tree) {
    after == before || exists count: nat :: Transforms(p, count, before, after)
  }

  /** A translated proposal that is not admitted does nothing; any other is executed, and succeeds when it completes. */
  ghost predicate IsStep(p: IntegrationProposal, c: PipelineRunner.Context, status: StepStatus, before: Tree,
      after: Tree)
  {
    match Translate(p)
    case Raised => false
    case Ok(m4) =>
      if PipelineRunner.Admits(m4, c) then exists x: Carried :: IsExecutedStep(m4, c, status, before, after, x)
      else status == Refused && after == before
  }

  /** What is known of one execution besides its effect. */
  datatype Carried = Carried(record: PipelineRunner.Record, plan: Plan, lease: Lease, done: nat, passed: nat)

  ghost predicate IsExecutedStep(m4: Proposal, c: PipelineRunner.Context, status: StepStatus, before: Tree, after: Tree,
      x: Carried)
  {
    && PipelineRunner.IsCarriedOut(m4, c, before, after, x.record, x.plan, x.lease, x.done, x.passed)
    && status == if x.record.result.verdict == Executor.AllCompleted then Success else NotCompleted
  }

  /** `trees` are the workspaces around each attempted step. */
  ghost predicate IsHistory(trees: seq<Tree>, steps: seq<StepStatus>, proposals: seq<IntegrationProposal>,
      contexts: seq<PipelineRunner.Context>)
  {
    && |trees| == |steps| + 1 && |steps| <= |proposals| == |contexts|
    && forall i :: 0 <= i < |steps| ==> IsStep(proposals[i], contexts[i], steps[i], trees[i], trees[i + 1])
  }

  /** A successful step applies its whole proposal; a failed one at most the first part of it. */
  lemma {:induction false} StepTransforms(p: IntegrationProposal, c: PipelineRunner.Context, status: StepStatus,
      before: Tree, after: Tree)
    requires Translate(p).Ok?
    ensures IsStep(p, c, status, before, after) ==>
              var m4 := Translate(p).value;
              if status == Success then Transforms(m4, |m4.modifications|, before, after)
              else PartlyTransforms(m4, before, after)
  {
    var m4 := Translate(p).value;
    hide Translate, Transforms;
    if IsStep(p, c, status, before, after) && PipelineRunner.Admits(m4, c) {
      var x: Carried :| IsExecutedStep(m4, c, status, before, after, x);
      CarriedOutTransforms(m4, c, before, after, x.record, x.plan, x.lease, x.done, x.passed);
    }
  }

  lemma HistoryStarts(tree: Tree, proposals: seq<IntegrationProposal>, contexts: seq<PipelineRunner.Context>)
    requires |contexts| == |proposals|
    ensures IsHistory([tree], [], proposals, contexts)
  {}

  lemma HistoryGrows(trees: seq<Tree>, steps: seq<StepStatus>, proposals: seq<IntegrationProposal>,
      contexts: seq<PipelineRunner.Context>, status: StepStatus, tree: Tree)
    requires |trees| == |steps| + 1 && |steps| < |proposals| == |contexts|
    ensures IsHistory(trees, steps, proposals, contexts)
            && IsStep(proposals[|steps|], contexts[|steps|], status, trees[|steps|], tree) ==>
              IsHistory(trees + [tree], steps + [status], proposals, contexts)
  {
    hide IsStep;
  }

  class SequencePipeline {
    const runner: PipelineRunner.Runner

    constructor (runner: PipelineRunner.Runner)
      ensures this.runner == runner
    {
      this.runner := runner;
    }

    /** One step: the translated proposal goes through the whole pipeline. */
    method RunStep(p: IntegrationProposal, c: PipelineRunner.Context) returns (status: StepStatus)
      requires Translate(p).Ok? && (p.targetPath == "" || Canonical(p.targetPath))
      modifies runner
      ensures IsStep(p, c, status, old(runner.tree), runner.tree)
      ensures WellFormed(old(runner.tree)) ==> WellFormed(runner.tree)
    {
      var m4 := Translate(p).value;
      ghost var before := runner.tree;
      assert forall m <- m4.modifications :: m.path == p.targetPath;
      hide Translate, Canonical, WellFormed, PipelineRunner.Admits, PipelineRunner.IsCarriedOut;
      var r;
      ghost var plan, lease, done, passed;
      r, plan, lease, done, passed := runner.Run(m4, c);
      if r.Raised? { return Refused; }
      status := if r.value.result.verdict == Executor.AllCompleted then Success else NotCompleted;
      assert IsExecutedStep(m4, c, status, before, runner.tree, Carried(r.value, plan, lease, done, passed));
    }

    /**
     `run_sequence`: steps run in order, and the first that fails ends the sequence.  An unsupported
     operation class raises out of the sequence, after the steps before it.
     */
    method RunSequence(proposals: seq<IntegrationProposal>, contexts: seq<PipelineRunner.Context>)
      returns (r: Outcome<SequenceResult>, ghost trees: seq<Tree>)
      requires |contexts| == |proposals|
      requires forall p <- proposals :: p.targetPath == "" || Canonical(p.targetPath)
      modifies runner
      ensures trees != [] && trees[0] == old(runner.tree) && trees[|trees| - 1] == runner.tree
      ensures match r
              case Ok(result) => IsResult(result, proposals) && IsHistory(trees, result.steps, proposals, contexts)
              case Raised => |trees| <= |proposals| && Translate(proposals[|trees| - 1]).Raised?
                             && IsHistory(trees, seq(|trees| - 1, _ => Success), proposals, contexts)
      ensures WellFormed(old(runner.tree)) ==> forall t <- trees :: WellFormed(t)
    {
      hide IsStep, IsHistory, Translate, Canonical, WellFormed;
      trees := [runner.tree];
      assert IsHistory(trees, [], proposals, contexts) by { HistoryStarts(runner.tree, proposals, contexts); }
      var steps: seq<StepStatus> := [];
      var outputPath: Option<string> := None;
      for i := 0 to |proposals|
        invariant |steps| == i && forall k :: 0 <= k < i ==> steps[k] == Success
        invariant IsHistory(trees, steps, proposals, contexts)
        invariant |trees| == i + 1 && trees[0] == old(runner.tree) && trees[i] == runner.tree
        invariant outputPath == LastTarget(proposals, i)
        invariant WellFormed(trees[0]) ==> forall t <- trees :: WellFormed(t)
      {
        var m4 := Translate(proposals[i]);
        if m4.Raised? {
          assert steps == seq(|trees| - 1, _ => Success);
          return Raised, trees;
        }
        var status := RunStep(proposals[i], contexts[i]);
        HistoryGrows(trees, steps, proposals, contexts, status, runner.tree);
        steps := steps + [status];
        trees := trees + [runner.tree];
        if status == Success && proposals[i].targetPath != "" {
          outputPath := Some(proposals[i].targetPath);
        }
        if status != Success {
          return Ok(SequenceResult(steps, if status == Refused then SequenceFailed else SequencePartial, outputPath)),
                                          trees;
        }
      }
      return Ok(SequenceResult(steps, SequenceCompleted, outputPath)), trees;
    }
  }

  // ---------- documents ----------

  const SHELL_DANGEROUS: set<char> :=
                           {';', '|', '&', '`', '$', '(', ')', '{', '}', '\\', '\'', '"', '\n', '\r', '<', '>'}

  predicate IsSafe(value: string) {
    forall c <- value :: c !in SHELL_DANGEROUS
  }

  function DocumentStep(id: string, summary: string, target: string, mode: string, text: string): IntegrationProposal {
    IntegrationProposal(
      id, "docs_edit", "sequence_composer.main", summary, target,
      Some(mode), Some(text), None, "", [], [Command("test -f " + target)], Some([target]), ["src/", "runtime/"],
          ["filesystem_write"])
  }

  /** `build_document_sequence`: create with the title, then append the byline and the body. */
  function BuildDocumentSequence(sequenceId: string, target: string, title: string, byline: string,
      body: string): Outcome<seq<IntegrationProposal>>
  {
    if !IsSafe(title) || !IsSafe(byline) || !IsSafe(body) || !IsSafe(target) then Raised
    else if Text.Contains(target, "..") then Raised
    else Ok([DocumentStep(sequenceId + ".step-1-title", "Step 1 of document composition: title.", target, "create_file",
        "# " + title + "\n\n"),
             DocumentStep(sequenceId + ".step-2-byline", "Step 2 of document composition: byline.", target,
                 "append_text", "*By " + byline + "*\n\n"),
             DocumentStep(sequenceId + ".step-3-body", "Step 3 of document composition: body.", target, "append_text",
                 body + "\n")])
  }

  function DocumentText(title: string, byline: string, body: string): string {
    ("# " + title + "\n\n") + ("*By " + byline + "*\n\n") + (body + "\n")
  }

  /** One document step sets or extends the target and leaves every other file alone. */
  lemma DocumentStepEffect(id: string, summary: string, target: string, mode: string, text: string, before: Tree,
      after: Tree)
    requires mode == "create_file" || mode == "append_text"
    requires var m4 := Translate(DocumentStep(id, summary, target, mode, text));
             m4.Ok? && Transforms(m4.value, |m4.value.modifications|, before, after)
    ensures Lookup(after, target) == Some(if mode == "create_file" then text
                                          else OrElse(Lookup(before, target), "") + text)
    ensures forall path :: path != target ==> Lookup(after, path) == Lookup(before, path)
  {
    var m4 := Translate(DocumentStep(id, summary, target, mode, text)).value;
    var steps := Admission.ModificationPart(m4);
    var s := Compiler.ModificationStep(TheModification(DocumentStep(id, summary, target, mode, text)), 0);
    assert steps == [s] && steps[..1] == steps;
    forall path ensures Lookup(after, path) == ContentAfter(path, Lookup(before, path), [s]) {
    }
    forall path { SingleStepContent(path, Lookup(before, path), s); }
  }

  lemma SingleStepContent(path: string, initial: Option<string>, s: Step)
    ensures ContentAfter(path, initial, [s]) ==
            if s.path != path then initial
            else if s.operation == "delete" then None
            else if s.operation == "append" then Some((if initial.Some? then initial.value else "") + s.content)
            else Some(s.content)
  {
    assert [s][..0] == [];
  }

  /**
   A completed document sequence leaves the target holding exactly title, byline and body, whatever
   the workspace held before, and leaves every other file unchanged.
   */
  lemma {:induction false} DocumentIsExact(sequenceId: string, target: string, title: string, byline: string,
      body: string,
                        contexts: seq<PipelineRunner.Context>, r: SequenceResult, trees: seq<Tree>)
    requires var built := BuildDocumentSequence(sequenceId, target, title, byline, body);
             built.Ok? && IsResult(r, built.value) && IsHistory(trees, r.steps, built.value, contexts)
                 && r.status == SequenceCompleted
    ensures |trees| == 4
    ensures Lookup(trees[3], target) == Some(DocumentText(title, byline, body))
    ensures forall path :: path != target ==> Lookup(trees[3], path) == Lookup(trees[0], path)
  {
    var proposals := BuildDocumentSequence(sequenceId, target, title, byline, body).value;
    assert r.steps[0] == Success && r.steps[1] == Success && r.steps[2] == Success;
    hide IsStep, Translate;
    forall i | 0 <= i < 3 ensures IsStep(proposals[i], contexts[i], Success, trees[i], trees[i + 1]) {}
    StepTransforms(proposals[0], contexts[0], Success, trees[0], trees[1]);
    StepTransforms(proposals[1], contexts[1], Success, trees[1], trees[2]);
    StepTransforms(proposals[2], contexts[2], Success, trees[2], trees[3]);
    DocumentStepEffect(sequenceId + ".step-1-title", "Step 1 of document composition: title.", target, "create_file",
        "# " + title + "\n\n", trees[0], trees[1]);
    DocumentStepEffect(sequenceId + ".step-2-byline", "Step 2 of document composition: byline.", target, "append_text",
        "*By " + byline + "*\n\n", trees[1], trees[2]);
    DocumentStepEffect(sequenceId + ".step-3-body", "Step 3 of document composition: body.", target, "append_text",
        body + "\n", trees[2], trees[3]);
  }

  // ---------- a document sequence completes ----------

  /** The surroundings of one step leave it alone: admitted, within its window, its tests succeeding. */
  ghost predicate Favourable(p: IntegrationProposal, c: PipelineRunner.Context) {
    && Translate(p).Ok? && PipelineRunner.Admits(Translate(p).value, c)
    && (forall i: nat :: PipelineRunner.WindowOpen(c, c.env.clock(i)))
    && (forall t <- Translate(p).value.acceptanceTests :: c.env.commandSucceeds(t.command))
  }

  lemma DocumentTestIsPlain(target: string)
    requires IsSafe(target)
    ensures !Executor.HasShellPattern("test -f " + target)
  {
    var command := "test -f " + target;
    forall i | 0 <= i < |Executor.SHELL_PATTERNS| ensures !Text.Contains(command, Executor.SHELL_PATTERNS[i]) {
      var pattern := Executor.SHELL_PATTERNS[i];
      assert pattern[0] in SHELL_DANGEROUS && pattern[0] !in "test -f ";
      assert pattern[0] !in command;
      forall k | 0 <= k <= |command| - |pattern| ensures !Text.OccursAt(command, pattern, k) {
        assert command[k..k + |pattern|][0] == command[k];
      }
    }
  }

  /** In favourable surroundings a document step succeeds wherever its target can be written. */
  lemma {:induction false} DocumentStepSucceeds(id: string, summary: string, target: string, mode: string, text: string,
                             c: PipelineRunner.Context, status: StepStatus, before: Tree, after: Tree)
    requires mode == "create_file" || mode == "append_text"
    requires IsSafe(target) && Canonical(target) && ParentsUsable(before, target) && target !in before.dirs
    requires var p := DocumentStep(id, summary, target, mode, text);
             Favourable(p, c) && IsStep(p, c, status, before, after)
    ensures status == Success && ParentsUsable(after, target) && target !in after.dirs
  {
    var p := DocumentStep(id, summary, target, mode, text);
    var m4 := Translate(p).value;
    var x: Carried :| IsExecutedStep(m4, c, status, before, after, x);
    DocumentTestIsPlain(target);
    assert m4.modifications[0].path == target;
    assert m4.modifications[0].operation == if mode == "create_file" then "create" else "append";
    assert m4.acceptanceTests[0] in m4.acceptanceTests && m4.acceptanceTests[0].command == "test -f " + target;
    hide Translate, Executor.HasShellPattern, Canonical, IsSafe;
    SingleModificationRuns(m4, c, before, after, x);
  }

  /** An admitted proposal of one writable modification and one plain, succeeding test completes. */
  lemma {:induction false} SingleModificationRuns(m4: Proposal, c: PipelineRunner.Context, before: Tree, after: Tree,
      x: Carried)
    requires |m4.modifications| == |m4.acceptanceTests| == 1
    requires m4.modifications[0].operation == "create" || m4.modifications[0].operation == "append"
    requires var path := m4.modifications[0].path;
               Canonical(path) && ParentsUsable(before, path) && path !in before.dirs
    requires var command := m4.acceptanceTests[0].command;
               !Executor.HasShellPattern(command) && c.env.commandSucceeds(command)
    requires PipelineRunner.Admits(m4, c) && forall i: nat :: PipelineRunner.WindowOpen(c, c.env.clock(i))
    requires PipelineRunner.IsCarriedOut(m4, c, before, after, x.record, x.plan, x.lease, x.done, x.passed)
    ensures x.record.result.verdict == Executor.AllCompleted
    ensures var path := m4.modifications[0].path; ParentsUsable(after, path) && path !in after.dirs
  {
    var m := m4.modifications[0];
    SingleModificationEnds(m4, c, before, after, x);
    var steps := Admission.ModificationPart(m4);
    hide *;
    WritingKeepsUsable(before, m.operation, m.path, m.content);
    OneStepDone(Some(x.lease), before, steps, c.env, x.done, after, m);
  }

  /** How the run of a proposal with one modification and one sound test can end. */
  lemma {:induction false} SingleModificationEnds(m4: Proposal, c: PipelineRunner.Context, before: Tree, after: Tree,
      x: Carried)
    requires |m4.modifications| == |m4.acceptanceTests| == 1 && Canonical(m4.modifications[0].path)
    requires var command := m4.acceptanceTests[0].command;
               !Executor.HasShellPattern(command) && c.env.commandSucceeds(command)
    requires PipelineRunner.Admits(m4, c) && forall i: nat :: PipelineRunner.WindowOpen(c, c.env.clock(i))
    requires PipelineRunner.IsCarriedOut(m4, c, before, after, x.record, x.plan, x.lease, x.done, x.passed)
    ensures var m := m4.modifications[0];
            && Admission.ModificationPart(m4) == [Compiler.ModificationStep(m, 0)]
            && Executor.StepsDone(Some(x.lease), before, Admission.ModificationPart(m4), c.env, x.done, after)
            && (x.done == 0 ==> Effect(after, m.operation, m.path, m.content).None?)
            && (x.done == 1 ==> x.record.result.verdict == Executor.AllCompleted)
  {
    var v := ValidationResult(c.validationId, m4.proposalId, true, Signed(true));
    hide *;
    assert forall m <- m4.modifications :: m == m4.modifications[0];
    CarriedIsAdmitted(m4, c, before, after, x);
    Admission.AdmittedRunIsNotRefused(x.plan, m4, v, c.policy, x.lease, c.issuedAt, PipelineRunner.LEASE_SECONDS,
                                      before, c.env, after, x.record.result, x.done, x.passed);
    Admission.AdmittedRunSteps(x.plan, m4, v, c.policy, x.lease, c.issuedAt, PipelineRunner.LEASE_SECONDS,
                               before, c.env, after, x.record.result, x.done, x.passed);
    OneModificationPart(m4);
  }

  lemma OneModificationPart(m4: Proposal)
    requires |m4.modifications| == 1
    ensures Admission.ModificationPart(m4) == [Compiler.ModificationStep(m4.modifications[0], 0)]
  {}

  lemma CarriedIsAdmitted(m4: Proposal, c: PipelineRunner.Context, before: Tree, after: Tree, x: Carried)
    requires forall m <- m4.modifications :: Canonical(m.path)
    requires PipelineRunner.Admits(m4, c) && forall i: nat :: PipelineRunner.WindowOpen(c, c.env.clock(i))
    requires PipelineRunner.IsCarriedOut(m4, c, before, after, x.record, x.plan, x.lease, x.done, x.passed)
    ensures Admission.AdmittedRun(x.plan, m4, ValidationResult(c.validationId, m4.proposalId, true, Signed(true)),
            c.policy, x.lease,
                                  c.issuedAt, PipelineRunner.LEASE_SECONDS, before, c.env, after, x.record.result,
                                      x.done, x.passed)
  {
    hide Executor.IsExecution, Canonical, Validator.Admissible, Executor.HasShellPattern, Admission.IsPlanOf,
        LeaseManager.LeaseFor;
  }

  lemma OneStepDone(lease: Option<Lease>, before: Tree, steps: seq<Step>, env: Executor.Surroundings, done: nat,
      after: Tree, m: Modification)
    requires steps == [Compiler.ModificationStep(m, 0)] && Executor.StepsDone(lease, before, steps, env, done, after)
    requires Effect(before, m.operation, m.path, m.content).Some?
    ensures if done == 0 then after == before
            else done == 1 && after == Effect(before, m.operation, m.path, m.content).value
  {
    hide Executor.StepPermitted, Effect;
    assert steps[..0] == [] && steps[..1] == steps;
    if done == 1 {
      assert steps[..1][..0] == [];
    }
  }

  lemma WritingKeepsUsable(t: Tree, operation: string, path: string, content: string)
    requires operation == "create" || operation == "append"
    requires ParentsUsable(t, path) && path !in t.dirs
    ensures var r := Effect(t, operation, path, content);
            r.Some? && ParentsUsable(r.value, path) && path !in r.value.dirs
  {
    forall d | d in Parents(path) ensures |d| < |path| {}
  }

  ghost predicate CanHold(t: Tree, target: string) {
    ParentsUsable(t, target) && target !in t.dirs
  }

  /** One step of a document history. */
  lemma {:induction false} DocumentHistoryStep(sequenceId: string, target: string, title: string, byline: string,
      body: string,
                            contexts: seq<PipelineRunner.Context>, steps: seq<StepStatus>, trees: seq<Tree>, i: nat)
    requires var built := BuildDocumentSequence(sequenceId, target, title, byline, body);
             && built.Ok? && IsHistory(trees, steps, built.value, contexts)
             && i < |steps| && Favourable(built.value[i], contexts[i])
    requires Canonical(target) && CanHold(trees[i], target)
    ensures steps[i] == Success && CanHold(trees[i + 1], target)
  {
    var p := BuildDocumentSequence(sequenceId, target, title, byline, body).value[i];
    hide IsStep, Translate, Favourable, Canonical;
    DocumentStepSucceeds(p.proposalId, p.intentSummary, target, p.changeMode.value, p.changeText.value, contexts[i],
        steps[i], trees[i], trees[i + 1]);
  }

  /**
   A document sequence whose steps are admitted in their windows, with their tests succeeding, completes
   in every workspace where the target can be written; with `DocumentIsExact` its text is then there.
   */
  lemma DocumentCompletes(sequenceId: string, target: string, title: string, byline: string, body: string,
                          contexts: seq<PipelineRunner.Context>, r: SequenceResult, trees: seq<Tree>)
    requires var built := BuildDocumentSequence(sequenceId, target, title, byline, body);
             && built.Ok? && IsResult(r, built.value) && IsHistory(trees, r.steps, built.value, contexts)
             && forall i :: 0 <= i < 3 ==> Favourable(built.value[i], contexts[i])
    requires Canonical(target) && CanHold(trees[0], target)
    ensures r.status == SequenceCompleted
  {
    hide IsStep, Translate, Favourable, Canonical, CanHold;
    for i := 0 to |r.steps|
      invariant CanHold(trees[i], target)
      invariant forall k :: 0 <= k < i ==> r.steps[k] == Success
    {
      DocumentHistoryStep(sequenceId, target, title, byline, body, contexts, r.steps, trees, i);
    }
  }

  // ---------- when a document step is admitted ----------

  /**
   The scope of a document step follows from its own target: it is admissible exactly when the target is
   given and lies outside the source directories, and the policy has nothing against the step.
   */
  lemma DocumentStepAdmissibleIff(id: string, summary: string, target: string, mode: string, text: string,
      policy: Validator.Policy)
    requires mode == "create_file" || mode == "append_text"
    requires !Text.Contains(target, "..")
    ensures var m4 := Translate(DocumentStep(id, summary, target, mode, text));
            && m4.Ok?
            && (Validator.Admissible(m4.value, policy) <==>
                  && target != "" && !CoveredByAny(["src/", "runtime/"], target)
                  && policy.schemaRest(m4.value) && !policy.nonDeterministic("test -f " + target)
                     && !policy.selfCertifying(summary))
  {
    var m4 := Translate(DocumentStep(id, summary, target, mode, text)).value;
    var m := m4.modifications[0];
    assert m4.modifications == [m] && m.path == target && m.operation ==
        if mode == "create_file" then "create" else "append";
    var t := m4.acceptanceTests[0];
    assert m4.acceptanceTests == [t] && t.command == "test -f " + target;
    assert m4.allowedPaths == [target] && Covers(m4.allowedPaths[0], target);
    hide Text.Contains, CoveredByAny, Translate;
    assert CoveredByAny(m4.allowedPaths, target) by { OwnPathCovered(target); }
  }

  lemma OwnPathCovered(path: string)
    ensures CoveredByAny([path], path)
  {
    assert Covers([path][0], path);
  }
}
