/** The bridge translator: integration proposals become runtime proposals. */
module Translator {
  import opened Prelude
  import opened Artifacts
  import Compiler
  import Text

  /** An acceptance test is given as a bare command or as a full test. */
  datatype RawTest = Command(command: string) | Given(test: AcceptanceTest)

  datatype IntegrationProposal = IntegrationProposal(
    proposalId: string,
    operationClass: string,
    authorAgent: string,
    intentSummary: string,
    targetPath: string,
    changeMode: Option<string>,
    changeText: Option<string>,
    changeContent: Option<string>,
    replacementText: string,
    argv: seq<string>,
    acceptanceTests: seq<RawTest>,
    allowedPaths: Option<seq<string>>,
    disallowedPaths: seq<string>,
    sideEffectFlags: seq<string>)

  /** `_OPERATION_CLASS_TO_OP` */
  function ClassOperation(operationClass: string): Option<string> {
    if operationClass == "docs_edit" then Some("append")
    else if operationClass == "code_edit" || operationClass == "config_edit" then Some("modify")
    else if operationClass == "test_run" || operationClass == "asset_create" then Some("create")
    else None
  }

  /** `_MODE_TO_OP.get(mode, default)` */
  function ModeOperation(mode: string, default: string): string {
    if mode == "create_file" then "create"
    else if mode == "append_text" then "append"
    else if mode == "replace_text" then "modify"
    else if mode == "delete_file" then "delete"
    else default
  }

  function JoinWords(words: seq<string>): string {
    if words == [] then "" else if |words| == 1 then words[0] else words[0] + " " + JoinWords(words[1..])
  }

  /** `_build_modifications`: always one modification, of the target path. */
  function TheModification(p: IntegrationProposal): Modification
    requires ClassOperation(p.operationClass).Some?
  {
    if p.operationClass == "docs_edit" then
      Modification(p.targetPath, ModeOperation(OrElse(p.changeMode, "append_text"), "append"), OrElse(p.changeText, ""))
    else if p.operationClass == "code_edit" then
      Modification(p.targetPath, "modify", p.replacementText)
    else if p.operationClass == "test_run" then
      Modification(p.targetPath, "create", if p.argv != [] then JoinWords(p.argv) else "echo 'no test'")
    else
      Modification(p.targetPath, ModeOperation(OrElse(p.changeMode, "modify"), ClassOperation(p.operationClass).value),
                   OrElse(p.changeText, OrElse(p.changeContent, "")))
  }

  function TranslatedTest(raw: RawTest, i: nat): AcceptanceTest {
    match raw
    case Command(command) => AcceptanceTest(Compiler.StepId("bridge-test-", i), command)
    case Given(test) => test
  }

  /** At least one acceptance test is always there. */
  function TranslatedTests(raw: seq<RawTest>): (tests: seq<AcceptanceTest>)
    ensures tests != []
  {
    if raw == [] then [AcceptanceTest("bridge-test-default", "echo 'bridge default test'")]
    else seq(|raw|, i requires 0 <= i < |raw| => TranslatedTest(raw[i], i))
  }

  /** The first pattern of `_SOURCE_PATTERNS` found in the author decides. */
  function SourceOf(author: string): string {
    if Text.Contains(author, "behavior_author") || Text.Contains(author, "planner")
       || Text.Contains(author, "author") || Text.Contains(author, "swarm") then "m2"
    else if Text.Contains(author, "gateway") then "gateway"
    else "operator"
  }

  /** `integration_proposal_to_m4` */
  function Translate(p: IntegrationProposal): Outcome<Proposal> {
    if ClassOperation(p.operationClass).None? then Raised
    else
      var targets := if p.targetPath != "" then [p.targetPath] else [];
      Ok(Proposal(
           p.proposalId, SourceOf(p.authorAgent), p.intentSummary, targets, [TheModification(p)],
               TranslatedTests(p.acceptanceTests),
           OrElse(p.allowedPaths, targets), p.disallowedPaths, p.sideEffectFlags))
  }
}
