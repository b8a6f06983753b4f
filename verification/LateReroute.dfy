/** A run with the default thresholds that ends with an injected branch waiting. */
module LateReroute {
  import opened Prelude
  import opened ImprovementLedger
  import opened AdaptiveScheduler
  import opened Orchestrator
  import opened AdaptiveRuns

  const DEFAULTS := Config(0.03, 2, 5, 0.75, 0.4, 0.5)

  const WRITTEN := BRIEFING_SYNTHESIS
  const SPEECH := TTS_GENERATION

  const BRANCHES := [Slot(WRITTEN, true), Slot(SPEECH, true)]

  /** The branches after a reroute: the speech branch is off, the speech-script branch appended. */
  const REROUTED := [Slot(WRITTEN, true), Slot(SPEECH, false), Slot(SPEECH_SCRIPT_PREP, true)]

  /** The written branch improves to the target while the speech branch does not move. */
  ghost predicate Scores(scoreOf: (string, int) -> real) {
    && scoreOf(WRITTEN, 1) == 0.5 && scoreOf(WRITTEN, 2) == 0.6 && scoreOf(WRITTEN, 3) == 0.8
    && scoreOf(SPEECH, 1) == scoreOf(SPEECH, 2) == scoreOf(SPEECH, 3) == 0.5
  }

  lemma Names()
    ensures WRITTEN != SPEECH && WRITTEN != SPEECH_SCRIPT_PREP && SPEECH != SPEECH_SCRIPT_PREP
  {
    assert WRITTEN[0] == 'b' && SPEECH[0] == 't' && SPEECH_SCRIPT_PREP[0] == 's';
  }

  /** The two latest entries, and the branches as listed. */
  ghost predicate At(entries: seq<Entry>, written: Option<Entry>, speech: Option<Entry>) {
    LatestOf(entries, WRITTEN) == written && LatestOf(entries, SPEECH) == speech
    && LatestOf(entries, SPEECH_SCRIPT_PREP) == None
  }

  /** `decide` for the two branches, from the latest entries alone. */
  function Judge(e: Entry, written: Entry): Decision {
    if e.score >= 0.75 then Continue
    else if e.cycle >= 5 then TerminateBranch
    else if e.branch == SPEECH && e.stagnation >= 2 && written.delta > 0.03 then RerouteToSpeechScriptPrep
    else if e.stagnation >= 2 && e.score < 0.4 then TerminateBranch
    else if e.stagnation >= 2 then Deprioritize
    else if e.delta > 0.0 && e.score < 0.5 then IncreaseBudget
    else Continue
  }

  lemma DecideIsJudge(entries: seq<Entry>, e: Entry, written: Entry)
    requires LatestOf(entries, e.branch) == Some(e) && LatestOf(entries, WRITTEN) == Some(written)
    ensures Decide(entries, DEFAULTS, e.branch, e.cycle) == Judge(e, written)
  {
    hide LatestOf;
  }

  lemma AtExtends(entries: seq<Entry>, e: Entry, written: Option<Entry>, speech: Option<Entry>)
    requires At(entries, written, speech) && (e.branch == WRITTEN || e.branch == SPEECH)
    ensures if e.branch == WRITTEN then At(entries + [e], Some(e), speech) else At(entries + [e], written, Some(e))
  {
    Names();
    hide LatestOf;
    LatestExtends(entries, e, WRITTEN);
    LatestExtends(entries, e, SPEECH);
    LatestExtends(entries, e, SPEECH_SCRIPT_PREP);
  }

  /** The decision on a branch's new entry. */
  lemma {:induction false} NewEntryJudged(entries: seq<Entry>, e: Entry, written: Option<Entry>, speech: Option<Entry>)
    requires At(entries, written, speech) && (e.branch == WRITTEN || (e.branch == SPEECH && written.Some?))
    requires e.decision == Decide(entries + [e.(decision := Pending)], DEFAULTS, e.branch, e.cycle)
    ensures e.decision == Judge(e, if e.branch == WRITTEN then e else written.value)
  {
    Names();
    var pending := e.(decision := Pending);
    AtExtends(entries, pending, written, speech);
    hide LatestOf, Decide;
    DecideIsJudge(entries + [pending], pending, if e.branch == WRITTEN then pending else written.value);
  }

  /** One cycle over the two branches. */
  lemma {:induction false} PairCycle(entries: seq<Entry>, scoreOf: (string, int) -> real, cycle: int,
      written: Option<Entry>,
      speech: Option<Entry>)
    returns (w: Entry, t: Entry)
    requires At(entries, written, speech)
    ensures var r := RunBranches(entries, DEFAULTS, scoreOf, [WRITTEN, SPEECH], cycle);
            && r.decisions == map[WRITTEN := w.decision, SPEECH := t.decision]
            && At(r.entries, Some(w), Some(t))
    ensures w == NextEntry(written, 0.03, WRITTEN, cycle, scoreOf(WRITTEN, cycle), Judge(w, w))
    ensures t == NextEntry(speech, 0.03, SPEECH, cycle, scoreOf(SPEECH, cycle), Judge(t, w))
  {
    Names();
    w := WrittenHalf(entries, scoreOf, cycle, written, speech);
    var ids := [WRITTEN, SPEECH];
    assert ids[..1] == [WRITTEN];
    t := LastBranch(entries, DEFAULTS, scoreOf, ids, cycle);
    hide RunBranches, LatestOf, Judged, Decide, Judge, NextEntry;
    var more := RunBranches(entries, DEFAULTS, scoreOf, [WRITTEN], cycle).entries;
    assert LatestOf(more, SPEECH) == speech;
    NewEntryJudged(more, t, Some(w), speech);
    AtExtends(more, t, Some(w), speech);
  }

  lemma WrittenHalf(entries: seq<Entry>, scoreOf: (string, int) -> real, cycle: int, written: Option<Entry>,
      speech: Option<Entry>)
    returns (w: Entry)
    requires At(entries, written, speech)
    ensures var r := RunBranches(entries, DEFAULTS, scoreOf, [WRITTEN], cycle);
            r.decisions == map[WRITTEN := w.decision] && At(r.entries, Some(w), speech)
    ensures w == NextEntry(written, 0.03, WRITTEN, cycle, scoreOf(WRITTEN, cycle), Judge(w, w))
  {
    assert [WRITTEN][..0] == [];
    w := LastBranch(entries, DEFAULTS, scoreOf, [WRITTEN], cycle);
    assert RunBranches(entries, DEFAULTS, scoreOf, [], cycle) == Cycled(entries, map[]);
    hide RunBranches, LatestOf, Judged, Decide, Judge, NextEntry;
    assert LatestOf(entries, WRITTEN) == written;
    NewEntryJudged(entries, w, written, speech);
    AtExtends(entries, w, written, speech);
  }

  lemma BothActive()
    ensures ActiveIds(BRANCHES) == [WRITTEN, SPEECH]
  {
    assert BRANCHES[..2] == BRANCHES && BRANCHES[..1] == [BRANCHES[0]] && BRANCHES[..1][..0] == [];
    assert ActiveIds([BRANCHES[0]]) == [WRITTEN];
  }

  lemma BothStay(decisions: map<string, Decision>)
    requires decisions == map[WRITTEN := Continue, SPEECH := Continue]
    ensures Applied(BRANCHES, 0, decisions) == BRANCHES
  {
    assert Applied(BRANCHES, 2, decisions) == BRANCHES;
    assert Applied(BRANCHES, 1, decisions) == BRANCHES;
  }

  lemma Convergence(entries: seq<Entry>, w: Entry, t: Entry)
    requires At(entries, Some(w), Some(t))
    ensures w.score < 0.75 ==> !AllConverged(BRANCHES, entries, 0.75)
    ensures w.score >= 0.75 ==> AllConverged(REROUTED, entries, 0.75)
  {
    hide LatestOf;
    assert w.score < 0.75 ==> !IsConverged(BRANCHES[0], entries, 0.75);
  }

  /**
   One cycle of the loop: while both branches continue below target the next one comes, and a late
   reroute ends the run.
   */
  lemma CycleOfRun(entries: seq<Entry>, scoreOf: (string, int) -> real, cycle: int,
                   written: Option<Entry>, speech: Option<Entry>)
    returns (w: Entry, t: Entry, more: seq<Entry>)
    requires 1 <= cycle <= 5 && At(entries, written, speech)
    ensures w == NextEntry(written, 0.03, WRITTEN, cycle, scoreOf(WRITTEN, cycle), Judge(w, w))
    ensures t == NextEntry(speech, 0.03, SPEECH, cycle, scoreOf(SPEECH, cycle), Judge(t, w))
    ensures At(more, Some(w), Some(t))
    ensures w.decision == t.decision == Continue && w.score < 0.75 ==>
              Run(BRANCHES, entries, DEFAULTS, scoreOf, cycle) == Run(BRANCHES, more, DEFAULTS, scoreOf, cycle + 1)
    ensures w.decision == Continue && t.decision == RerouteToSpeechScriptPrep && w.score >= 0.75 ==>
              Run(BRANCHES, entries, DEFAULTS, scoreOf, cycle) == Final(REROUTED, more, cycle)
  {
    BothActive();
    w, t := PairCycle(entries, scoreOf, cycle, written, speech);
    var r := RunBranches(entries, DEFAULTS, scoreOf, [WRITTEN, SPEECH], cycle);
    more := r.entries;
    hide *;
    RunSteps(BRANCHES, entries, DEFAULTS, scoreOf, cycle);
    Convergence(more, w, t);
    if w.decision == t.decision == Continue {
      BothStay(r.decisions);
    } else if w.decision == Continue && t.decision == RerouteToSpeechScriptPrep {
      Injects(r.decisions);
    }
  }

  /** The run ends in its third cycle of five, with the injected speech-script branch active and without an entry. */
  lemma {:induction false} EndsWithBranchWaiting(scoreOf: (string, int) -> real)
    requires Scores(scoreOf)
    ensures var f := Run(BRANCHES, [], DEFAULTS, scoreOf, 1);
            f.cycles == 3 && f.slots == REROUTED && LatestOf(f.entries, SPEECH_SCRIPT_PREP).None?
  {
    Names();
    NothingYet();
    hide Run, LatestOf;
    var w1, t1, e1 := CycleOfRun([], scoreOf, 1, None, None);
    var w2, t2, e2 := CycleOfRun(e1, scoreOf, 2, Some(w1), Some(t1));
    var w3, t3, e3 := CycleOfRun(e2, scoreOf, 3, Some(w2), Some(t2));
  }

  lemma NothingYet()
    ensures At([], None, None)
  {}

  lemma Injects(decisions: map<string, Decision>)
    requires decisions == map[WRITTEN := Continue, SPEECH := RerouteToSpeechScriptPrep]
    ensures Applied(BRANCHES, 0, decisions) == REROUTED
  {
    Names();
    var off := [Slot(WRITTEN, true), Slot(SPEECH, false)];
    var grown := off + [Slot(SPEECH_SCRIPT_PREP, true)];
    assert SwitchedOff(BRANCHES, 1) == off;
    assert FirstSpeech(off) == 2;
    assert Injected(off) == grown;
    assert Applied(grown, 3, decisions) == grown;
    assert Applied(grown, 2, decisions) == grown;
    assert Applied(BRANCHES, 1, decisions) == grown;
  }
}
