/** `AdaptiveScheduler.decide`: an ordered chain of rules over the ledger. */
module AdaptiveScheduler {
  import opened ImprovementLedger

  const TTS_GENERATION := "tts_generation"
  const BRIEFING_SYNTHESIS := "briefing_synthesis"
  const SPEECH_SCRIPT_PREP := "speech_script_prep"

  datatype Config = Config(threshold: real, consecutive: int, maxCycles: int, target: real, lowTerminate: real,
      lowBudget: real)

  function IsStagnant(entries: seq<Entry>, branch: string, consecutive: int): bool {
    var e := LatestOf(entries, branch);
    e.Some? && e.value.stagnation >= consecutive
  }

  function WrittenIsImproving(entries: seq<Entry>, c: Config): bool {
    var e := LatestOf(entries, BRIEFING_SYNTHESIS);
    e.Some? && e.value.delta > c.threshold
  }

  function Decide(entries: seq<Entry>, c: Config, branch: string, cycle: int): Decision {
    var latest := LatestOf(entries, branch);
    if latest.None? then Continue
    else
      var e := latest.value;
      var stagnant := IsStagnant(entries, branch, c.consecutive);
      if e.score >= c.target then Continue
      else if cycle >= c.maxCycles then TerminateBranch
      else if branch == TTS_GENERATION && stagnant && WrittenIsImproving(entries, c) then RerouteToSpeechScriptPrep
      else if stagnant && e.score < c.lowTerminate then TerminateBranch
      else if stagnant then Deprioritize
      else if e.delta > 0.0 && e.score < c.lowBudget then IncreaseBudget
      else Continue
  }

  /** The branch's last `n` score changes were all below the threshold. */
  ghost predicate BarelyMoved(h: seq<Entry>, threshold: real, n: nat) {
    n < |h| && forall i :: |h| - n <= i < |h| ==> Abs(h[i].delta) < threshold
  }

  lemma {:induction false} StagnantMeaning(entries: seq<Entry>, threshold: real, branch: string, consecutive: nat)
    requires WellRecorded(entries, threshold) && LatestOf(entries, branch).Some?
    ensures IsStagnant(entries, branch, consecutive) <==> BarelyMoved(History(entries, branch), threshold, consecutive)
  {
    StagnationIsTrailingRun(entries, threshold, branch);
    hide WellRecorded, History, IsTrailingRun, BarelyMoved;
    RunIsBarelyMoved(History(entries, branch), threshold, LatestOf(entries, branch).value.stagnation, consecutive);
  }

  lemma RunIsBarelyMoved(h: seq<Entry>, threshold: real, run: nat, n: nat)
    requires IsTrailingRun(h, threshold, run)
    ensures n <= run <==> BarelyMoved(h, threshold, n)
  {
    hide Abs;
    if run < n < |h| {
      assert Abs(h[|h| - 1 - run].delta) >= threshold;
    }
  }

  /**
   A branch is rerouted exactly when it is the speech branch, below target with cycles left, its last
   `consecutive` score changes were all small, and the written branch's last change was a real gain.
   */
  lemma {:induction false} RerouteMeaning(entries: seq<Entry>, c: Config, branch: string, cycle: int)
    requires WellRecorded(entries, c.threshold) && LatestOf(entries, branch).Some? && c.consecutive >= 0
    ensures Decide(entries, c, branch, cycle) == RerouteToSpeechScriptPrep <==>
            && branch == TTS_GENERATION && cycle < c.maxCycles
            && LatestOf(entries, branch).value.score < c.target
            && BarelyMoved(History(entries, branch), c.threshold, c.consecutive)
            && WrittenIsImproving(entries, c)
  {
    StagnantMeaning(entries, c.threshold, branch, c.consecutive);
    hide WellRecorded, BarelyMoved, IsStagnant, LatestOf, WrittenIsImproving;
  }

  /** The last score change of the written branch was a gain of more than the threshold. */
  ghost predicate WrittenGained(entries: seq<Entry>, threshold: real) {
    var h := History(entries, BRIEFING_SYNTHESIS);
    h != [] && h[|h| - 1].delta > threshold
  }

  /**
   The other decisions.  A branch below target is terminated in the last cycle, or when it stagnates at a
   low score; it is deprioritized when it stagnates higher up, and funded when it moves and rises from
   a low score.  A branch at the target always continues.
   */
  lemma {:induction false} DecisionMeaning(entries: seq<Entry>, c: Config, branch: string, cycle: int)
    requires WellRecorded(entries, c.threshold) && LatestOf(entries, branch).Some? && c.consecutive >= 0
    ensures var d, e := Decide(entries, c, branch, cycle), LatestOf(entries, branch).value;
            var stagnates := BarelyMoved(History(entries, branch), c.threshold, c.consecutive);
            var rerouted := branch == TTS_GENERATION && WrittenGained(entries, c.threshold);
            && (e.score >= c.target ==> d == Continue)
            && (d == TerminateBranch <==>
                e.score < c.target && (cycle >= c.maxCycles || (stagnates && !rerouted && e.score < c.lowTerminate)))
            && (d == Deprioritize <==>
                c.lowTerminate <= e.score < c.target && cycle < c.maxCycles && stagnates && !rerouted)
            && (d == IncreaseBudget <==>
                e.score < c.target && cycle < c.maxCycles && !stagnates && e.delta > 0.0 && e.score < c.lowBudget)
  {
    StagnantMeaning(entries, c.threshold, branch, c.consecutive);
    hide WellRecorded, BarelyMoved, IsStagnant, History;
  }
}
