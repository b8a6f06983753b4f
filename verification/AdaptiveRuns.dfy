/** What holds of every adaptive run, whatever the scores. */
module AdaptiveRuns {
  import opened Prelude
  import opened ImprovementLedger
  import opened AdaptiveScheduler
  import opened Orchestrator

  ghost predicate DistinctIds(slots: seq<Slot>) {
    forall i, j :: 0 <= i < j < |slots| ==> slots[i].id != slots[j].id
  }

  predicate Retires(d: Decision) {
    d == TerminateBranch || d == RerouteToSpeechScriptPrep
  }

  /** The rules of `decide` that the loop's outcome depends on. */
  ghost predicate Judged(e: Entry, c: Config) {
    && (e.score >= c.target ==> e.decision == Continue)
    && (e.score < c.target && e.cycle >= c.maxCycles ==> e.decision == TerminateBranch)
    && (e.decision == RerouteToSpeechScriptPrep ==> e.branch == TTS_GENERATION)
  }

  // ---------- one cycle ----------

  lemma LatestExtends(entries: seq<Entry>, e: Entry, branch: string)
    ensures LatestOf(entries + [e], branch) == if e.branch == branch then Some(e) else LatestOf(entries, branch)
  {
    HistoryExtends(entries, e, branch);
  }

  lemma RedecidedLast(entries: seq<Entry>, e: Entry, d: Decision)
    ensures Redecided(entries + [e], e.branch, d) == entries + [e.(decision := d)]
  {
    assert (entries + [e])[..|entries|] == entries;
  }

  /** What the last branch of a cycle adds. */
  lemma {:induction false} LastBranch(entries: seq<Entry>, c: Config, scoreOf: (string, int) -> real, ids: seq<string>,
      cycle: int)
      returns (e: Entry)
    requires ids != []
    ensures var before := RunBranches(entries, c, scoreOf, ids[..|ids| - 1], cycle);
            && RunBranches(entries, c, scoreOf, ids, cycle)
               == Cycled(before.entries + [e], before.decisions[e.branch := e.decision])
            && e == NextEntry(LatestOf(before.entries, e.branch), c.threshold, e.branch, e.cycle, e.score, e.decision)
    ensures e.branch == ids[|ids| - 1] && e.cycle == cycle && e.score == scoreOf(e.branch, cycle) && Judged(e, c)
    ensures var before := RunBranches(entries, c, scoreOf, ids[..|ids| - 1], cycle);
            e.decision == Decide(before.entries + [e.(decision := Pending)], c, e.branch, cycle)
  {
    var id := ids[|ids| - 1];
    var before := RunBranches(entries, c, scoreOf, ids[..|ids| - 1], cycle).entries;
    var pending := NextEntry(LatestOf(before, id), c.threshold, id, cycle, scoreOf(id, cycle), Pending);
    var d := Decide(before + [pending], c, id, cycle);
    LatestExtends(before, pending, id);
    RedecidedLast(before, pending, d);
    e := pending.(decision := d);
  }

  /** The new entries are those of `ids` in order, each the latest of its branch and judged as decided. */
  ghost predicate CycleAdds(entries: seq<Entry>, c: Config, ids: seq<string>, cycle: int, r: Cycled) {
    && |r.entries| == |entries| + |ids|
    && r.entries[..|entries|] == entries
    && (forall id <- r.decisions :: id in ids)
    && forall k :: 0 <= k < |ids| ==> IsVerdict(r, c, ids[k], cycle, |entries| + k)
  }

  ghost predicate IsVerdict(r: Cycled, c: Config, id: string, cycle: int, k: nat) {
    && k < |r.entries|
    && var e := r.entries[k];
    && e.branch == id && e.cycle == cycle && Judged(e, c)
    && LatestOf(r.entries, id) == Some(e)
    && id in r.decisions && r.decisions[id] == e.decision
  }

  lemma {:induction false} RunBranchesAdds(entries: seq<Entry>, c: Config, scoreOf: (string, int) -> real,
      ids: seq<string>, cycle: int)
    requires Distinct(ids)
    ensures CycleAdds(entries, c, ids, cycle, RunBranches(entries, c, scoreOf, ids, cycle))
  {
    hide IsVerdict, Distinct, RunBranches;
    RunBranchesExtend(entries, c, scoreOf, ids, cycle);
    forall k | 0 <= k < |ids|
      ensures IsVerdict(RunBranches(entries, c, scoreOf, ids, cycle), c, ids[k], cycle, |entries| + k)
    {
      BranchVerdict(entries, c, scoreOf, ids, cycle, k);
    }
  }

  lemma {:induction false} RunBranchesExtend(entries: seq<Entry>, c: Config, scoreOf: (string, int) -> real,
      ids: seq<string>, cycle: int)
    ensures var r := RunBranches(entries, c, scoreOf, ids, cycle);
            && |r.entries| == |entries| + |ids| && r.entries[..|entries|] == entries
            && (forall id <- r.decisions :: id in ids)
  {
    if ids != [] {
      RunBranchesExtend(entries, c, scoreOf, ids[..|ids| - 1], cycle);
      var _ := LastBranch(entries, c, scoreOf, ids, cycle);
      hide RunBranches, Judged, LatestOf, NextEntry;
    }
  }

  lemma {:induction false} RunBranchesKeepsWell(entries: seq<Entry>, c: Config, scoreOf: (string, int) -> real,
      ids: seq<string>, cycle: int)
    requires WellRecorded(entries, c.threshold)
    ensures WellRecorded(RunBranches(entries, c, scoreOf, ids, cycle).entries, c.threshold)
  {
    if ids != [] {
      RunBranchesKeepsWell(entries, c, scoreOf, ids[..|ids| - 1], cycle);
      hide WellRecorded, NextEntry;
      var e := LastBranch(entries, c, scoreOf, ids, cycle);
      RecordKeepsWell(RunBranches(entries, c, scoreOf, ids[..|ids| - 1], cycle).entries, c.threshold, e);
    }
  }

  lemma NoRepeatsLast(ids: seq<string>, k: nat)
    requires k < |ids| - 1 && Distinct(ids)
    ensures Distinct(ids[..|ids| - 1]) && ids[k] != ids[|ids| - 1]
  {}

  lemma {:induction false} BranchVerdict(entries: seq<Entry>, c: Config, scoreOf: (string, int) -> real,
      ids: seq<string>, cycle: int, k: nat)
    requires Distinct(ids) && k < |ids|
    ensures IsVerdict(RunBranches(entries, c, scoreOf, ids, cycle), c, ids[k], cycle, |entries| + k)
    decreases |ids|
  {
    hide RunBranches, IsVerdict, Distinct;
    if k < |ids| - 1 {
      NoRepeatsLast(ids, k);
      BranchVerdict(entries, c, scoreOf, ids[..|ids| - 1], cycle, k);
      EarlierVerdict(entries, c, scoreOf, ids, cycle, k);
    } else {
      LastVerdict(entries, c, scoreOf, ids, cycle);
    }
  }

  lemma {:induction false} LastVerdict(entries: seq<Entry>, c: Config, scoreOf: (string, int) -> real, ids: seq<string>,
      cycle: int)
    requires ids != []
    ensures IsVerdict(RunBranches(entries, c, scoreOf, ids, cycle), c, ids[|ids| - 1], cycle, |entries| + |ids| - 1)
  {
    var front := ids[..|ids| - 1];
    RunBranchesExtend(entries, c, scoreOf, front, cycle);
    var e := LastBranch(entries, c, scoreOf, ids, cycle);
    hide RunBranches, IsVerdict, Judged, NextEntry, LatestOf;
    NewVerdict(RunBranches(entries, c, scoreOf, front, cycle), c, e);
  }

  lemma {:induction false} EarlierVerdict(entries: seq<Entry>, c: Config, scoreOf: (string, int) -> real,
      ids: seq<string>, cycle: int,
      k: nat)
    requires k < |ids| - 1 && ids[k] != ids[|ids| - 1]
    ensures var before := RunBranches(entries, c, scoreOf, ids[..|ids| - 1], cycle);
            IsVerdict(before, c, ids[k], cycle, |entries| + k) ==>
              IsVerdict(RunBranches(entries, c, scoreOf, ids, cycle), c, ids[k], cycle, |entries| + k)
  {
    hide RunBranches, IsVerdict, Judged, NextEntry, LatestOf;
    var before := RunBranches(entries, c, scoreOf, ids[..|ids| - 1], cycle);
    var e := LastBranch(entries, c, scoreOf, ids, cycle);
    if IsVerdict(before, c, ids[k], cycle, |entries| + k) {
      VerdictStands(before, c, ids[k], cycle, |entries| + k, e);
    }
  }

  lemma NewVerdict(before: Cycled, c: Config, e: Entry)
    requires Judged(e, c)
    ensures IsVerdict(Cycled(before.entries + [e], before.decisions[e.branch := e.decision]), c, e.branch, e.cycle,
            |before.entries|)
  {
    hide Judged;
    LatestExtends(before.entries, e, e.branch);
    hide LatestOf;
  }

  lemma VerdictStands(before: Cycled, c: Config, id: string, cycle: int, k: nat, e: Entry)
    requires IsVerdict(before, c, id, cycle, k) && e.branch != id
    ensures IsVerdict(Cycled(before.entries + [e], before.decisions[e.branch := e.decision]), c, id, cycle, k)
  {
    hide Judged;
    LatestExtends(before.entries, e, id);
    hide LatestOf;
  }

  // ---------- applying decisions to a list that grows ----------

  /** The list keeps its ids and gains at most a speech branch. */
  ghost predicate SameBranches(slots: seq<Slot>, r: seq<Slot>) {
    && |slots| <= |r| <= |slots| + 1
    && (forall k :: 0 <= k < |slots| ==> r[k].id == slots[k].id)
    && (|r| > |slots| ==> r[|slots|].id == SPEECH_SCRIPT_PREP && !HasSpeech(slots))
  }

  /** Active afterwards: active before and not retired, or the speech branch after a reroute. */
  ghost predicate SurvivorsOf(slots: seq<Slot>, i: nat, decisions: map<string, Decision>, r: seq<Slot>) {
    forall k :: 0 <= k < |r| && r[k].active ==> Survives(slots, i, decisions, r[k], k)
  }

  ghost predicate Survives(slots: seq<Slot>, i: nat, decisions: map<string, Decision>, s: Slot, k: nat) {
    || (k < |slots| && slots[k].active && (i <= k && s.id in decisions ==> !Retires(decisions[s.id])))
    || (s.id == SPEECH_SCRIPT_PREP && RerouteToSpeechScriptPrep in decisions.Values)
  }

  lemma {:induction false} AppliedKeeps(slots: seq<Slot>, i: nat, decisions: map<string, Decision>)
    ensures SameBranches(slots, Applied(slots, i, decisions))
    ensures SurvivorsOf(slots, i, decisions, Applied(slots, i, decisions))
    decreases |slots| - i + if HasSpeech(slots) then 0 else 1
  {
    if i < |slots| {
      var id := slots[i].id;
      var off := SwitchedOff(slots, i);
      if id in decisions && decisions[id] == TerminateBranch {
        AppliedKeeps(off, i + 1, decisions);
        OffKeeps(slots, i, off, decisions, Applied(off, i + 1, decisions));
      } else if id in decisions && decisions[id] == RerouteToSpeechScriptPrep {
        AppliedKeeps(Injected(off), i + 1, decisions);
        OffKeeps(slots, i, Injected(off), decisions, Applied(Injected(off), i + 1, decisions));
      } else {
        AppliedKeeps(slots, i + 1, decisions);
      }
    }
  }

  /** One step of the walk that switches a branch off, and perhaps the speech branch on. */
  lemma OffKeeps(slots: seq<Slot>, i: nat, next: seq<Slot>, decisions: map<string, Decision>, r: seq<Slot>)
    requires i < |slots| && slots[i].id in decisions && Retires(decisions[slots[i].id])
    requires next == SwitchedOff(slots, i)
             || (next == Injected(SwitchedOff(slots, i)) && RerouteToSpeechScriptPrep in decisions.Values)
    requires SameBranches(next, r) && SurvivorsOf(next, i + 1, decisions, r)
    ensures SameBranches(slots, r) && SurvivorsOf(slots, i, decisions, r)
  {
    var off := SwitchedOff(slots, i);
    assert SameBranches(slots, off) && SameBranches(off, next);
    SameBranchesChain(slots, off, next);
    SameBranchesChain(slots, next, r);
    forall k | 0 <= k < |r| && r[k].active ensures Survives(slots, i, decisions, r[k], k) {
      assert Survives(next, i + 1, decisions, r[k], k);
    }
  }

  lemma SameBranchesChain(a: seq<Slot>, b: seq<Slot>, d: seq<Slot>)
    requires SameBranches(a, b) && SameBranches(b, d)
    ensures SameBranches(a, d)
  {
    if |b| > |a| {
      assert HasSpeech(b);
    } else if HasSpeech(a) {
      var k :| 0 <= k < |a| && a[k].id == SPEECH_SCRIPT_PREP;
      assert b[k].id == SPEECH_SCRIPT_PREP;
    }
  }

  // ---------- the active branches ----------

  lemma {:induction false} ActiveIdsMeaning(slots: seq<Slot>, id: string)
    ensures id in ActiveIds(slots) <==> exists k :: 0 <= k < |slots| && slots[k].active && slots[k].id == id
  {
    if slots != [] {
      ActiveIdsMeaning(slots[..|slots| - 1], id);
    }
  }

  lemma {:induction false} ActiveIdsDistinct(slots: seq<Slot>)
    requires DistinctIds(slots)
    ensures Distinct(ActiveIds(slots))
  {
    if slots != [] {
      var front := slots[..|slots| - 1];
      ActiveIdsDistinct(front);
      ActiveIdsMeaning(front, slots[|slots| - 1].id);
    }
  }

  // ---------- one cycle of the loop ----------

  lemma SameBranchesDistinct(slots: seq<Slot>, r: seq<Slot>)
    requires DistinctIds(slots) && SameBranches(slots, r)
    ensures DistinctIds(r)
  {
    forall i, j | 0 <= i < j < |r| ensures r[i].id != r[j].id {
      assert r[i].id == slots[i].id;
      if j < |slots| {
        assert slots[i].id != slots[j].id;
      }
    }
  }

  /** Outside the speech branch, who is active after a cycle was run in it and not retired by it. */
  ghost predicate CarriedOver(next: seq<Slot>, ids: seq<string>, decisions: map<string, Decision>) {
    forall k :: 0 <= k < |next| && next[k].active ==> IsCarriedOver(next[k].id, ids, decisions)
  }

  ghost predicate IsCarriedOver(id: string, ids: seq<string>, decisions: map<string, Decision>) {
    || (id in ids && (id in decisions ==> !Retires(decisions[id])))
    || (id == SPEECH_SCRIPT_PREP && RerouteToSpeechScriptPrep in decisions.Values)
  }

  lemma CycleOutcome(slots: seq<Slot>, decisions: map<string, Decision>)
    requires DistinctIds(slots)
    ensures var next := Applied(slots, 0, decisions);
            DistinctIds(next) && SameBranches(slots, next) && CarriedOver(next, ActiveIds(slots), decisions)
  {
    AppliedKeeps(slots, 0, decisions);
    var next := Applied(slots, 0, decisions);
    SameBranchesDistinct(slots, next);
    hide Applied, DistinctIds, ActiveIds;
    forall k | 0 <= k < |next| && next[k].active ensures IsCarriedOver(next[k].id, ActiveIds(slots), decisions) {
      assert Survives(slots, 0, decisions, next[k], k);
      ActiveIdsMeaning(slots, next[k].id);
    }
  }

  // ---------- who runs in the next cycle ----------

  /** Some position from `from` on holds a branch that is to be rerouted. */
  ghost predicate ReroutesFrom(slots: seq<Slot>, from: nat, decisions: map<string, Decision>) {
    exists t :: from <= t < |slots| && IsRerouted(slots[t].id, decisions)
  }

  ghost predicate IsRerouted(id: string, decisions: map<string, Decision>) {
    id in decisions && decisions[id] == RerouteToSpeechScriptPrep
  }

  predicate IsRetired(id: string, decisions: map<string, Decision>) {
    id in decisions && Retires(decisions[id])
  }

  /** A branch that is not to be retired stays active: nothing else switches it off. */
  lemma {:induction false} UnretiredStays(slots: seq<Slot>, i: nat, decisions: map<string, Decision>, k: nat)
    requires k < |slots| && slots[k].active && (i <= k ==> !IsRetired(slots[k].id, decisions))
    ensures var r := Applied(slots, i, decisions); k < |r| && r[k] == slots[k]
    decreases |slots| - i + if HasSpeech(slots) then 0 else 1
  {
    if i < |slots| {
      var id := slots[i].id;
      var off := SwitchedOff(slots, i);
      if id in decisions && decisions[id] == TerminateBranch {
        UnretiredStays(off, i + 1, decisions, k);
      } else if IsRerouted(id, decisions) {
        UnretiredStays(Injected(off), i + 1, decisions, k);
      } else {
        UnretiredStays(slots, i + 1, decisions, k);
      }
    }
  }

  /** The speech-script branch is active. */
  ghost predicate SpeechActive(slots: seq<Slot>) {
    FirstSpeech(slots) < |slots| && slots[FirstSpeech(slots)].active
  }

  /**
   After the walk the speech-script branch is active when it was or a reroute injected it, unless the
   walk terminates it at its own position; then only a reroute further down the list revives it.
   */
  ghost predicate SpeechRuns(slots: seq<Slot>, i: nat, decisions: map<string, Decision>) {
    var p := FirstSpeech(slots);
    if i <= p && SPEECH_SCRIPT_PREP in decisions && decisions[SPEECH_SCRIPT_PREP] == TerminateBranch
    then ReroutesFrom(slots, p + 1, decisions)
    else SpeechActive(slots) || ReroutesFrom(slots, i, decisions)
  }

  lemma {:induction false} SpeechActiveIff(slots: seq<Slot>, i: nat, decisions: map<string, Decision>)
    requires DistinctIds(slots)
    ensures SpeechActive(Applied(slots, i, decisions)) <==> SpeechRuns(slots, i, decisions)
    decreases |slots| - i + if HasSpeech(slots) then 0 else 1
  {
    if i < |slots| {
      var id := slots[i].id;
      var off := SwitchedOff(slots, i);
      SameBranchesDistinct(slots, off);
      if id in decisions && decisions[id] == TerminateBranch {
        SpeechActiveIff(off, i + 1, decisions);
        TerminationAndSpeech(slots, i, decisions);
      } else if IsRerouted(id, decisions) {
        SameBranchesDistinct(off, Injected(off));
        SpeechActiveIff(Injected(off), i + 1, decisions);
        RerouteAndSpeech(slots, i, decisions);
      } else {
        SpeechActiveIff(slots, i + 1, decisions);
        KeptAndSpeech(slots, i, decisions);
      }
    }
  }

  lemma SameFirstSpeech(slots: seq<Slot>, r: seq<Slot>)
    requires SameBranches(slots, r)
    ensures FirstSpeech(r) == FirstSpeech(slots)
  {
    var p, q := FirstSpeech(slots), FirstSpeech(r);
    assert p < |slots| ==> r[p].id == slots[p].id;
    assert q < |slots| ==> r[q].id == slots[q].id;
    assert HasSpeech(slots) ==> p < |slots|;
  }

  lemma SameReroutes(slots: seq<Slot>, r: seq<Slot>, from: nat, decisions: map<string, Decision>)
    requires |r| == |slots| && forall k :: 0 <= k < |slots| ==> r[k].id == slots[k].id
    ensures ReroutesFrom(r, from, decisions) <==> ReroutesFrom(slots, from, decisions)
  {
    hide IsRerouted;
  }

  lemma FirstReroute(slots: seq<Slot>, i: nat, decisions: map<string, Decision>)
    requires i < |slots|
    ensures ReroutesFrom(slots, i, decisions) <==>
            IsRerouted(slots[i].id, decisions) || ReroutesFrom(slots, i + 1, decisions)
  {
    hide IsRerouted;
  }

  lemma KeptAndSpeech(slots: seq<Slot>, i: nat, decisions: map<string, Decision>)
    requires i < |slots| && !IsRetired(slots[i].id, decisions)
    ensures SpeechRuns(slots, i + 1, decisions) <==> SpeechRuns(slots, i, decisions)
  {
    FirstReroute(slots, i, decisions);
    hide ReroutesFrom, FirstSpeech;
  }

  lemma TerminationAndSpeech(slots: seq<Slot>, i: nat, decisions: map<string, Decision>)
    requires DistinctIds(slots) && i < |slots| && slots[i].id in decisions && decisions[slots[i].id] == TerminateBranch
    ensures SpeechRuns(SwitchedOff(slots, i), i + 1, decisions) <==> SpeechRuns(slots, i, decisions)
  {
    var off := SwitchedOff(slots, i);
    FirstReroute(slots, i, decisions);
    SameFirstSpeech(slots, off);
    SameReroutes(slots, off, i + 1, decisions);
    SameReroutes(slots, off, FirstSpeech(slots) + 1, decisions);
    hide ReroutesFrom, FirstSpeech, DistinctIds;
  }

  lemma RerouteAndSpeech(slots: seq<Slot>, i: nat, decisions: map<string, Decision>)
    requires DistinctIds(slots) && i < |slots| && IsRerouted(slots[i].id, decisions)
    ensures SpeechRuns(Injected(SwitchedOff(slots, i)), i + 1, decisions) <==> SpeechRuns(slots, i, decisions)
  {
    var off := SwitchedOff(slots, i);
    var p, next := FirstSpeech(slots), Injected(off);
    SameFirstSpeech(slots, off);
    SameFirstSpeech(off, next);
    assert SpeechActive(next);
    FirstReroute(slots, i, decisions);
    if p < |slots| {
      SameReroutes(slots, next, p + 1, decisions);
    } else {
      assert !ReroutesFrom(slots, p + 1, decisions) && !ReroutesFrom(next, p + 1, decisions);
    }
    hide ReroutesFrom, FirstSpeech, DistinctIds, Injected, SwitchedOff;
  }

  /** The speech-script branch comes before the speech branch, so that the walk reaches it first. */
  ghost predicate ScriptComesFirst(slots: seq<Slot>) {
    exists p, t :: 0 <= p < t < |slots| && slots[p].id == SPEECH_SCRIPT_PREP && slots[t].id == TTS_GENERATION
  }

  /**
   Who runs in the cycle after one that ran `ids`: those of them that were neither terminated nor
   rerouted, and after a reroute the speech-script branch, unless the walk terminates it on the way.
   */
  ghost predicate RunsNext(slots: seq<Slot>, ids: seq<string>, decisions: map<string, Decision>, id: string) {
    || (id in ids && id in decisions && decisions[id] != TerminateBranch && decisions[id] != RerouteToSpeechScriptPrep)
    || (id == SPEECH_SCRIPT_PREP && IsRerouted(TTS_GENERATION, decisions)
        && (id in decisions && decisions[id] == TerminateBranch ==> ScriptComesFirst(slots)))
  }

  /** Exactly the branches that ran have a decision, and only the speech branch is rerouted. */
  ghost predicate DecidesFor(ids: seq<string>, decisions: map<string, Decision>) {
    && (forall id :: id in ids <==> id in decisions)
    && forall id :: IsRerouted(id, decisions) ==> id == TTS_GENERATION
  }

  lemma CycleDecidesFor(entries: seq<Entry>, c: Config, ids: seq<string>, cycle: int, r: Cycled)
    requires CycleAdds(entries, c, ids, cycle, r)
    ensures DecidesFor(ids, r.decisions)
  {
    hide LatestOf;
    forall id | id in ids ensures id in r.decisions && (IsRerouted(id, r.decisions) ==> id == TTS_GENERATION) {
      var m :| 0 <= m < |ids| && ids[m] == id;
      assert IsVerdict(r, c, ids[m], cycle, |entries| + m);
    }
  }

  lemma OtherRunsNext(slots: seq<Slot>, decisions: map<string, Decision>, id: string)
    requires DistinctIds(slots) && DecidesFor(ActiveIds(slots), decisions) && id != SPEECH_SCRIPT_PREP
    ensures id in ActiveIds(Applied(slots, 0, decisions)) <==> id in decisions && !Retires(decisions[id])
  {
    var next := Applied(slots, 0, decisions);
    CycleOutcome(slots, decisions);
    ActiveIdsMeaning(slots, id);
    ActiveIdsMeaning(next, id);
    hide ActiveIds, Applied, DistinctIds;
    if id in decisions && !Retires(decisions[id]) {
      var k :| 0 <= k < |slots| && slots[k].active && slots[k].id == id;
      UnretiredStays(slots, 0, decisions, k);
    }
  }

  lemma ScriptActiveMeans(slots: seq<Slot>)
    requires DistinctIds(slots)
    ensures SPEECH_SCRIPT_PREP in ActiveIds(slots) <==> SpeechActive(slots)
  {
    ActiveIdsMeaning(slots, SPEECH_SCRIPT_PREP);
    hide ActiveIds;
  }

  lemma ReroutesMean(slots: seq<Slot>, decisions: map<string, Decision>)
    requires DistinctIds(slots) && DecidesFor(ActiveIds(slots), decisions)
    ensures ReroutesFrom(slots, 0, decisions) <==> IsRerouted(TTS_GENERATION, decisions)
    ensures FirstSpeech(slots) < |slots| ==>
              (ReroutesFrom(slots, FirstSpeech(slots) + 1, decisions) <==>
               IsRerouted(TTS_GENERATION, decisions) && ScriptComesFirst(slots))
  {
    hide *;
    var after := FirstSpeech(slots) + 1;
    if IsRerouted(TTS_GENERATION, decisions) {
      var t := ReroutePosition(slots, decisions);
      ScriptPosition(slots, t);
      OneReroute(slots, decisions, t, 0);
      OneReroute(slots, decisions, t, after);
    } else {
      NoReroute(slots, decisions, 0);
      NoReroute(slots, decisions, after);
    }
  }

  lemma NoReroute(slots: seq<Slot>, decisions: map<string, Decision>, from: nat)
    requires DecidesFor(ActiveIds(slots), decisions) && !IsRerouted(TTS_GENERATION, decisions)
    ensures !ReroutesFrom(slots, from, decisions)
  {
    hide ActiveIds, IsRerouted;
  }

  lemma OneReroute(slots: seq<Slot>, decisions: map<string, Decision>, t: nat, from: nat)
    requires DistinctIds(slots) && DecidesFor(ActiveIds(slots), decisions)
    requires t < |slots| && slots[t].id == TTS_GENERATION && IsRerouted(TTS_GENERATION, decisions)
    ensures ReroutesFrom(slots, from, decisions) <==> from <= t
  {
    hide DistinctIds, ActiveIds;
    forall k | 0 <= k < |slots| && IsRerouted(slots[k].id, decisions) ensures k == t {
      SameId(slots, k, t);
    }
    hide IsRerouted, DecidesFor;
  }

  lemma SameId(slots: seq<Slot>, i: nat, j: nat)
    requires DistinctIds(slots) && i < |slots| && j < |slots| && slots[i].id == slots[j].id
    ensures i == j
  {}

  lemma ScriptPosition(slots: seq<Slot>, t: nat)
    requires DistinctIds(slots) && t < |slots| && slots[t].id == TTS_GENERATION
    ensures ScriptComesFirst(slots) <==> FirstSpeech(slots) < t
  {
    hide DistinctIds;
    if ScriptComesFirst(slots) {
      var p, t' :| 0 <= p < t' < |slots| && slots[p].id == SPEECH_SCRIPT_PREP && slots[t'].id == TTS_GENERATION;
      SameId(slots, t, t');
      assert FirstSpeech(slots) <= p;
    } else {
      assert FirstSpeech(slots) != t;
    }
  }

  lemma ReroutePosition(slots: seq<Slot>, decisions: map<string, Decision>) returns (t: nat)
    requires DecidesFor(ActiveIds(slots), decisions) && IsRerouted(TTS_GENERATION, decisions)
    ensures t < |slots| && slots[t].id == TTS_GENERATION
  {
    ActiveIdsMeaning(slots, TTS_GENERATION);
    t :| 0 <= t < |slots| && slots[t].active && slots[t].id == TTS_GENERATION;
  }

  lemma ScriptRunsNext(slots: seq<Slot>, decisions: map<string, Decision>)
    requires DistinctIds(slots) && DecidesFor(ActiveIds(slots), decisions)
    ensures SPEECH_SCRIPT_PREP in ActiveIds(Applied(slots, 0, decisions)) <==>
            RunsNext(slots, ActiveIds(slots), decisions, SPEECH_SCRIPT_PREP)
  {
    CycleOutcome(slots, decisions);
    ScriptActiveMeans(slots);
    ScriptActiveMeans(Applied(slots, 0, decisions));
    SpeechActiveIff(slots, 0, decisions);
    ReroutesMean(slots, decisions);
    hide Applied, ActiveIds, DistinctIds, ReroutesFrom, FirstSpeech, ScriptComesFirst;
    assert TTS_GENERATION != SPEECH_SCRIPT_PREP;
  }

  /** The branches of the next cycle are exactly these. */
  lemma NextCycleRuns(slots: seq<Slot>, entries: seq<Entry>, c: Config, scoreOf: (string, int) -> real, cycle: int,
      id: string)
    requires DistinctIds(slots)
    ensures var ids := ActiveIds(slots);
            var decisions := RunBranches(entries, c, scoreOf, ids, cycle).decisions;
            id in ActiveIds(Applied(slots, 0, decisions)) <==> RunsNext(slots, ids, decisions, id)
  {
    var ids := ActiveIds(slots);
    var r := RunBranches(entries, c, scoreOf, ids, cycle);
    ActiveIdsDistinct(slots);
    RunBranchesAdds(entries, c, scoreOf, ids, cycle);
    CycleDecidesFor(entries, c, ids, cycle, r);
    hide RunBranches, CycleAdds, Applied, ActiveIds, DistinctIds, Distinct, ScriptComesFirst;
    if id == SPEECH_SCRIPT_PREP {
      ScriptRunsNext(slots, r.decisions);
    } else {
      OtherRunsNext(slots, r.decisions, id);
    }
  }

  /** In the last cycle every branch that ran is converged or terminated, and nothing is rerouted. */
  lemma {:induction false} LastCycleSettles(slots: seq<Slot>, entries: seq<Entry>, c: Config,
      scoreOf: (string, int) -> real, cycle: int)
    requires DistinctIds(slots) && cycle >= c.maxCycles
    ensures var r := RunBranches(entries, c, scoreOf, ActiveIds(slots), cycle);
            AllConverged(Applied(slots, 0, r.decisions), r.entries, c.target)
  {
    var ids := ActiveIds(slots);
    var r := RunBranches(entries, c, scoreOf, ids, cycle);
    var next := Applied(slots, 0, r.decisions);
    ActiveIdsDistinct(slots);
    RunBranchesAdds(entries, c, scoreOf, ids, cycle);
    CycleOutcome(slots, r.decisions);
    hide RunBranches, Applied, ActiveIds, LatestOf, DistinctIds, Distinct;
    forall k | 0 <= k < |next| ensures IsConverged(next[k], r.entries, c.target) {
      if next[k].active {
        assert IsCarriedOver(next[k].id, ids, r.decisions);
        NoRerouteInLastCycle(entries, c, ids, cycle, r);
        var m :| 0 <= m < |ids| && ids[m] == next[k].id;
        assert IsVerdict(r, c, ids[m], cycle, |entries| + m);
      }
    }
  }

  lemma NoRerouteInLastCycle(entries: seq<Entry>, c: Config, ids: seq<string>, cycle: int, r: Cycled)
    requires CycleAdds(entries, c, ids, cycle, r) && cycle >= c.maxCycles
    ensures RerouteToSpeechScriptPrep !in r.decisions.Values
  {
    forall id | id in r.decisions ensures r.decisions[id] != RerouteToSpeechScriptPrep {
      var m :| 0 <= m < |ids| && ids[m] == id;
      assert IsVerdict(r, c, ids[m], cycle, |entries| + m);
    }
  }

  // ---------- whole runs ----------

  /** An entry from position `from` on reroutes the speech branch in the given cycle. */
  ghost predicate ReroutedIn(entries: seq<Entry>, from: nat, cycle: int) {
    exists k :: from <= k < |entries| && IsRerouteIn(entries[k], cycle)
  }

  ghost predicate IsRerouteIn(e: Entry, cycle: int) {
    e.branch == TTS_GENERATION && e.cycle == cycle && e.decision == RerouteToSpeechScriptPrep
  }

  /**
   Inactive, or at the completion target, or a speech-script branch that never ran and that a reroute of
   the last cycle injected.
   */
  ghost predicate Settled(s: Slot, entries: seq<Entry>, target: real, from: nat, last: int) {
    || !s.active
    || (LatestOf(entries, s.id).Some? && LatestOf(entries, s.id).value.score >= target)
    || (s.id == SPEECH_SCRIPT_PREP && LatestOf(entries, s.id).None? && ReroutedIn(entries, from, last))
  }

  ghost predicate AllSettled(slots: seq<Slot>, entries: seq<Entry>, target: real, from: nat, last: int) {
    forall k :: 0 <= k < |slots| ==> Settled(slots[k], entries, target, from, last)
  }

  lemma SettledFromEarlier(slots: seq<Slot>, entries: seq<Entry>, target: real, from: nat, earlier: nat, last: int)
    requires earlier <= from && AllSettled(slots, entries, target, from, last)
    ensures AllSettled(slots, entries, target, earlier, last)
  {
    hide LatestOf, IsRerouteIn;
    forall k | 0 <= k < |slots| ensures Settled(slots[k], entries, target, earlier, last) {
      assert Settled(slots[k], entries, target, from, last);
    }
  }

  /** How a run may end: within its cycles, every branch settled, the list as before or one longer. */
  ghost predicate EndsSettled(slots: seq<Slot>, c: Config, from: nat, cycle: int, f: Final) {
    && cycle <= f.cycles <= c.maxCycles
    && AllSettled(f.slots, f.entries, c.target, from, f.cycles)
    && SameBranches(slots, f.slots)
  }

  lemma {:induction false} RunEndsSettled(slots: seq<Slot>, entries: seq<Entry>, c: Config,
      scoreOf: (string, int) -> real, cycle: int)
    requires DistinctIds(slots) && 1 <= cycle <= c.maxCycles
    ensures EndsSettled(slots, c, |entries|, cycle, Run(slots, entries, c, scoreOf, cycle))
    decreases c.maxCycles - cycle
  {
    hide *;
    var r := RunBranches(entries, c, scoreOf, ActiveIds(slots), cycle);
    var next := Applied(slots, 0, r.decisions);
    CycleOutcome(slots, r.decisions);
    if cycle < c.maxCycles {
      RunEndsSettled(next, r.entries, c, scoreOf, cycle + 1);
    } else {
      LastCycleSettles(slots, entries, c, scoreOf, cycle);
    }
    RunStepSettles(slots, entries, c, scoreOf, cycle);
  }

  lemma {:induction false} RunStepSettles(slots: seq<Slot>, entries: seq<Entry>, c: Config,
      scoreOf: (string, int) -> real, cycle: int)
    requires DistinctIds(slots) && 1 <= cycle <= c.maxCycles
    ensures var r := RunBranches(entries, c, scoreOf, ActiveIds(slots), cycle);
            var next := Applied(slots, 0, r.decisions);
            var later := Run(next, r.entries, c, scoreOf, cycle + 1);
            (cycle < c.maxCycles && EndsSettled(next, c, |r.entries|, cycle + 1, later))
            || AllConverged(next, r.entries, c.target) ==>
              EndsSettled(slots, c, |entries|, cycle, Run(slots, entries, c, scoreOf, cycle))
  {
    var r := RunBranches(entries, c, scoreOf, ActiveIds(slots), cycle);
    var next := Applied(slots, 0, r.decisions);
    CycleOutcome(slots, r.decisions);
    RunBranchesExtend(entries, c, scoreOf, ActiveIds(slots), cycle);
    if ActiveIds(slots) == [] {
      NoneActive(slots, entries, c.target, |entries|, cycle);
      hide ActiveIds;
    } else {
      hide ActiveIds, RunBranches, Applied, DistinctIds, AllSettled, AllConverged, HasSpeech, SameBranches;
      if AllConverged(next, r.entries, c.target) {
        ConvergedIsSettled(slots, entries, c, scoreOf, cycle);
      } else if cycle < c.maxCycles {
        var f := Run(next, r.entries, c, scoreOf, cycle + 1);
        if EndsSettled(next, c, |r.entries|, cycle + 1, f) {
          SettledFromEarlier(f.slots, f.entries, c.target, |r.entries|, |entries|, f.cycles);
          SameBranchesChain(slots, next, f.slots);
        }
      }
    }
  }

  lemma NoneActive(slots: seq<Slot>, entries: seq<Entry>, target: real, from: nat, last: int)
    requires ActiveIds(slots) == []
    ensures AllSettled(slots, entries, target, from, last)
  {
    hide ActiveIds, LatestOf, ReroutedIn;
    forall k | 0 <= k < |slots| ensures Settled(slots[k], entries, target, from, last) {
      ActiveIdsMeaning(slots, slots[k].id);
    }
  }

  lemma {:induction false} ConvergedIsSettled(slots: seq<Slot>, entries: seq<Entry>, c: Config,
      scoreOf: (string, int) -> real, cycle: int)
    requires DistinctIds(slots)
    requires var r := RunBranches(entries, c, scoreOf, ActiveIds(slots), cycle);
             AllConverged(Applied(slots, 0, r.decisions), r.entries, c.target)
    ensures var r := RunBranches(entries, c, scoreOf, ActiveIds(slots), cycle);
            AllSettled(Applied(slots, 0, r.decisions), r.entries, c.target, |entries|, cycle)
  {
    var ids := ActiveIds(slots);
    var r := RunBranches(entries, c, scoreOf, ids, cycle);
    var next := Applied(slots, 0, r.decisions);
    ActiveIdsDistinct(slots);
    RunBranchesAdds(entries, c, scoreOf, ids, cycle);
    CycleOutcome(slots, r.decisions);
    hide RunBranches, Applied, ActiveIds, DistinctIds, Distinct, CycleAdds, IsConverged, IsCarriedOver, Settled,
        SameBranches;
    forall k | 0 <= k < |next| ensures Settled(next[k], r.entries, c.target, |entries|, cycle) {
      SlotSettles(entries, c, ids, cycle, r, next[k]);
    }
  }

  lemma SlotSettles(entries: seq<Entry>, c: Config, ids: seq<string>, cycle: int, r: Cycled, s: Slot)
    requires CycleAdds(entries, c, ids, cycle, r) && IsConverged(s, r.entries, c.target)
    requires s.active ==> IsCarriedOver(s.id, ids, r.decisions)
    ensures Settled(s, r.entries, c.target, |entries|, cycle)
  {
    hide LatestOf;
    if s.active && s.id in ids {
      var m :| 0 <= m < |ids| && ids[m] == s.id;
      assert IsVerdict(r, c, ids[m], cycle, |entries| + m);
    } else if s.active {
      RerouteIsWritten(entries, c, ids, cycle, r);
    }
  }

  lemma RerouteIsWritten(entries: seq<Entry>, c: Config, ids: seq<string>, cycle: int, r: Cycled)
    requires CycleAdds(entries, c, ids, cycle, r) && RerouteToSpeechScriptPrep in r.decisions.Values
    ensures ReroutedIn(r.entries, |entries|, cycle)
  {
    hide LatestOf;
    var id :| id in r.decisions && r.decisions[id] == RerouteToSpeechScriptPrep;
    var m :| 0 <= m < |ids| && ids[m] == id;
    assert IsVerdict(r, c, ids[m], cycle, |entries| + m);
    assert IsRerouteIn(r.entries[|entries| + m], cycle);
  }

  /** Branches and ledger after `n` cycles, whether or not the loop would still run. */
  ghost function AfterCycles(slots: seq<Slot>, entries: seq<Entry>, c: Config, scoreOf: (string, int) -> real,
      cycle: int, n: nat): (seq<Slot>, seq<Entry>)
    decreases n
  {
    if n == 0 then (slots, entries)
    else
      var r := RunBranches(entries, c, scoreOf, ActiveIds(slots), cycle);
      AfterCycles(Applied(slots, 0, r.decisions), r.entries, c, scoreOf, cycle + 1, n - 1)
  }

  ghost predicate ConvergedAfter(slots: seq<Slot>, entries: seq<Entry>, c: Config, scoreOf: (string, int) -> real,
      cycle: int, n: nat)
  {
    var (s, e) := AfterCycles(slots, entries, c, scoreOf, cycle, n);
    AllConverged(s, e, c.target)
  }

  lemma {:induction false} NoDecisionsNoChange(slots: seq<Slot>, i: nat)
    ensures Applied(slots, i, map[]) == slots
    decreases |slots| - i
  {
    if i < |slots| {
      NoDecisionsNoChange(slots, i + 1);
    }
  }

  lemma NoneActiveIsConverged(slots: seq<Slot>, entries: seq<Entry>, target: real)
    requires ActiveIds(slots) == []
    ensures AllConverged(slots, entries, target)
  {
    hide ActiveIds, LatestOf;
    forall k | 0 <= k < |slots| ensures IsConverged(slots[k], entries, target) {
      ActiveIdsMeaning(slots, slots[k].id);
    }
  }

  /** A run ends with the first cycle after which every active branch has reached the target. */
  lemma {:induction false} RunStopsWhenConverged(slots: seq<Slot>, entries: seq<Entry>, c: Config,
      scoreOf: (string, int) -> real, cycle: int)
    requires DistinctIds(slots) && 1 <= cycle <= c.maxCycles
    ensures var f := Run(slots, entries, c, scoreOf, cycle);
            var n := f.cycles - cycle + 1;
            && 1 <= n <= c.maxCycles - cycle + 1
            && (f.slots, f.entries) == AfterCycles(slots, entries, c, scoreOf, cycle, n)
            && ConvergedAfter(slots, entries, c, scoreOf, cycle, n)
            && forall m :: 0 < m < n ==> !ConvergedAfter(slots, entries, c, scoreOf, cycle, m)
    decreases c.maxCycles - cycle
  {
    hide *;
    var r := RunBranches(entries, c, scoreOf, ActiveIds(slots), cycle);
    var next := Applied(slots, 0, r.decisions);
    CycleOutcome(slots, r.decisions);
    RunSteps(slots, entries, c, scoreOf, cycle);
    OneCycle(slots, entries, c, scoreOf, cycle);
    if ActiveIds(slots) == [] {
      NoneActiveCycle(slots, entries, c, scoreOf, cycle);
    } else if !AllConverged(next, r.entries, c.target) {
      if cycle == c.maxCycles {
        LastCycleSettles(slots, entries, c, scoreOf, cycle);
      }
      RunStopsWhenConverged(next, r.entries, c, scoreOf, cycle + 1);
      var n := Run(next, r.entries, c, scoreOf, cycle + 1).cycles - cycle;
      forall m | 1 < m <= n + 1 {
        LaterCycle(slots, entries, c, scoreOf, cycle, m);
      }
    }
  }

  lemma NoneActiveCycle(slots: seq<Slot>, entries: seq<Entry>, c: Config, scoreOf: (string, int) -> real, cycle: int)
    requires ActiveIds(slots) == []
    ensures AfterCycles(slots, entries, c, scoreOf, cycle, 1) == (slots, entries)
    ensures ConvergedAfter(slots, entries, c, scoreOf, cycle, 1)
  {
    OneCycle(slots, entries, c, scoreOf, cycle);
    NoDecisionsNoChange(slots, 0);
    NoneActiveIsConverged(slots, entries, c.target);
    hide Applied, ActiveIds, AllConverged;
  }

  lemma LaterCycle(slots: seq<Slot>, entries: seq<Entry>, c: Config, scoreOf: (string, int) -> real, cycle: int, m: nat)
    requires m > 1
    ensures var r := RunBranches(entries, c, scoreOf, ActiveIds(slots), cycle);
            var next := Applied(slots, 0, r.decisions);
            && AfterCycles(slots, entries, c, scoreOf, cycle, m)
               == AfterCycles(next, r.entries, c, scoreOf, cycle + 1, m - 1)
            && ConvergedAfter(slots, entries, c, scoreOf, cycle, m)
               == ConvergedAfter(next, r.entries, c, scoreOf, cycle + 1, m - 1)
  {
    hide RunBranches, Applied, ActiveIds, AllConverged;
  }

  lemma OneCycle(slots: seq<Slot>, entries: seq<Entry>, c: Config, scoreOf: (string, int) -> real, cycle: int)
    ensures var r := RunBranches(entries, c, scoreOf, ActiveIds(slots), cycle);
            var next := Applied(slots, 0, r.decisions);
            && AfterCycles(slots, entries, c, scoreOf, cycle, 1) == (next, r.entries)
            && ConvergedAfter(slots, entries, c, scoreOf, cycle, 1) == AllConverged(next, r.entries, c.target)
  {
    hide RunBranches, Applied, ActiveIds, AllConverged;
  }

  // ---------- what a run writes to the ledger ----------

  /** A run keeps the ledger well recorded, so that its stagnation counts and deltas mean what they should. */
  lemma {:induction false} RunKeepsWell(slots: seq<Slot>, entries: seq<Entry>, c: Config,
      scoreOf: (string, int) -> real, cycle: int)
    requires WellRecorded(entries, c.threshold) && cycle >= 1
    ensures WellRecorded(Run(slots, entries, c, scoreOf, cycle).entries, c.threshold)
    decreases c.maxCycles - cycle
  {
    hide *;
    var r := RunBranches(entries, c, scoreOf, ActiveIds(slots), cycle);
    var next := Applied(slots, 0, r.decisions);
    RunSteps(slots, entries, c, scoreOf, cycle);
    RunBranchesKeepsWell(entries, c, scoreOf, ActiveIds(slots), cycle);
    if cycle <= c.maxCycles {
      RunKeepsWell(next, r.entries, c, scoreOf, cycle + 1);
    }
  }

  /**
   After any run a branch's stagnation count is the length of its trailing run of small deltas, and
   its deltas telescope.
   */
  lemma {:induction false} RunLedgerMeaning(slots: seq<Slot>, c: Config, scoreOf: (string, int) -> real, branch: string)
    requires LatestOf(Run(slots, [], c, scoreOf, 1).entries, branch).Some?
    ensures var entries := Run(slots, [], c, scoreOf, 1).entries;
            var h := History(entries, branch);
            && IsTrailingRun(h, c.threshold, LatestOf(entries, branch).value.stagnation)
            && SumOfDeltas(h) == h[|h| - 1].score - h[0].score
  {
    assert WellRecorded([], c.threshold);
    RunKeepsWell(slots, [], c, scoreOf, 1);
    hide Run, WellRecorded, IsTrailingRun, SumOfDeltas;
    var entries := Run(slots, [], c, scoreOf, 1).entries;
    StagnationIsTrailingRun(entries, c.threshold, branch);
    DeltasTelescope(entries, c.threshold, branch);
  }

  /** Entry `i` was written by cycles `first..last`, judged by the rules, for a branch of `ids` or the speech branch. */
  ghost predicate WrittenFor(e: Entry, c: Config, ids: seq<string>, first: int, last: int) {
    first <= e.cycle <= last && Judged(e, c) && (e.branch in ids || e.branch == SPEECH_SCRIPT_PREP)
  }

  /**
   Of two entries of one branch the later belongs to a later cycle, and only the speech branch runs
   on after retiring.
   */
  ghost predicate InSuccession(e: Entry, later: Entry) {
    e.branch == later.branch ==> e.cycle < later.cycle && (Retires(e.decision) ==> e.branch == SPEECH_SCRIPT_PREP)
  }

  ghost predicate Extends(entries: seq<Entry>, more: seq<Entry>) {
    |more| >= |entries| && more[..|entries|] == entries
  }

  /** What cycles `first..last`, started with `ids` active, may make of the ledger. */
  ghost predicate LedgerGrows(entries: seq<Entry>, c: Config, ids: seq<string>, first: int, last: int,
      more: seq<Entry>)
  {
    && Extends(entries, more)
    && (forall i :: |entries| <= i < |more| ==> WrittenFor(more[i], c, ids, first, last))
    && (forall i, j :: |entries| <= i < j < |more| ==> InSuccession(more[i], more[j]))
  }

  /** A run only appends: one entry a branch a cycle, none for a branch once retired unless it is the speech branch. */
  lemma {:induction false} RunLedgerGrows(slots: seq<Slot>, entries: seq<Entry>, c: Config,
      scoreOf: (string, int) -> real, cycle: int)
    requires DistinctIds(slots) && cycle >= 1
    ensures var f := Run(slots, entries, c, scoreOf, cycle);
            f.cycles >= cycle - 1 && LedgerGrows(entries, c, ActiveIds(slots), cycle, f.cycles, f.entries)
    decreases c.maxCycles - cycle
  {
    hide *;
    var ids := ActiveIds(slots);
    var r := RunBranches(entries, c, scoreOf, ids, cycle);
    var next := Applied(slots, 0, r.decisions);
    RunSteps(slots, entries, c, scoreOf, cycle);
    if cycle > c.maxCycles || ids == [] {
      NothingGrows(entries, c, ids, cycle, Run(slots, entries, c, scoreOf, cycle).cycles);
    } else {
      CycleOutcome(slots, r.decisions);
      ActiveIdsDistinct(slots);
      RunBranchesAdds(entries, c, scoreOf, ids, cycle);
      CycleLedgerGrows(entries, c, ids, cycle, r);
      if !AllConverged(next, r.entries, c.target) {
        RunLedgerGrows(next, r.entries, c, scoreOf, cycle + 1);
        var f := Run(next, r.entries, c, scoreOf, cycle + 1);
        GrowthsCompose(entries, c, ids, cycle, r, next, f.cycles, f.entries);
      }
    }
  }

  /** The unfolding of `Run`. */
  lemma RunSteps(slots: seq<Slot>, entries: seq<Entry>, c: Config, scoreOf: (string, int) -> real, cycle: int)
    requires cycle >= 1
    ensures var ids := ActiveIds(slots);
            var r := RunBranches(entries, c, scoreOf, ids, cycle);
            var next := Applied(slots, 0, r.decisions);
            var f := Run(slots, entries, c, scoreOf, cycle);
            if cycle > c.maxCycles then f == Final(slots, entries, cycle - 1)
            else if ids == [] then f == Final(slots, entries, cycle)
            else if AllConverged(next, r.entries, c.target) then f == Final(next, r.entries, cycle)
            else f == Run(next, r.entries, c, scoreOf, cycle + 1)
  {
    hide ActiveIds, RunBranches, Applied, AllConverged;
  }

  lemma NothingGrows(entries: seq<Entry>, c: Config, ids: seq<string>, first: int, last: int)
    ensures LedgerGrows(entries, c, ids, first, last, entries)
  {
    hide InSuccession, WrittenFor;
  }

  lemma CycleLedgerGrows(entries: seq<Entry>, c: Config, ids: seq<string>, cycle: int, r: Cycled)
    requires Distinct(ids) && CycleAdds(entries, c, ids, cycle, r)
    ensures LedgerGrows(entries, c, ids, cycle, cycle, r.entries)
  {
    var n := |entries|;
    hide LatestOf, Judged, InSuccession, WrittenFor, Distinct;
    forall i | n <= i < |r.entries| ensures WrittenFor(r.entries[i], c, ids, cycle, cycle) {
      VerdictIsWritten(r, c, ids, cycle, i - n, i);
    }
    forall i, j | n <= i < j < |r.entries| ensures InSuccession(r.entries[i], r.entries[j]) {
      assert IsVerdict(r, c, ids[i - n], cycle, n + (i - n)) && IsVerdict(r, c, ids[j - n], cycle, n + (j - n));
      DistinctSucceed(ids, i - n, j - n, r.entries[i], r.entries[j]);
    }
  }

  lemma VerdictIsWritten(r: Cycled, c: Config, ids: seq<string>, cycle: int, m: nat, i: nat)
    requires m < |ids| && IsVerdict(r, c, ids[m], cycle, i)
    ensures WrittenFor(r.entries[i], c, ids, cycle, cycle)
  {
    hide LatestOf, Judged;
    assert ids[m] in ids;
  }

  lemma DistinctSucceed(ids: seq<string>, i: nat, j: nat, e: Entry, later: Entry)
    requires Distinct(ids) && i < j < |ids| && e.branch == ids[i] && later.branch == ids[j]
    ensures InSuccession(e, later)
  {}

  lemma GrowthsCompose(entries: seq<Entry>, c: Config, ids: seq<string>, cycle: int, r: Cycled, next: seq<Slot>,
      last: int, more: seq<Entry>)
    requires CycleAdds(entries, c, ids, cycle, r) && LedgerGrows(entries, c, ids, cycle, cycle, r.entries)
    requires CarriedOver(next, ids, r.decisions) && last >= cycle
    requires LedgerGrows(r.entries, c, ActiveIds(next), cycle + 1, last, more)
    ensures LedgerGrows(entries, c, ids, cycle, last, more)
  {
    var n, m := |entries|, |r.entries|;
    hide ActiveIds, LatestOf, Judged, InSuccession, WrittenFor, CarriedOver, IsVerdict;
    assert more[..n] == more[..m][..n];
    assert forall i :: 0 <= i < m ==> more[i] == more[..m][i];
    forall i | n <= i < |more| ensures WrittenFor(more[i], c, ids, cycle, last) {
      if i < m {
        WrittenInTime(more[i], c, ids, cycle, last);
      } else {
        CarriedIsWritten(more[i], c, ids, cycle, last, next, r.decisions);
      }
    }
    forall i, j | n <= i < j < |more| ensures InSuccession(more[i], more[j]) {
      if i < m <= j {
        assert IsVerdict(r, c, ids[i - n], cycle, n + (i - n));
        RunsOn(r, c, ids, cycle, i - n, i, next, more[j], last);
      }
    }
  }

  lemma WrittenInTime(e: Entry, c: Config, ids: seq<string>, cycle: int, last: int)
    requires WrittenFor(e, c, ids, cycle, cycle) && cycle <= last
    ensures WrittenFor(e, c, ids, cycle, last)
  {
    hide Judged;
  }

  lemma CarriedIsWritten(e: Entry, c: Config, ids: seq<string>, cycle: int, last: int, next: seq<Slot>,
      decisions: map<string, Decision>)
    requires WrittenFor(e, c, ActiveIds(next), cycle + 1, last) && CarriedOver(next, ids, decisions)
    ensures WrittenFor(e, c, ids, cycle, last)
    ensures IsCarriedOver(e.branch, ids, decisions) || e.branch == SPEECH_SCRIPT_PREP
  {
    hide Judged, ActiveIds;
    ActiveIdsMeaning(next, e.branch);
    if e.branch in ActiveIds(next) {
      var k :| 0 <= k < |next| && next[k].active && next[k].id == e.branch;
      assert IsCarriedOver(next[k].id, ids, decisions);
    }
  }

  lemma RunsOn(r: Cycled, c: Config, ids: seq<string>, cycle: int, m: nat, i: nat, next: seq<Slot>, later: Entry,
      last: int)
    requires m < |ids| && IsVerdict(r, c, ids[m], cycle, i)
    requires CarriedOver(next, ids, r.decisions) && WrittenFor(later, c, ActiveIds(next), cycle + 1, last)
    ensures InSuccession(r.entries[i], later)
  {
    CarriedIsWritten(later, c, ids, cycle, last, next, r.decisions);
    hide ActiveIds, CarriedOver, Judged, LatestOf;
  }

  /** The speech branch is rerouted at most once in a run. */
  lemma {:induction false} AtMostOneReroute(slots: seq<Slot>, entries: seq<Entry>, c: Config,
      scoreOf: (string, int) -> real, i: nat,
      j: nat)
    requires DistinctIds(slots)
    requires var f := Run(slots, entries, c, scoreOf, 1);
             && |entries| <= i < |f.entries| && |entries| <= j < |f.entries|
             && f.entries[i].decision == f.entries[j].decision == RerouteToSpeechScriptPrep
    ensures i == j
  {
    RunLedgerGrows(slots, entries, c, scoreOf, 1);
    hide Run, ActiveIds, DistinctIds;
    var more := Run(slots, entries, c, scoreOf, 1).entries;
    assert more[i].branch == TTS_GENERATION == more[j].branch;
    assert TTS_GENERATION != SPEECH_SCRIPT_PREP;
    assert i < j ==> InSuccession(more[i], more[j]);
    assert j < i ==> InSuccession(more[j], more[i]);
  }
}
