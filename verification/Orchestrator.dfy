/**
 The adaptive cycle loop: branches are scored, decided on, deactivated, reactivated and appended to
 the list that the loop is walking. The score of each execution is a parameter.
 */
module Orchestrator {
  import opened ImprovementLedger
  import opened AdaptiveScheduler

  /** A branch configuration: its id and whether it is active. */
  datatype Slot = Slot(id: string, active: bool)

  /** The ledger after the branches of one cycle, and the decision taken for each of them. */
  datatype Cycled = Cycled(entries: seq<Entry>, decisions: map<string, Decision>)

  datatype Final = Final(slots: seq<Slot>, entries: seq<Entry>, cycles: nat)

  // ---------- what a run computes ----------

  function Recorded(entries: seq<Entry>, c: Config, id: string, cycle: int, score: real): seq<Entry> {
    entries + [NextEntry(LatestOf(entries, id), c.threshold, id, cycle, score, Pending)]
  }

  /** The branches of one cycle, in order: record, decide on the grown ledger, write the decision back. */
  function RunBranches(entries: seq<Entry>, c: Config, scoreOf: (string, int) -> real, ids: seq<string>,
      cycle: int): Cycled
  {
    if ids == [] then Cycled(entries, map[])
    else
      var before := RunBranches(entries, c, scoreOf, ids[..|ids| - 1], cycle);
      var id := ids[|ids| - 1];
      var recorded := Recorded(before.entries, c, id, cycle, scoreOf(id, cycle));
      var d := Decide(recorded, c, id, cycle);
      Cycled(Redecided(recorded, id, d), before.decisions[id := d])
  }

  function ActiveIds(slots: seq<Slot>): seq<string> {
    if slots == [] then []
    else
      var last := slots[|slots| - 1];
      ActiveIds(slots[..|slots| - 1]) + if last.active then [last.id] else []
  }

  predicate HasSpeech(slots: seq<Slot>) {
    exists k :: 0 <= k < |slots| && slots[k].id == SPEECH_SCRIPT_PREP
  }

  /** The position of the first speech-script branch; the length of the list when there is none. */
  function FirstSpeech(slots: seq<Slot>): (i: nat)
    ensures i <= |slots| && (i < |slots| ==> slots[i].id == SPEECH_SCRIPT_PREP)
    ensures forall k :: 0 <= k < i ==> slots[k].id != SPEECH_SCRIPT_PREP
  {
    if slots == [] || slots[0].id == SPEECH_SCRIPT_PREP then 0 else FirstSpeech(slots[1..]) + 1
  }

  /** Reactivate the first speech-script branch, or append one. */
  function Injected(slots: seq<Slot>): (r: seq<Slot>)
    ensures HasSpeech(r)
    ensures |r| == |slots| + if HasSpeech(slots) then 0 else 1
  {
    var i := FirstSpeech(slots);
    var r := if i < |slots| then slots[i := Slot(SPEECH_SCRIPT_PREP, true)]
        else slots + [Slot(SPEECH_SCRIPT_PREP, true)];
    assert r[i].id == SPEECH_SCRIPT_PREP;
    r
  }

  function SwitchedOff(slots: seq<Slot>, i: nat): (r: seq<Slot>)
    requires i < |slots|
    ensures |r| == |slots| && (HasSpeech(r) <==> HasSpeech(slots))
  {
    var r := slots[i := Slot(slots[i].id, false)];
    assert forall k :: 0 <= k < |slots| ==> r[k].id == slots[k].id;
    r
  }

  /** The walk that applies a cycle's decisions, from position `i` of a list that may grow under it. */
  function Applied(slots: seq<Slot>, i: nat, decisions: map<string, Decision>): seq<Slot>
    decreases |slots| - i + if HasSpeech(slots) then 0 else 1
  {
    if i >= |slots| then slots
    else
      var id := slots[i].id;
      var off := SwitchedOff(slots, i);
      if id !in decisions then Applied(slots, i + 1, decisions)
      else if decisions[id] == TerminateBranch then Applied(off, i + 1, decisions)
      else if decisions[id] == RerouteToSpeechScriptPrep then Applied(Injected(off), i + 1, decisions)
      else Applied(slots, i + 1, decisions)
  }

  /** `_all_converged_or_terminated` */
  predicate AllConverged(slots: seq<Slot>, entries: seq<Entry>, target: real) {
    forall k :: 0 <= k < |slots| ==> IsConverged(slots[k], entries, target)
  }

  predicate IsConverged(s: Slot, entries: seq<Entry>, target: real) {
    s.active && LatestOf(entries, s.id).Some? ==> LatestOf(entries, s.id).value.score >= target
  }

  function Run(slots: seq<Slot>, entries: seq<Entry>, c: Config, scoreOf: (string, int) -> real, cycle: int): Final
    requires cycle >= 1
    decreases c.maxCycles - cycle
  {
    if cycle > c.maxCycles then Final(slots, entries, cycle - 1)
    else
      var ids := ActiveIds(slots);
      if ids == [] then Final(slots, entries, cycle)
      else
        var r := RunBranches(entries, c, scoreOf, ids, cycle);
        var next := Applied(slots, 0, r.decisions);
        if AllConverged(next, r.entries, c.target) then Final(next, r.entries, cycle)
        else Run(next, r.entries, c, scoreOf, cycle + 1)
  }

  // ---------- the running loop ----------

  class Branch {
    const id: string
    var active: bool

    constructor (id: string, active: bool)
      ensures this.id == id && this.active == active
    {
      this.id := id;
      this.active := active;
    }
  }

  ghost function View(branches: seq<Branch>): (v: seq<Slot>)
    reads branches
    ensures |v| == |branches|
    ensures forall k :: 0 <= k < |v| ==> v[k] == Slot(branches[k].id, branches[k].active)
  {
    seq(|branches|, k requires 0 <= k < |branches| reads branches => Slot(branches[k].id, branches[k].active))
  }

  class AdaptiveOrchestrator {
    const c: Config
    const scoreOf: (string, int) -> real
    const ledger: Ledger
    var configs: seq<Branch>

    ghost predicate Valid()
      reads this, ledger
    {
      && ledger.Valid() && ledger.threshold == c.threshold
      && forall i, j :: 0 <= i < j < |configs| ==> configs[i] != configs[j]
    }

    constructor (c: Config, scoreOf: (string, int) -> real, configs: seq<Branch>)
      requires forall i, j :: 0 <= i < j < |configs| ==> configs[i] != configs[j]
      ensures Valid() && fresh(ledger) && ledger.entries == []
      ensures this.c == c && this.scoreOf == scoreOf && this.configs == configs
    {
      this.c := c;
      this.scoreOf := scoreOf;
      this.configs := configs;
      ledger := new Ledger(c.threshold);
    }

    /** `run_adaptive` */
    method RunAdaptive() returns (totalCycles: nat)
      requires Valid()
      modifies this, ledger, configs
      ensures Valid()
      ensures Final(View(configs), ledger.entries, totalCycles)
           == old(Run(View(configs), ledger.entries, c, scoreOf, 1))
      ensures forall k :: 0 <= k < |configs| ==> configs[k] in old(configs) || fresh(configs[k])
    {
      hide RunBranches, Applied, AllConverged, ActiveIds, WellRecorded;
      totalCycles := 0;
      var cycle := 1;
      while cycle <= c.maxCycles
        invariant Valid() && cycle >= 1 && totalCycles == cycle - 1
        invariant forall k :: 0 <= k < |configs| ==> configs[k] in old(configs) || fresh(configs[k])
        invariant old(Run(View(configs), ledger.entries, c, scoreOf, 1))
                  == Run(View(configs), ledger.entries, c, scoreOf, cycle)
        decreases c.maxCycles - cycle
      {
        totalCycles := cycle;
        var active := ActiveBranches();
        if active == [] { return; }
        var decisions := RunActive(active, cycle);
        ApplyDecisions(decisions);
        var done := AllConvergedOrTerminated();
        if done { return; }
        cycle := cycle + 1;
      }
    }

    method ActiveBranches() returns (active: seq<Branch>)
      ensures Ids(active) == ActiveIds(View(configs))
    {
      active := [];
      ghost var v := View(configs);
      for i := 0 to |configs|
        invariant Ids(active) == ActiveIds(v[..i])
      {
        assert v[..i + 1][..i] == v[..i];
        if configs[i].active {
          assert Ids(active + [configs[i]]) == Ids(active) + [configs[i].id];
          active := active + [configs[i]];
        }
      }
      assert v[..|v|] == v;
    }

    /** Execute, score, record, decide and write back, for each branch active at the cycle's start. */
    method RunActive(active: seq<Branch>, cycle: int) returns (decisions: map<string, Decision>)
      requires ledger.Valid() && ledger.threshold == c.threshold
      modifies ledger
      ensures ledger.Valid()
      ensures Cycled(ledger.entries, decisions) == RunBranches(old(ledger.entries), c, scoreOf, Ids(active), cycle)
    {
      decisions := map[];
      ghost var ids := Ids(active);
      for i := 0 to |active|
        invariant ledger.Valid()
        invariant Cycled(ledger.entries, decisions) == RunBranches(old(ledger.entries), c, scoreOf, ids[..i], cycle)
      {
        assert ids[..i + 1][..i] == ids[..i];
        var id := active[i].id;
        var score := scoreOf(id, cycle);
        var _ := ledger.Record(id, cycle, score, Pending);
        var d := Decide(ledger.entries, c, id, cycle);
        ledger.Redecide(id, d);
        decisions := decisions[id := d];
      }
      assert ids[..|active|] == ids;
    }

    /** The walk over `configs`, which `InjectSpeechScriptPrep` may extend. */
    method ApplyDecisions(decisions: map<string, Decision>)
      requires Valid()
      modifies this`configs, configs
      ensures Valid()
      ensures View(configs) == Applied(old(View(configs)), 0, decisions)
      ensures forall k :: 0 <= k < |configs| ==> configs[k] in old(configs) || fresh(configs[k])
    {
      hide Injected, SwitchedOff, WellRecorded, HasSpeech, LatestOf, Decide;
      ghost var result := Applied(View(configs), 0, decisions);
      var i := 0;
      while i < |configs|
        invariant Valid()
        invariant forall k :: 0 <= k < |configs| ==> configs[k] in old(configs) || fresh(configs[k])
        invariant Applied(View(configs), i, decisions) == result
        decreases |configs| - i + if HasSpeech(View(configs)) then 0 else 1
      {
        var b := configs[i];
        if b.id in decisions {
          if decisions[b.id] == TerminateBranch {
            SwitchOff(i);
          } else if decisions[b.id] == RerouteToSpeechScriptPrep {
            SwitchOff(i);
            InjectSpeechScriptPrep();
          }
        }
        i := i + 1;
      }
    }

    /** `branch.active = False` */
    method SwitchOff(i: nat)
      requires Valid() && i < |configs|
      modifies configs[i]
      ensures Valid()
      ensures View(configs) == SwitchedOff(old(View(configs)), i)
    {
      configs[i].active := false;
    }

    /** `_inject_speech_script_prep` */
    method InjectSpeechScriptPrep()
      requires Valid()
      modifies this`configs, configs
      ensures Valid()
      ensures View(configs) == Injected(old(View(configs)))
      ensures forall k :: 0 <= k < |configs| ==> configs[k] in old(configs) || fresh(configs[k])
    {
      ghost var v := View(configs);
      for i := 0 to |configs|
        invariant configs == old(configs) && View(configs) == v
        invariant forall k :: 0 <= k < i ==> v[k].id != SPEECH_SCRIPT_PREP
      {
        if configs[i].id == SPEECH_SCRIPT_PREP {
          configs[i].active := true;
          assert FirstSpeech(v) == i;
          return;
        }
      }
      assert FirstSpeech(v) == |v|;
      var b := new Branch(SPEECH_SCRIPT_PREP, true);
      configs := configs + [b];
    }

    method AllConvergedOrTerminated() returns (all: bool)
      ensures all == AllConverged(View(configs), ledger.entries, c.target)
    {
      for i := 0 to |configs|
        invariant forall k :: 0 <= k < i ==> IsConverged(View(configs)[k], ledger.entries, c.target)
      {
        if configs[i].active {
          var e := ledger.Latest(configs[i].id);
          if e.Some? && e.value.score < c.target {
            assert !IsConverged(View(configs)[i], ledger.entries, c.target);
            return false;
          }
        }
        assert IsConverged(View(configs)[i], ledger.entries, c.target);
      }
      return true;
    }
  }

  ghost function Ids(branches: seq<Branch>): (ids: seq<string>)
    ensures |ids| == |branches|
  {
    seq(|branches|, k requires 0 <= k < |branches| => branches[k].id)
  }
}
