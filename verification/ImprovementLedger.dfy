/** The append-only ledger of branch scores, with scores as reals. */
module ImprovementLedger {
  import opened Prelude

  datatype Decision = Pending | Continue | IncreaseBudget | Deprioritize | TerminateBranch | RerouteToSpeechScriptPrep

  datatype Entry = Entry(branch: string, cycle: int, score: real, delta: real, stagnation: nat, decision: Decision)

  /** `history`: the entries of one branch, oldest first. */
  function History(entries: seq<Entry>, branch: string): (h: seq<Entry>)
    ensures forall e <- h :: e.branch == branch
  {
    if entries == [] then []
    else
      var last := entries[|entries| - 1];
      History(entries[..|entries| - 1], branch) + if last.branch == branch then [last] else []
  }

  function LatestOf(entries: seq<Entry>, branch: string): (e: Option<Entry>)
    ensures e.Some? ==> e.value.branch == branch
  {
    var h := History(entries, branch);
    if h == [] then None else Some(h[|h| - 1])
  }

  function Abs(x: real): real {
    if x < 0.0 then -x else x
  }

  /** The entry that `record` appends, from the branch's latest entry. */
  function NextEntry(prev: Option<Entry>, threshold: real, branch: string, cycle: int, score: real,
      decision: Decision): Entry
  {
    match prev
    case None => Entry(branch, cycle, score, 0.0, 0, decision)
    case Some(p) =>
      var delta := score - p.score;
      Entry(branch, cycle, score, delta, if Abs(delta) < threshold then p.stagnation + 1 else 0, decision)
  }

  /** Entry `i` is what `record` makes of the entries before it, decision and all. */
  ghost predicate IsRecorded(entries: seq<Entry>, threshold: real, i: nat)
    requires i < |entries|
  {
    var e := entries[i];
    e == NextEntry(LatestOf(entries[..i], e.branch), threshold, e.branch, e.cycle, e.score, e.decision)
  }

  ghost predicate WellRecorded(entries: seq<Entry>, threshold: real) {
    forall i :: 0 <= i < |entries| ==> IsRecorded(entries, threshold, i)
  }

  class Ledger {
    const threshold: real
    var entries: seq<Entry>

    ghost predicate Valid()
      reads this
    {
      WellRecorded(entries, threshold)
    }

    constructor (threshold: real)
      ensures Valid() && this.threshold == threshold && entries == []
    {
      this.threshold := threshold;
      entries := [];
    }

    /** `latest`: the search runs backwards and stops at the first entry of the branch. */
    method Latest(branch: string) returns (e: Option<Entry>)
      ensures e == LatestOf(entries, branch)
    {
      var i := |entries|;
      assert entries[..i] == entries;
      while i > 0
        invariant 0 <= i <= |entries|
        invariant History(entries, branch) == History(entries[..i], branch)
      {
        assert entries[..i][..i - 1] == entries[..i - 1];
        if entries[i - 1].branch == branch { return Some(entries[i - 1]); }
        i := i - 1;
      }
      return None;
    }

    /** `record` */
    method Record(branch: string, cycle: int, score: real, decision: Decision) returns (e: Entry)
      requires Valid()
      modifies this
      ensures Valid()
      ensures e == NextEntry(old(LatestOf(entries, branch)), threshold, branch, cycle, score, decision)
      ensures entries == old(entries) + [e]
    {
      var prev := Latest(branch);
      if prev.None? {
        e := Entry(branch, cycle, score, 0.0, 0, decision);
      } else {
        var delta := score - prev.value.score;
        var stagnation := 0;
        if Abs(delta) < threshold {
          stagnation := prev.value.stagnation + 1;
        }
        e := Entry(branch, cycle, score, delta, stagnation, decision);
      }
      RecordKeepsWell(entries, threshold, e);
      entries := entries + [e];
    }

    /** `entry = latest(branch); entry.decision = decision` */
    method Redecide(branch: string, decision: Decision)
      requires Valid()
      modifies this
      ensures Valid()
      ensures entries == Redecided(old(entries), branch, decision)
    {
      hide WellRecorded, Redecided;
      ghost var was := entries;
      RedecideKeepsWell(was, threshold, branch, decision);
      var i := |entries|;
      while i > 0
        invariant 0 <= i <= |entries| && entries == was
        invariant forall j :: i <= j < |was| ==> was[j].branch != branch
      {
        if entries[i - 1].branch == branch {
          RedecidedAt(was, branch, decision, i - 1);
          entries := entries[i - 1 := entries[i - 1].(decision := decision)];
          return;
        }
        i := i - 1;
      }
      RedecidedNowhere(was, branch, decision);
    }
  }

  /** The entries with the decision of the branch's latest one replaced. */
  function Redecided(entries: seq<Entry>, branch: string, decision: Decision): (r: seq<Entry>)
    ensures |r| == |entries|
    ensures forall i :: 0 <= i < |r| ==> r[i] == entries[i].(decision := r[i].decision)
  {
    if entries == [] then []
    else
      var front, last := entries[..|entries| - 1], entries[|entries| - 1];
      if last.branch == branch then front + [last.(decision := decision)]
      else Redecided(front, branch, decision) + [last]
  }

  lemma {:induction false} RedecidedAt(entries: seq<Entry>, branch: string, decision: Decision, k: nat)
    requires k < |entries| && entries[k].branch == branch
    requires forall j :: k < j < |entries| ==> entries[j].branch != branch
    ensures Redecided(entries, branch, decision) == entries[k := entries[k].(decision := decision)]
  {
    if k < |entries| - 1 {
      RedecidedAt(entries[..|entries| - 1], branch, decision, k);
    }
  }

  lemma {:induction false} RedecidedNowhere(entries: seq<Entry>, branch: string, decision: Decision)
    requires forall e <- entries :: e.branch != branch
    ensures Redecided(entries, branch, decision) == entries
  {
    if entries != [] {
      RedecidedNowhere(entries[..|entries| - 1], branch, decision);
    }
  }

  /** Entries that differ only in decisions. */
  ghost predicate SameButDecisions(a: seq<Entry>, b: seq<Entry>) {
    |a| == |b| && forall i :: 0 <= i < |a| ==> b[i] == a[i].(decision := b[i].decision)
  }

  lemma {:induction false} DecisionsDoNotMatter(a: seq<Entry>, b: seq<Entry>, branch: string)
    requires SameButDecisions(a, b)
    ensures SameButDecisions(History(a, branch), History(b, branch))
  {
    if a != [] {
      DecisionsDoNotMatter(a[..|a| - 1], b[..|b| - 1], branch);
    }
  }

  lemma RedecideKeepsWell(entries: seq<Entry>, threshold: real, branch: string, decision: Decision)
    requires WellRecorded(entries, threshold)
    ensures WellRecorded(Redecided(entries, branch, decision), threshold)
  {
    var r := Redecided(entries, branch, decision);
    forall i | 0 <= i < |r| ensures IsRecorded(r, threshold, i) {
      assert IsRecorded(entries, threshold, i);
      DecisionsDoNotMatter(entries[..i], r[..i], r[i].branch);
    }
  }

  lemma RecordKeepsWell(entries: seq<Entry>, threshold: real, e: Entry)
    requires WellRecorded(entries, threshold)
    requires e == NextEntry(LatestOf(entries, e.branch), threshold, e.branch, e.cycle, e.score, e.decision)
    ensures WellRecorded(entries + [e], threshold)
  {
    var more := entries + [e];
    forall i | 0 <= i < |more| ensures IsRecorded(more, threshold, i) {
      assert more[..i] == entries[..i];
      if i < |entries| {
        assert IsRecorded(entries, threshold, i);
      } else {
        assert entries[..i] == entries;
      }
    }
  }

  lemma HistoryExtends(entries: seq<Entry>, e: Entry, branch: string)
    ensures History(entries + [e], branch) == History(entries, branch) + if e.branch == branch then [e] else []
  {
    assert (entries + [e])[..|entries|] == entries;
  }

  // ---------- what the recorded numbers mean, for any interleaving of branches ----------

  /** Within one branch each entry is computed from the one before it. */
  ghost predicate IsChained(h: seq<Entry>, threshold: real) {
    forall i :: 0 <= i < |h| ==> Follows(h, threshold, i)
  }

  ghost predicate Follows(h: seq<Entry>, threshold: real, i: nat)
    requires i < |h|
  {
    var e := h[i];
    e == NextEntry(if i == 0 then None else Some(h[i - 1]), threshold, e.branch, e.cycle, e.score, e.decision)
  }

  lemma ChainedFront(h: seq<Entry>, threshold: real)
    requires IsChained(h, threshold) && h != []
    ensures IsChained(h[..|h| - 1], threshold)
  {
    var front := h[..|h| - 1];
    forall i | 0 <= i < |front| ensures Follows(front, threshold, i) {
      assert Follows(h, threshold, i);
    }
  }

  lemma {:induction false} HistoryIsChained(entries: seq<Entry>, threshold: real, branch: string)
    requires WellRecorded(entries, threshold)
    ensures IsChained(History(entries, branch), threshold)
  {
    if entries != [] {
      var front, last := entries[..|entries| - 1], entries[|entries| - 1];
      WellRecordedFront(entries, threshold);
      HistoryIsChained(front, threshold, branch);
      var fh := History(front, branch);
      if last.branch == branch {
        assert Follows(fh + [last], threshold, |fh|);
        ChainGrows(fh, threshold, last);
      } else {
        assert History(entries, branch) == fh + [] == fh;
      }
    }
  }

  lemma WellRecordedFront(entries: seq<Entry>, threshold: real)
    requires entries != [] && WellRecorded(entries, threshold)
    ensures WellRecorded(entries[..|entries| - 1], threshold)
    ensures var last := entries[|entries| - 1];
            last == NextEntry(LatestOf(entries[..|entries| - 1], last.branch), threshold, last.branch, last.cycle,
                last.score, last.decision)
  {
    var front := entries[..|entries| - 1];
    forall i | 0 <= i < |front| ensures IsRecorded(front, threshold, i) {
      assert IsRecorded(entries, threshold, i) && front[..i] == entries[..i];
    }
    assert IsRecorded(entries, threshold, |front|);
  }

  lemma ChainGrows(h: seq<Entry>, threshold: real, e: Entry)
    requires IsChained(h, threshold)
    ensures IsChained(h + [e], threshold) <==> Follows(h + [e], threshold, |h|)
  {
    forall i | 0 <= i < |h| ensures Follows(h + [e], threshold, i) {
      assert Follows(h, threshold, i);
    }
  }

  /** The last `n` of the entries after the first have sub-threshold deltas, and no more than that. */
  ghost predicate IsTrailingRun(h: seq<Entry>, threshold: real, n: nat) {
    && n < |h|
    && (forall i :: |h| - n <= i < |h| ==> Abs(h[i].delta) < threshold)
    && (n == |h| - 1 || Abs(h[|h| - 1 - n].delta) >= threshold)
  }

  /** A branch's latest stagnation count is the length of its maximal trailing run of small deltas. */
  lemma {:induction false} StagnationIsTrailingRun(entries: seq<Entry>, threshold: real, branch: string)
    requires WellRecorded(entries, threshold) && LatestOf(entries, branch).Some?
    ensures IsTrailingRun(History(entries, branch), threshold, LatestOf(entries, branch).value.stagnation)
  {
    HistoryIsChained(entries, threshold, branch);
    ChainedTrailingRun(History(entries, branch), threshold);
  }

  lemma {:induction false} ChainedTrailingRun(h: seq<Entry>, threshold: real)
    requires h != [] && IsChained(h, threshold)
    ensures IsTrailingRun(h, threshold, h[|h| - 1].stagnation)
  {
    assert Follows(h, threshold, |h| - 1);
    if |h| > 1 {
      ChainedFront(h, threshold);
      ChainedTrailingRun(h[..|h| - 1], threshold);
    }
  }

  ghost function SumOfDeltas(h: seq<Entry>): real {
    if h == [] then 0.0 else SumOfDeltas(h[..|h| - 1]) + h[|h| - 1].delta
  }

  /** The deltas of a branch add up to its last score minus its first. */
  lemma DeltasTelescope(entries: seq<Entry>, threshold: real, branch: string)
    requires WellRecorded(entries, threshold) && History(entries, branch) != []
    ensures var h := History(entries, branch); SumOfDeltas(h) == h[|h| - 1].score - h[0].score
  {
    HistoryIsChained(entries, threshold, branch);
    ChainedTelescope(History(entries, branch), threshold);
  }

  lemma {:induction false} ChainedTelescope(h: seq<Entry>, threshold: real)
    requires h != [] && IsChained(h, threshold)
    ensures SumOfDeltas(h) == h[|h| - 1].score - h[0].score
  {
    assert Follows(h, threshold, |h| - 1);
    if |h| > 1 {
      ChainedFront(h, threshold);
      ChainedTelescope(h[..|h| - 1], threshold);
    } else {
      assert h[..0] == [] && h[0].delta == 0.0;
    }
  }
}
