/**
 `ScheduleEvaluator`: due schedules become run records, and recurring schedules move to their next
 cron time.  The class works on the registry in place.
 */
module Scheduler {
  import opened Prelude
  import opened CronSearch
  import Ordering

  datatype Schedule = Schedule(swarmId: nat, trigger: string, cron: string, enabled: bool, nextRun: Option<Time>)

  datatype Run = Run(swarmId: nat, triggeredBy: nat)

  /** The two tables the evaluator works on; schedules are keyed by their id. */
  datatype Registry = Registry(schedules: map<nat, Schedule>, runs: seq<Run>)

  /** The instant a schedule waits for, as a number to compare. */
  function DueAt(s: Schedule): int {
    if s.nextRun.Some? then Instant(s.nextRun.value) else 0
  }

  /** The WHERE clause of `get_due_schedules`. */
  predicate IsDue(s: Schedule, now: Time, enabledSwarms: set<nat>) {
    s.enabled && s.nextRun.Some? && DueAt(s) <= Instant(now) && s.swarmId in enabledSwarms
  }

  /** `compute_next_run` */
  ghost function NextRun(s: Schedule, now: Time): Outcome<Option<Time>> {
    if s.cron == "" then Ok(None)
    else
      match NextCronTimeSpec(s.cron, if s.nextRun.Some? then s.nextRun.value else now)
      case Raised => Raised
      case Ok(None) => Ok(None)
      case Ok(Some(t)) => Ok(Some(WholeMinute(t)))
  }

  /** The schedule record after its run was created; `Raised` rolls the transaction back. */
  ghost function AfterFiring(s: Schedule, now: Time): Outcome<Schedule> {
    if s.trigger == "recurring" then
      match NextRun(s, now)
      case Raised => Raised
      case Ok(next) => Ok(s.(nextRun := next))
    else Ok(s.(enabled := false, nextRun := None))
  }

  ghost function Fire(r: Registry, id: nat, now: Time): Outcome<Registry>
    requires id in r.schedules
  {
    match AfterFiring(r.schedules[id], now)
    case Raised => Raised
    case Ok(next) => Ok(Registry(r.schedules[id := next], r.runs + [Run(r.schedules[id].swarmId, id)]))
  }

  /** Firing the listed schedules one after the other, up to the first that raises; with how many fired. */
  ghost function FireAll(r: Registry, due: seq<nat>, now: Time): (out: (Registry, nat))
    requires forall id <- due :: id in r.schedules
    ensures out.1 <= |due|
    decreases |due|
  {
    if due == [] then (r, 0)
    else
      match Fire(r, due[0], now)
      case Raised => (r, 0)
      case Ok(next) => Later(FireAll(next, due[1..], now), 1)
  }

  ghost function Later(out: (Registry, nat), n: nat): (Registry, nat) {
    (out.0, out.1 + n)
  }

  /** The rows of `get_due_schedules`: the due schedules, each once, in order of `next_run_at`. */
  ghost predicate IsDueList(r: Registry, now: Time, enabledSwarms: set<nat>, due: seq<nat>) {
    && ListsDue(r, now, enabledSwarms, due)
    && forall i, j :: 0 <= i < j < |due| ==> DueAt(r.schedules[due[i]]) <= DueAt(r.schedules[due[j]])
  }

  /** The due schedules, each once, in whatever order. */
  ghost predicate ListsDue(r: Registry, now: Time, enabledSwarms: set<nat>, due: seq<nat>) {
    && Distinct(due)
    && (forall id <- due :: id in r.schedules)
    && forall id <- r.schedules :: id in due <==> IsDue(r.schedules[id], now, enabledSwarms)
  }

  /** `get_due_schedules` */
  method GetDueSchedules(r: Registry, now: Time, enabledSwarms: set<nat>) returns (due: seq<nat>)
    ensures IsDueList(r, now, enabledSwarms, due)
  {
    var keys := map id | id in r.schedules && IsDue(r.schedules[id], now, enabledSwarms) :: DueAt(r.schedules[id]);
    due := Ordering.InOrder(keys);
  }

  /** `compute_next_run`, with the clock as a parameter. */
  method ComputeNextRun(s: Schedule, now: Time) returns (r: Outcome<Option<Time>>)
    ensures r == NextRun(s, now)
  {
    if s.cron == "" { return Ok(None); }
    var next := NextCronTime(s.cron, if s.nextRun.Some? then s.nextRun.value else now);
    match next {
      case Raised => return Raised;
      case Ok(None) => return Ok(None);
      case Ok(Some(t)) => return Ok(Some(WholeMinute(t)));
    }
  }

  lemma FireAllStep(r: Registry, due: seq<nat>, i: nat, now: Time)
    requires i < |due| && forall id <- due :: id in r.schedules
    ensures var next := Fire(r, due[i], now);
            FireAll(r, due[i..], now) == if next.Raised? then (r, 0)
                                         else Later(FireAll(next.value, due[i + 1..], now), 1)
  {
    assert due[i..][1..] == due[i + 1..];
  }

  class ScheduleEvaluator {
    var registry: Registry

    constructor (registry: Registry)
      ensures this.registry == registry
    {
      this.registry := registry;
    }

    /** The body of the evaluation loop for one schedule, as one transaction. */
    method FireOne(id: nat, now: Time) returns (ok: bool)
      requires id in registry.schedules
      modifies this
      ensures ok <==> Fire(old(registry), id, now).Ok?
      ensures registry == if ok then Fire(old(registry), id, now).value else old(registry)
    {
      var s := registry.schedules[id];
      var next := s.(enabled := false, nextRun := None);
      if s.trigger == "recurring" {
        var computed := ComputeNextRun(s, now);
        if computed.Raised? { return false; }
        next := s.(nextRun := computed.value);
      }
      registry := Registry(registry.schedules[id := next], registry.runs + [Run(s.swarmId, id)]);
      return true;
    }

    /**
     `evaluate_due_schedules`.  Every due schedule gets one run and its next time; a schedule whose
     cron text raises keeps its record, gets no run and ends the evaluation.
     */
    method EvaluateDueSchedules(now: Time, enabledSwarms: set<nat>)
        returns (runIds: Outcome<seq<nat>>, ghost due: seq<nat>)
      modifies this
      ensures IsDueList(old(registry), now, enabledSwarms, due)
      ensures registry == FireAll(old(registry), due, now).0
      ensures runIds.Ok? <==> FireAll(old(registry), due, now).1 == |due|
      ensures runIds.Ok? ==> AreNewRuns(runIds.value, old(registry), registry)
    {
      var rows := GetDueSchedules(registry, now, enabledSwarms);
      due := rows;
      var ids := FireRows(rows, now);
      return if |ids| == |rows| then Ok(ids) else Raised, due;
    }

    /** The loop over the due rows; it stops at the first row that raises. */
    method FireRows(rows: seq<nat>, now: Time) returns (ids: seq<nat>)
      requires forall id <- rows :: id in registry.schedules
      modifies this
      ensures (registry, |ids|) == FireAll(old(registry), rows, now)
      ensures AreNewRuns(ids, old(registry), registry)
    {
      hide AfterFiring;
      ids := [];
      assert rows[0..] == rows;
      ghost var goal := FireAll(registry, rows, now);
      for i := 0 to |rows|
        invariant |ids| == i && AreNewRuns(ids, old(registry), registry)
        invariant forall id <- rows :: id in registry.schedules
        invariant goal == Later(FireAll(registry, rows[i..], now), i)
      {
        FireAllStep(registry, rows, i, now);
        var run := |registry.runs|;
        var ok := FireOne(rows[i], now);
        if !ok { return; }
        ids := ids + [run];
      }
    }
  }

  /** `ids` are the positions of the runs appended since `before`. */
  ghost predicate AreNewRuns(ids: seq<nat>, before: Registry, now: Registry) {
    |now.runs| == |before.runs| + |ids| && forall i :: 0 <= i < |ids| ==> ids[i] == |before.runs| + i
  }

  // ---------- one evaluation, seen from one schedule ----------

  ghost function RunsOf(runs: seq<Run>, id: nat): nat {
    if runs == [] then 0 else RunsOf(runs[..|runs| - 1], id) + if runs[|runs| - 1].triggeredBy == id then 1 else 0
  }

  /** What firing a due list does to one schedule: the first `n` fire once each, all others stay. */
  lemma {:induction false} FireAllPerSchedule(r: Registry, due: seq<nat>, now: Time, id: nat)
    requires id in r.schedules
    requires forall d <- due :: d in r.schedules
    requires Distinct(due)
    ensures var (last, n) := FireAll(r, due, now);
            && id in last.schedules
            && if id in due[..n]
               then Ok(last.schedules[id]) == AfterFiring(r.schedules[id], now)
                   && RunsOf(last.runs, id) == RunsOf(r.runs, id) + 1
               else last.schedules[id] == r.schedules[id] && RunsOf(last.runs, id) == RunsOf(r.runs, id)
    decreases |due|
  {
    if due != [] {
      match Fire(r, due[0], now) {
        case Raised =>
        case Ok(next) =>
          assert next.runs[..|next.runs| - 1] == r.runs;
          FireAllPerSchedule(next, due[1..], now, id);
          var n := FireAll(next, due[1..], now).1;
          assert due[..n + 1] == [due[0]] + due[1..][..n];
      }
    }
  }
}
