/** Which due schedules fire and which wait, and what one schedule does over whole sequences of evaluations. */
module ScheduleRuns {
  import opened Prelude
  import opened Calendar
  import opened CronSearch
  import opened Scheduler

  // ---------- which due schedules fire, and which wait ----------

  /** A schedule that can be due but whose transaction raises, whatever the time. */
  ghost predicate CronRaises(s: Schedule) {
    s.trigger == "recurring" && s.cron != "" && ReadSpec(s.cron).Raised?
  }

  lemma FiringRaisesIff(s: Schedule, now: Time)
    ensures AfterFiring(s, now).Raised? <==> CronRaises(s)
  {
    hide ReadSpec, EarliestMatch;
  }

  /** An evaluation fires the due list up to its first schedule that raises. */
  lemma {:induction false} StopsAtFirstRaising(r: Registry, due: seq<nat>, now: Time)
    requires forall id <- due :: id in r.schedules
    requires Distinct(due)
    ensures var n := FireAll(r, due, now).1;
            && (forall i :: 0 <= i < n ==> !CronRaises(r.schedules[due[i]]))
            && (n < |due| ==> CronRaises(r.schedules[due[n]]))
    decreases |due|
  {
    if due != [] {
      FiringRaisesIff(r.schedules[due[0]], now);
      hide AfterFiring, CronRaises;
      match Fire(r, due[0], now) {
        case Raised =>
        case Ok(next) =>
          StopsAtFirstRaising(next, due[1..], now);
          var n := FireAll(next, due[1..], now).1;
          forall i | 0 <= i < n + 1 ensures !CronRaises(r.schedules[due[i]]) {
            if i > 0 { assert due[i] == due[1..][i - 1]; }
          }
      }
    }
  }

  /** Every due schedule fires exactly when none of them has cron text that raises. */
  lemma AllFireIff(r: Registry, due: seq<nat>, now: Time)
    requires forall id <- due :: id in r.schedules
    requires Distinct(due)
    ensures FireAll(r, due, now).1 == |due| <==> forall id <- due :: !CronRaises(r.schedules[id])
  {
    StopsAtFirstRaising(r, due, now);
    hide CronRaises, FireAll;
    var n := FireAll(r, due, now).1;
    if n < |due| {
      assert due[n] in due;
    }
  }

  // ---------- which runs are queued ----------

  /** What the schedule record must say for a run at the evaluation: enabled, its time reached, its swarm enabled. */
  predicate Owed(s: Schedule, now: Time, enabledSwarms: set<nat>) {
    s.enabled && s.nextRun.Some? && Instant(s.nextRun.value) <= Instant(now) && s.swarmId in enabledSwarms
  }

  /** The run belongs to a schedule that is owed one, and to that schedule's swarm. */
  predicate IsOwedRun(run: Run, schedules: map<nat, Schedule>, now: Time, enabledSwarms: set<nat>) {
    && run.triggeredBy in schedules
    && run.swarmId == schedules[run.triggeredBy].swarmId
    && Owed(schedules[run.triggeredBy], now, enabledSwarms)
  }

  /** The due list holds the longest waiting first. */
  lemma DueOldestFirst(r: Registry, now: Time, enabledSwarms: set<nat>, due: seq<nat>, i: nat, j: nat)
    requires IsDueList(r, now, enabledSwarms, due) && i < j < |due|
    ensures var s, t := r.schedules[due[i]], r.schedules[due[j]];
            s.nextRun.Some? && t.nextRun.Some? && Instant(s.nextRun.value) <= Instant(t.nextRun.value)
  {
    assert due[i] in due && due[j] in due;
    hide Instant;
    assert DueAt(r.schedules[due[i]]) <= DueAt(r.schedules[due[j]]);
  }

  /** The k-th run queued is the k-th listed schedule's, for that schedule's swarm. */
  lemma {:induction false} RunsFollowDueList(r: Registry, due: seq<nat>, now: Time)
    requires forall id <- due :: id in r.schedules
    ensures var (last, n) := FireAll(r, due, now);
            && |last.runs| == |r.runs| + n && r.runs <= last.runs
            && forall k :: 0 <= k < n ==>
                 var run := last.runs[|r.runs| + k];
                 run.triggeredBy == due[k] && run.swarmId == r.schedules[due[k]].swarmId
    decreases |due|
  {
    if due != [] {
      match Fire(r, due[0], now) {
        case Raised =>
        case Ok(next) =>
          RunsFollowDueList(next, due[1..], now);
          var (last, n) := FireAll(next, due[1..], now);
          assert next.schedules[due[0]].swarmId == r.schedules[due[0]].swarmId;
          forall k | 0 <= k < n + 1
            ensures last.runs[|r.runs| + k].triggeredBy == due[k]
                    && last.runs[|r.runs| + k].swarmId == r.schedules[due[k]].swarmId
          {
            if k > 0 {
              assert last.runs[|next.runs| + (k - 1)].triggeredBy == due[1..][k - 1];
            }
          }
      }
    }
  }

  /**
   An evaluation queues runs only for schedules that are owed one, for their own swarms and at most one
   each; when no schedule that is owed one raises, each of them gets it.
   */
  lemma RunsAreOwed(r: Registry, now: Time, enabledSwarms: set<nat>, due: seq<nat>)
    requires ListsDue(r, now, enabledSwarms, due)
    ensures var last := FireAll(r, due, now).0;
            && r.runs <= last.runs
            && (forall k :: |r.runs| <= k < |last.runs| ==> IsOwedRun(last.runs[k], r.schedules, now, enabledSwarms))
            && (forall i, k :: |r.runs| <= i < k < |last.runs| ==> last.runs[i].triggeredBy != last.runs[k].triggeredBy)
            && ((forall id <- r.schedules :: Owed(r.schedules[id], now, enabledSwarms) ==> !CronRaises(r.schedules[id]))
                ==> forall id <- r.schedules :: Owed(r.schedules[id], now, enabledSwarms) ==>
                      Run(r.schedules[id].swarmId, id) in last.runs[|r.runs|..])
  {
    RunsFollowDueList(r, due, now);
    AllFireIff(r, due, now);
    var (last, n) := FireAll(r, due, now);
    assert forall id <- r.schedules :: id in due <==> Owed(r.schedules[id], now, enabledSwarms);
    hide FireAll, CronRaises, IsDue, Owed;
    forall k | |r.runs| <= k < |last.runs| ensures IsOwedRun(last.runs[k], r.schedules, now, enabledSwarms) {
      assert last.runs[|r.runs| + (k - |r.runs|)].triggeredBy == due[k - |r.runs|];
    }
    forall i, k | |r.runs| <= i < k < |last.runs| ensures last.runs[i].triggeredBy != last.runs[k].triggeredBy {
      assert last.runs[|r.runs| + (i - |r.runs|)].triggeredBy == due[i - |r.runs|];
      assert last.runs[|r.runs| + (k - |r.runs|)].triggeredBy == due[k - |r.runs|];
    }
    if n == |due| {
      forall id <- r.schedules | Owed(r.schedules[id], now, enabledSwarms)
        ensures Run(r.schedules[id].swarmId, id) in last.runs[|r.runs|..]
      {
        var k :| 0 <= k < |due| && due[k] == id;
        assert last.runs[|r.runs|..][k] == last.runs[|r.runs| + k];
      }
    }
  }

  /** A failing input: a zero step raises, and the schedule that is due with it does not fire. */
  lemma {:induction false} ZeroStepStopsEvaluation(now: Time, bad: Schedule, good: Schedule)
    requires bad == Schedule(0, "recurring", "*/0 * * * *", true, Some(now))
    requires good == Schedule(0, "deferred_once", "", true, Some(now))
    ensures var r := Registry(map[1 := bad, 2 := good], []);
            CronRaises(bad) && !CronRaises(good) && IsDueList(r, now, {0}, [1, 2]) && FireAll(r, [1, 2], now) == (r, 0)
  {
    var r := Registry(map[1 := bad, 2 := good], []);
    ZeroStepRaises();
    assert CronRaises(bad) && !CronRaises(good);
    FiringRaisesIff(bad, now);
    assert IsDue(bad, now, {0}) && IsDue(good, now, {0}) && DueAt(bad) == DueAt(good);
    hide *;
    TwoDue(r, now, 1, 2);
    FirstRaises(r, [1, 2], now);
  }

  lemma TwoDue(r: Registry, now: Time, i: nat, j: nat)
    requires i != j && r.schedules.Keys == {i, j}
    ensures var a, b := r.schedules[i], r.schedules[j];
            IsDue(a, now, {0}) && IsDue(b, now, {0}) && DueAt(a) == DueAt(b) ==> IsDueList(r, now, {0}, [i, j])
  {
    hide IsDue, DueAt;
  }

  lemma FirstRaises(r: Registry, due: seq<nat>, now: Time)
    requires due != [] && forall id <- due :: id in r.schedules
    ensures AfterFiring(r.schedules[due[0]], now).Raised? ==> FireAll(r, due, now) == (r, 0)
  {
    hide AfterFiring;
  }

  // ---------- one schedule over a whole run of evaluations ----------

  /** One evaluation at `now`; `reached` says that its swarm was enabled and no earlier row raised. */
  datatype Tick = Tick(now: Time, reached: bool)

  ghost predicate FiresAt(s: Schedule, t: Tick) {
    t.reached && IsDue(s, t.now, {s.swarmId}) && AfterFiring(s, t.now).Ok?
  }

  ghost function Visit(s: Schedule, t: Tick): Schedule {
    if FiresAt(s, t) then AfterFiring(s, t.now).value else s
  }

  /** The schedule after the ticks, and the `next_run_at` values it fired for, oldest first. */
  ghost function Life(s: Schedule, ticks: seq<Tick>): (Schedule, seq<Time>) {
    if ticks == [] then (s, [])
    else
      var (before, fired) := Life(s, ticks[..|ticks| - 1]);
      var t := ticks[|ticks| - 1];
      (Visit(before, t), if FiresAt(before, t) then fired + [before.nextRun.value] else fired)
  }

  /** An evaluation of the whole registry is one tick for each schedule, with one run if it fired. */
  lemma {:induction false} EvaluationIsTick(r: Registry, now: Time, enabledSwarms: set<nat>, due: seq<nat>, id: nat)
    requires id in r.schedules && ListsDue(r, now, enabledSwarms, due)
    ensures var (last, n) := FireAll(r, due, now);
            var t := Tick(now, id in due[..n]);
            && id in last.schedules
            && last.schedules[id] == Visit(r.schedules[id], t)
            && RunsOf(last.runs, id) == RunsOf(r.runs, id) + (if FiresAt(r.schedules[id], t) then 1 else 0)
            && (n == |due| && IsDue(r.schedules[id], now, enabledSwarms) ==> t.reached)
  {
    FireAllPerSchedule(r, due, now, id);
    var n := FireAll(r, due, now).1;
    assert n == |due| ==> due[..n] == due;
    if id in due[..n] {
      assert id in due;
    }
  }

  /** One call of `evaluate_due_schedules`, with the due list it worked through. */
  datatype Evaluation = Evaluation(now: Time, enabledSwarms: set<nat>, due: seq<nat>)

  /** Each evaluation works on the due list of the registry that the ones before it left. */
  ghost predicate AreEvaluations(r: Registry, es: seq<Evaluation>)
    decreases |es|, 0
  {
    es == [] ||
      var front, e := es[..|es| - 1], es[|es| - 1];
      AreEvaluations(r, front) && IsDueList(AfterAll(r, front), e.now, e.enabledSwarms, e.due)
  }

  ghost function AfterAll(r: Registry, es: seq<Evaluation>): Registry
    requires AreEvaluations(r, es)
    decreases |es|, 1
  {
    if es == [] then r
    else FireAll(AfterAll(r, es[..|es| - 1]), es[|es| - 1].due, es[|es| - 1].now).0
  }

  /** Over any sequence of evaluations each schedule lives its own life, with one run for each value it fires for. */
  lemma {:induction false} RunsMatchLife(r: Registry, es: seq<Evaluation>, id: nat) returns (ticks: seq<Tick>)
    requires AreEvaluations(r, es) && id in r.schedules
    ensures |ticks| == |es| && forall i :: 0 <= i < |es| ==> ticks[i].now == es[i].now
    ensures var last := AfterAll(r, es);
            var (after, fired) := Life(r.schedules[id], ticks);
            && id in last.schedules && last.schedules[id] == after
            && RunsOf(last.runs, id) == RunsOf(r.runs, id) + |fired|
  {
    ticks := [];
    if es != [] {
      var front, e := es[..|es| - 1], es[|es| - 1];
      var before := AfterAll(r, front);
      var prior := RunsMatchLife(r, front, id);
      EvaluationIsTick(before, e.now, e.enabledSwarms, e.due, id);
      var t := Tick(e.now, id in e.due[..FireAll(before, e.due, e.now).1]);
      ticks := prior + [t];
      assert ticks[..|prior|] == prior;
      hide FireAll, FiresAt, ListsDue, AfterFiring;
    }
  }

  /**
   Over any sequence of evaluations every run queued was owed when it was queued, by a schedule of the
   registry the sequence began with and for that schedule's swarm.
   */
  lemma {:induction false} EveryRunWasOwed(r: Registry, es: seq<Evaluation>)
    requires AreEvaluations(r, es)
    ensures var last := AfterAll(r, es);
            && last.schedules.Keys == r.schedules.Keys
            && (forall id <- r.schedules :: last.schedules[id].swarmId == r.schedules[id].swarmId)
            && r.runs <= last.runs
            && forall k :: |r.runs| <= k < |last.runs| ==> WasOwed(r, es, last.runs[k])
  {
    if es != [] {
      var front, e := es[..|es| - 1], es[|es| - 1];
      EveryRunWasOwed(r, front);
      var before, last := AfterAll(r, front), AfterAll(r, es);
      RunsAreOwed(before, e.now, e.enabledSwarms, e.due);
      SchedulesKeepSwarms(before, e.due, e.now);
      hide *;
      forall k | |r.runs| <= k < |last.runs| ensures WasOwed(r, es, last.runs[k]) {
        if k < |before.runs| {
          WasOwedEarlier(r, es, before.runs[k]);
        } else {
          OwedLast(r, es, last.runs[k]);
        }
      }
    }
  }

  lemma OwedLast(r: Registry, es: seq<Evaluation>, run: Run)
    requires es != [] && AreEvaluations(r, es)
    requires var before := AfterAll(r, es[..|es| - 1]);
             && IsOwedRun(run, before.schedules, es[|es| - 1].now, es[|es| - 1].enabledSwarms)
             && before.schedules.Keys == r.schedules.Keys
             && forall id <- r.schedules :: before.schedules[id].swarmId == r.schedules[id].swarmId
    ensures WasOwed(r, es, run)
  {
    assert MetOwing(r, es, |es| - 1, run);
  }

  /** The run names its schedule's swarm, and some evaluation met the schedule in a state that owes a run. */
  ghost predicate WasOwed(r: Registry, es: seq<Evaluation>, run: Run)
    requires AreEvaluations(r, es)
  {
    && run.triggeredBy in r.schedules && run.swarmId == r.schedules[run.triggeredBy].swarmId
    && exists i :: 0 <= i < |es| && MetOwing(r, es, i, run)
  }

  ghost predicate MetOwing(r: Registry, es: seq<Evaluation>, i: nat, run: Run)
    requires i < |es|
  {
    AreEvaluations(r, es[..i]) && IsOwedRun(run, AfterAll(r, es[..i]).schedules, es[i].now, es[i].enabledSwarms)
  }

  lemma WasOwedEarlier(r: Registry, es: seq<Evaluation>, run: Run)
    requires es != [] && AreEvaluations(r, es)
    ensures WasOwed(r, es[..|es| - 1], run) ==> WasOwed(r, es, run)
  {
    var front := es[..|es| - 1];
    if WasOwed(r, front, run) {
      var i :| 0 <= i < |front| && MetOwing(r, front, i, run);
      assert front[..i] == es[..i];
      assert MetOwing(r, es, i, run);
    }
  }

  lemma {:induction false} SchedulesKeepSwarms(r: Registry, due: seq<nat>, now: Time)
    requires forall id <- due :: id in r.schedules
    ensures var last := FireAll(r, due, now).0;
            && last.schedules.Keys == r.schedules.Keys
            && forall id <- r.schedules :: last.schedules[id].swarmId == r.schedules[id].swarmId
    decreases |due|
  {
    if due != [] && Fire(r, due[0], now).Ok? {
      SchedulesKeepSwarms(Fire(r, due[0], now).value, due[1..], now);
    }
  }

  /**
   A schedule waits, in every sequence of evaluations, behind one that is due each time, was due earlier
   and raises: neither changes and neither gets a run.
   */
  lemma {:induction false} WaitsBehindRaising(r: Registry, es: seq<Evaluation>, blocker: nat, id: nat)
    requires AreEvaluations(r, es) && blocker in r.schedules && id in r.schedules
    requires id == blocker || DueAt(r.schedules[blocker]) < DueAt(r.schedules[id])
    ensures CronRaises(r.schedules[blocker])
            && (forall e <- es :: IsDue(r.schedules[blocker], e.now, e.enabledSwarms)) ==>
              var last := AfterAll(r, es);
              && blocker in last.schedules && last.schedules[blocker] == r.schedules[blocker]
              && id in last.schedules && last.schedules[id] == r.schedules[id]
              && RunsOf(last.runs, id) == RunsOf(r.runs, id)
  {
    hide CronRaises, IsDue, DueAt, FireAll;
    if es != [] && CronRaises(r.schedules[blocker])
       && forall e <- es :: IsDue(r.schedules[blocker], e.now, e.enabledSwarms) {
      var front, e := es[..|es| - 1], es[|es| - 1];
      WaitsBehindRaising(r, front, blocker, id);
      var before := AfterAll(r, front);
      OneMoreWait(before, e, blocker, id);
      OneMoreWait(before, e, blocker, blocker);
    }
  }

  lemma {:induction false} OneMoreWait(r: Registry, e: Evaluation, blocker: nat, id: nat)
    requires IsDueList(r, e.now, e.enabledSwarms, e.due) && blocker in r.schedules && id in r.schedules
    requires id == blocker || DueAt(r.schedules[blocker]) < DueAt(r.schedules[id])
    ensures CronRaises(r.schedules[blocker]) && IsDue(r.schedules[blocker], e.now, e.enabledSwarms) ==>
              var last := FireAll(r, e.due, e.now).0;
              && id in last.schedules && last.schedules[id] == r.schedules[id]
              && RunsOf(last.runs, id) == RunsOf(r.runs, id)
  {
    StopsAtFirstRaising(r, e.due, e.now);
    FireAllPerSchedule(r, e.due, e.now, id);
    hide CronRaises, IsDue, DueAt, FireAll, RunsOf, AfterFiring;
    var n := FireAll(r, e.due, e.now).1;
    if CronRaises(r.schedules[blocker]) && IsDue(r.schedules[blocker], e.now, e.enabledSwarms) {
      var p :| 0 <= p < |e.due| && e.due[p] == blocker;
      assert n <= p;
      assert forall q :: 0 <= q < n ==> e.due[q] != id;
    }
  }

  /** `later` is the cron match that follows `earlier`. */
  ghost predicate Follows(c: CronSpec, earlier: Time, later: Option<Time>) {
    match EarliestMatch(c, earlier)
    case None => later == None
    case Some(t) => later == Some(WholeMinute(t))
  }

  /** Each value is the next match after the one before it. */
  ghost predicate IsChain(c: CronSpec, f: seq<Time>) {
    forall i :: 0 <= i < |f| - 1 ==> Follows(c, f[i], Some(f[i + 1]))
  }

  lemma FiringMovesToNextMatch(s: Schedule, now: Time, c: CronSpec)
    requires s.trigger == "recurring" && s.nextRun.Some?
    ensures ReadSpec(s.cron) == Ok(Some(c)) ==>
              var after := AfterFiring(s, now);
              && after.Ok? && after.value == s.(nextRun := after.value.nextRun)
              && Follows(c, s.nextRun.value, after.value.nextRun)
  {
  }

  /** A recurring schedule fires for its first time and then for one match after another. */
  lemma {:induction false} RecurringLife(s: Schedule, ticks: seq<Tick>, c: CronSpec)
    requires s.trigger == "recurring" && s.enabled && s.nextRun.Some?
    ensures ReadSpec(s.cron) == Ok(Some(c)) ==>
              var (after, fired) := Life(s, ticks);
              && after == s.(nextRun := after.nextRun)
              && IsChain(c, fired)
              && if fired == [] then after == s
                 else fired[0] == s.nextRun.value && Follows(c, fired[|fired| - 1], after.nextRun)
  {
    hide AfterFiring, Follows, ReadSpec, Instant;
    if ticks != [] && ReadSpec(s.cron) == Ok(Some(c)) {
      var prior, t := ticks[..|ticks| - 1], ticks[|ticks| - 1];
      RecurringLife(s, prior, c);
      var (before, fired) := Life(s, prior);
      if FiresAt(before, t) {
        FiringMovesToNextMatch(before, t.now, c);
      }
    }
  }

  lemma FollowsIsLater(c: CronSpec, a: Time, b: Time)
    requires Follows(c, a, Some(b))
    ensures Instant(a) < Instant(b) && b == WholeMinute(b.at) && Matches(c, b.at)
    ensures forall q :: Valid(q) && Matches(c, q) && Instant(a) < Instant(WholeMinute(q)) <= Instant(b) ==>
              WholeMinute(q) == b
  {
    EarliestMatchIsEarliest(c, a);
    forall q | Valid(q) && Matches(c, q) && Instant(a) < Instant(WholeMinute(q)) <= Instant(b) ensures q == b.at {
      assert Eligible(c, a, q);
      StampOrder(b.at, q);
    }
  }

  ghost predicate StrictlyLater(f: seq<Time>) {
    forall i, j :: 0 <= i < j < |f| ==> Instant(f[i]) < Instant(f[j])
  }

  /** Every value but the first is a whole minute that matches. */
  ghost predicate FiresOnMatches(c: CronSpec, f: seq<Time>) {
    forall i :: 1 <= i < |f| ==> f[i] == WholeMinute(f[i].at) && Matches(c, f[i].at)
  }

  /** No match strictly between the two instants is missing from `f`. */
  ghost predicate MissesNone(c: CronSpec, from: int, to: int, f: seq<Time>) {
    forall q :: Valid(q) && Matches(c, q) && from < Instant(WholeMinute(q)) < to ==> WholeMinute(q) in f
  }

  lemma {:induction false} ChainIncreases(c: CronSpec, f: seq<Time>)
    requires IsChain(c, f)
    ensures StrictlyLater(f)
  {
    hide Instant, Matches, Follows, Valid;
    if |f| > 1 {
      var n := |f| - 1;
      ChainIncreases(c, f[..n]);
      FollowsIsLater(c, f[n - 1], f[n]);
    }
  }

  lemma ChainMatches(c: CronSpec, f: seq<Time>)
    requires IsChain(c, f)
    ensures FiresOnMatches(c, f)
  {
    hide Instant, Matches, Follows, Valid;
    forall i | 1 <= i < |f| ensures f[i] == WholeMinute(f[i].at) && Matches(c, f[i].at) {
      FollowsIsLater(c, f[i - 1], f[i]);
    }
  }

  /** The matches between the first value of a chain and the one that follows it are all in the chain. */
  lemma {:induction false} ChainMissesNone(c: CronSpec, f: seq<Time>, next: Time)
    requires f != [] && IsChain(c, f) && Follows(c, f[|f| - 1], Some(next))
    ensures MissesNone(c, Instant(f[0]), Instant(next), f)
  {
    var n := |f| - 1;
    FollowsIsLater(c, f[n], next);
    if n > 0 {
      ChainMissesNone(c, f[..n], f[n]);
      forall q | Valid(q) && Matches(c, q) && Instant(f[0]) < Instant(WholeMinute(q)) < Instant(next)
          ensures WholeMinute(q) in f {
        hide Instant, Matches, Valid;
        if Instant(WholeMinute(q)) < Instant(f[n]) {
          assert WholeMinute(q) in f[..n];
        } else if Instant(WholeMinute(q)) == Instant(f[n]) {
          SameInstant(q, f[n]);
        }
      }
    }
  }

  lemma {:induction false} SameInstant(q: DateTime, t: Time)
    requires Valid(q) && Instant(WholeMinute(q)) == Instant(t)
    ensures t == WholeMinute(q)
  {
    StampOrder(q, t.at);
  }

  /**
   Over any sequence of evaluations a recurring schedule fires for strictly increasing times: first
   its initial time, then cron matches with none skipped, up to the time it now waits for.  It stops
   waiting only when the 366 days after its last firing hold no match.
   */
  lemma {:induction false} RecurringEnumeratesMatches(s: Schedule, ticks: seq<Tick>, c: CronSpec)
    requires s.trigger == "recurring" && s.enabled && s.nextRun.Some?
    ensures ReadSpec(s.cron) == Ok(Some(c)) ==>
              var (after, fired) := Life(s, ticks);
              && StrictlyLater(fired) && FiresOnMatches(c, fired)
              && if fired == [] then after == s
                 else
                   && fired[0] == s.nextRun.value
                   && if after.nextRun.Some?
                      then MissesNone(c, Instant(fired[0]), Instant(after.nextRun.value), fired)
                      else IsEarliest(c, fired[|fired| - 1], None)
  {
    if ReadSpec(s.cron) == Ok(Some(c)) {
      RecurringLife(s, ticks, c);
      var (after, fired) := Life(s, ticks);
      ChainIncreases(c, fired);
      ChainMatches(c, fired);
      if fired != [] {
        if after.nextRun.Some? {
          ChainMissesNone(c, fired, after.nextRun.value);
        }
        EarliestMatchIsEarliest(c, fired[|fired| - 1]);
      }
    }
  }

  /** A deferred, immediate or unknown trigger fires at most once, and then never waits again. */
  lemma {:induction false} NonRecurringFiresOnce(s: Schedule, ticks: seq<Tick>)
    requires s.trigger != "recurring"
    ensures var (after, fired) := Life(s, ticks);
            && |fired| <= 1
            && if fired == [] then after == s else after == s.(enabled := false, nextRun := None)
  {
    if ticks != [] {
      NonRecurringFiresOnce(s, ticks[..|ticks| - 1]);
    }
  }

  /** A recurring schedule whose cron text raises never fires and is never changed. */
  lemma {:induction false} RaisingCronNeverFires(s: Schedule, ticks: seq<Tick>)
    ensures CronRaises(s) ==> Life(s, ticks) == (s, [])
  {
    hide ReadSpec;
    if ticks != [] {
      RaisingCronNeverFires(s, ticks[..|ticks| - 1]);
    }
  }

  /** A recurring schedule without five usable cron fields fires at most once, stays enabled and waits no more. */
  lemma {:induction false} EmptyCronFiresOnce(s: Schedule, ticks: seq<Tick>)
    requires s.trigger == "recurring" && (s.cron == "" || ReadSpec(s.cron) == Ok(None))
    ensures var (after, fired) := Life(s, ticks);
            && |fired| <= 1
            && if fired == [] then after == s else after == s.(nextRun := None)
  {
    hide ReadSpec;
    if ticks != [] {
      EmptyCronFiresOnce(s, ticks[..|ticks| - 1]);
    }
  }
}
