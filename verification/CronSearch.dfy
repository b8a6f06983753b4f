/**
 `_next_cron_time` and `_advance_to_next_month`: the search that jumps over whole months, days and
 hours, proved equal to the search that looks at every minute.
 */
module CronSearch {
  import opened Prelude
  import opened Calendar
  import Text
  import CronField

  datatype CronSpec = CronSpec(minutes: set<int>, hours: set<int>, doms: set<int>, months: set<int>, dows: set<int>)

  /** A `datetime` in full: a minute and the offset inside it. */
  datatype Moment = Moment(at: DateTime, second: int, micro: int)

  predicate ValidMoment(m: Moment) {
    Valid(m.at) && 0 <= m.second < 60 && 0 <= m.micro < 1_000_000
  }

  type Time = m: Moment | ValidMoment(m) witness Moment(DateTime(1, 1, 1, 0, 0), 0, 0)

  /** Microseconds since 0001-01-01. */
  function Instant(m: Moment): int
    requires ValidMoment(m)
  {
    (Stamp(m.at) * 60 + m.second) * 1_000_000 + m.micro
  }

  function WholeMinute(t: DateTime): Moment {
    Moment(t, 0, 0)
  }

  const HORIZON: int := 366 * 24 * 60 * 60 * 1_000_000

  /** Day of month and day of week must both match, and Monday is 0. */
  predicate Matches(c: CronSpec, t: DateTime)
    requires Valid(t)
  {
    t.month in c.months && t.day in c.doms && Weekday(t) in c.dows && t.hour in c.hours && t.minute in c.minutes
  }

  /** A whole minute strictly after `after`, within 366 days of it, that matches. */
  predicate Eligible(c: CronSpec, after: Moment, t: DateTime)
    requires ValidMoment(after)
  {
    Valid(t) && Instant(after) < Instant(WholeMinute(t)) <= Instant(after) + HORIZON && Matches(c, t)
  }

  /** `r` is the earliest eligible minute, or there is none. */
  ghost predicate IsEarliest(c: CronSpec, after: Moment, r: Option<DateTime>)
    requires ValidMoment(after)
  {
    match r
    case Some(t) => Eligible(c, after, t) && forall q :: Eligible(c, after, q) ==> AtOrBefore(t, q)
    case None => forall q :: !Eligible(c, after, q)
  }

  // ---------- the specification: look at every minute ----------

  function MinuteScan(c: CronSpec, t: DateTime, limit: int): (r: Option<DateTime>)
    requires Valid(t)
    ensures r.Some? ==> Valid(r.value)
    decreases limit - Instant(WholeMinute(t))
  {
    if Instant(WholeMinute(t)) > limit then None
    else if Matches(c, t) then Some(t)
    else
      StepsAreExact(t);
      MinuteScan(c, NextMinute(t), limit)
  }

  function EarliestMatch(c: CronSpec, after: Moment): (r: Option<DateTime>)
    requires ValidMoment(after)
    ensures r.Some? ==> Valid(r.value)
  {
    MinuteScan(c, NextMinute(after.at), Instant(after) + HORIZON)
  }

  lemma NoMinuteBetween(t: DateTime, q: DateTime)
    requires Valid(t) && Valid(q) && Before(t, q)
    ensures AtOrBefore(NextMinute(t), q)
  {
    StepsAreExact(t);
    StampOrder(t, q);
    StampOrder(NextMinute(t), q);
    StampOrder(q, NextMinute(t));
  }

  lemma BeforeIsTotal(a: DateTime, b: DateTime)
    ensures a == b || Before(a, b) || Before(b, a)
    ensures !(Before(a, b) && AtOrBefore(b, a))
  {
  }

  lemma {:induction false} MinuteScanIsEarliest(c: CronSpec, t: DateTime, limit: int)
    requires Valid(t)
    ensures var r := MinuteScan(c, t, limit);
            match r
            case Some(s) => && Valid(s) && AtOrBefore(t, s) && Instant(WholeMinute(s)) <= limit && Matches(c, s)
                            && forall q :: Valid(q) && AtOrBefore(t, q) && Before(q, s) ==> !Matches(c, q)
            case None => forall q :: Valid(q) && AtOrBefore(t, q) && Instant(WholeMinute(q)) <= limit ==> !Matches(c, q)
    decreases limit - Instant(WholeMinute(t))
  {
    if Instant(WholeMinute(t)) > limit {
      forall q | Valid(q) && AtOrBefore(t, q) ensures Instant(WholeMinute(q)) > limit {
        StampOrder(t, q);
      }
    } else if !Matches(c, t) {
      StepsAreExact(t);
      StampOrder(t, NextMinute(t));
      MinuteScanIsEarliest(c, NextMinute(t), limit);
      forall q | Valid(q) && AtOrBefore(t, q) && q != t ensures AtOrBefore(NextMinute(t), q) {
        NoMinuteBetween(t, q);
      }
    }
  }

  /** An instant lies strictly after `after` exactly when it is at or past the next whole minute. */
  lemma AfterMeansNextMinute(after: Moment, q: DateTime)
    requires ValidMoment(after) && Valid(q)
    ensures Instant(after) < Instant(WholeMinute(q)) <==> AtOrBefore(NextMinute(after.at), q)
  {
    StepsAreExact(after.at);
    StampOrder(NextMinute(after.at), q);
  }

  /** The minute-by-minute scan meets the declarative specification. */
  lemma EarliestMatchIsEarliest(c: CronSpec, after: Moment)
    requires ValidMoment(after)
    ensures IsEarliest(c, after, EarliestMatch(c, after))
  {
    MinuteScanIsEarliest(c, NextMinute(after.at), Instant(after) + HORIZON);
    forall q | Valid(q)
      ensures Instant(after) < Instant(WholeMinute(q)) <==> AtOrBefore(NextMinute(after.at), q)
    {
      AfterMeansNextMinute(after, q);
    }
    ScanMeetsDeclaration(c, after, EarliestMatch(c, after));
  }

  lemma ScanMeetsDeclaration(c: CronSpec, after: Moment, r: Option<DateTime>)
    requires ValidMoment(after)
    requires forall q :: Valid(q) ==>
               (Instant(after) < Instant(WholeMinute(q)) <==> AtOrBefore(NextMinute(after.at), q))
    requires var first := NextMinute(after.at);
             var limit := Instant(after) + HORIZON;
             match r
             case Some(s) => && Valid(s) && AtOrBefore(first, s) && Instant(WholeMinute(s)) <= limit && Matches(c, s)
                             && forall q :: Valid(q) && AtOrBefore(first, q) && Before(q, s) ==> !Matches(c, q)
             case None => forall q :: Valid(q) && AtOrBefore(first, q) && Instant(WholeMinute(q)) <= limit ==>
                            !Matches(c, q)
    ensures IsEarliest(c, after, r)
  {
    if r.Some? {
      forall q | Eligible(c, after, q) ensures AtOrBefore(r.value, q) {
        BeforeIsTotal(r.value, q);
      }
    }
  }

  lemma EarliestIsUnique(c: CronSpec, after: Moment, r: Option<DateTime>, s: Option<DateTime>)
    requires ValidMoment(after) && IsEarliest(c, after, r) && IsEarliest(c, after, s)
    ensures r == s
  {
    if r.Some? && s.Some? {
      BeforeIsTotal(r.value, s.value);
    }
  }

  // ---------- the jumps ----------

  /** Every minute from `from` up to but not including `to` fails to match. */
  ghost predicate SkipsNothing(c: CronSpec, from: DateTime, to: DateTime) {
    forall q :: Valid(q) && AtOrBefore(from, q) && Before(q, to) ==> !Matches(c, q)
  }

  lemma MinuteJump(c: CronSpec, t: DateTime)
    requires Valid(t) && t.minute !in c.minutes
    ensures SkipsNothing(c, t, NextMinute(t)) && Before(t, NextMinute(t))
  {
    forall q | Valid(q) && AtOrBefore(t, q) && Before(q, NextMinute(t)) ensures q == t {
      if Before(t, q) { NoMinuteBetween(t, q); }
    }
  }

  lemma HourJump(c: CronSpec, t: DateTime)
    requires Valid(t) && t.hour !in c.hours
    ensures SkipsNothing(c, t, NextHour(t)) && Before(t, NextHour(t))
  {
  }

  lemma DayJump(c: CronSpec, t: DateTime)
    requires Valid(t) && (t.day !in c.doms || Weekday(t) !in c.dows)
    ensures SkipsNothing(c, t, NextDay(t)) && Before(t, NextDay(t))
  {
    forall q | Valid(q) && AtOrBefore(t, q) && Before(q, NextDay(t))
      ensures q.year == t.year && q.month == t.month && q.day == t.day
    {
    }
  }

  lemma MonthJump(c: CronSpec, t: DateTime, r: DateTime)
    requires Valid(t) && Valid(r) && t.month !in c.months
    requires r.day == 1 && r.hour == 0 && r.minute == 0 && MonthIndex(t) < MonthIndex(r)
    requires forall i :: MonthIndex(t) < i < MonthIndex(r) ==> MonthOfIndex(i) !in c.months
    ensures SkipsNothing(c, t, r) && Before(t, r)
  {
    forall q | Valid(q) && AtOrBefore(t, q) && Before(q, r) ensures q.month !in c.months {
      assert MonthIndex(t) <= MonthIndex(q) < MonthIndex(r);
      assert MonthOfIndex(MonthIndex(q)) == q.month;
    }
  }

  function MonthOfIndex(i: int): int {
    i % 12 + 1
  }

  /**
   `_advance_to_next_month`: the first day of the next month in the set.  A non-empty set of real
   months is met within twelve steps, so the source's final fallback is dead code.
   */
  method AdvanceToNextMonth(t: DateTime, months: set<int>) returns (r: DateTime)
    requires Valid(t)
    requires months != {} && forall m <- months :: 1 <= m <= 12
    ensures Valid(r) && r.day == 1 && r.hour == 0 && r.minute == 0 && r.month in months
    ensures MonthIndex(t) < MonthIndex(r) <= MonthIndex(t) + 12
    ensures forall i :: MonthIndex(t) < i < MonthIndex(r) ==> MonthOfIndex(i) !in months
  {
    r := DateTime(t.year, t.month, 1, 0, 0);
    for i := 0 to 13
      invariant Valid(r) && r.day == 1 && r.hour == 0 && r.minute == 0
      invariant MonthIndex(r) == MonthIndex(t) + i
      invariant forall j :: MonthIndex(t) < j <= MonthIndex(r) ==> MonthOfIndex(j) !in months
    {
      NextMonthIndex(r);
      r := FirstOfNextMonth(r);
      if r.month in months {
        var first := MonthIndex(t) + 1;
        if i >= 12 {
          SomeMonthWithinTwelve(first, months);
        }
        return;
      }
    }
    SomeMonthWithinTwelve(MonthIndex(t) + 1, months);
    assert false;
  }

  lemma NextMonthIndex(t: DateTime)
    requires Valid(t)
    ensures var n := FirstOfNextMonth(t);
            MonthIndex(n) == MonthIndex(t) + 1 && MonthOfIndex(MonthIndex(n)) == n.month
  {
    var n := FirstOfNextMonth(t);
    assert MonthIndex(n) == n.year * 12 + (n.month - 1);
  }

  lemma SomeMonthWithinTwelve(first: int, months: set<int>)
    requires months != {} && forall m <- months :: 1 <= m <= 12
    ensures exists j :: first <= j < first + 12 && MonthOfIndex(j) in months
  {
    var m := SomeElement(months);
    TwelveMonthsCoverAll(first, m);
  }

  lemma TwelveMonthsCoverAll(first: int, m: int)
    requires 1 <= m <= 12
    ensures exists j :: first <= j < first + 12 && MonthOfIndex(j) == m
  {
    var j := first + (m - 1 - first) % 12;
    assert MonthOfIndex(j) == m;
  }

  /** The five non-matching branches of the search loop: the first failing field decides how far to jump. */
  method Jump(c: CronSpec, candidate: DateTime) returns (next: DateTime)
    requires Valid(candidate) && !Matches(c, candidate)
    requires c.months != {} && forall m <- c.months :: 1 <= m <= 12
    ensures Valid(next) && Before(candidate, next)
    ensures SkipsNothing(c, candidate, next)
  {
    if candidate.month !in c.months {
      next := AdvanceToNextMonth(candidate, c.months);
      MonthJump(c, candidate, next);
    } else if candidate.day !in c.doms {
      next := NextDay(candidate);
      DayJump(c, candidate);
    } else if Weekday(candidate) !in c.dows {
      next := NextDay(candidate);
      DayJump(c, candidate);
    } else if candidate.hour !in c.hours {
      next := NextHour(candidate);
      HourJump(c, candidate);
    } else {
      next := NextMinute(candidate);
      MinuteJump(c, candidate);
    }
  }

  /** The search loop of `_next_cron_time` over already parsed fields. */
  method SearchNext(c: CronSpec, after: Moment) returns (r: Option<DateTime>)
    requires ValidMoment(after)
    requires c.months != {} && forall m <- c.months :: 1 <= m <= 12
    ensures r == EarliestMatch(c, after)
  {
    var first := NextMinute(after.at);
    var candidate := first;
    var limit := Instant(after) + HORIZON;
    EarliestMatchIsEarliest(c, after);
    while Instant(WholeMinute(candidate)) <= limit
      invariant Valid(candidate) && AtOrBefore(first, candidate)
      invariant SkipsNothing(c, first, candidate)
      decreases limit - Instant(WholeMinute(candidate))
    {
      if Matches(c, candidate) {
        FoundIsEarliest(c, after, candidate);
        EarliestIsUnique(c, after, Some(candidate), EarliestMatch(c, after));
        return Some(candidate);
      }
      var next := Jump(c, candidate);
      StampOrder(candidate, next);
      SkipsCompose(c, first, candidate, next);
      candidate := next;
    }
    ExhaustedIsEarliest(c, after, candidate);
    EarliestIsUnique(c, after, None, EarliestMatch(c, after));
    return None;
  }

  lemma SkipsCompose(c: CronSpec, a: DateTime, b: DateTime, d: DateTime)
    requires SkipsNothing(c, a, b) && SkipsNothing(c, b, d)
    ensures SkipsNothing(c, a, d)
  {
    forall q | Valid(q) && AtOrBefore(a, q) && Before(q, d) ensures !Matches(c, q) {
      BeforeIsTotal(q, b);
    }
  }

  lemma FoundIsEarliest(c: CronSpec, after: Moment, t: DateTime)
    requires ValidMoment(after) && Valid(t) && Matches(c, t)
    requires AtOrBefore(NextMinute(after.at), t) && SkipsNothing(c, NextMinute(after.at), t)
    requires Instant(WholeMinute(t)) <= Instant(after) + HORIZON
    ensures IsEarliest(c, after, Some(t))
  {
    AfterMeansNextMinute(after, t);
    forall q | Eligible(c, after, q) ensures AtOrBefore(t, q) {
      AfterMeansNextMinute(after, q);
      BeforeIsTotal(t, q);
    }
  }

  lemma {:induction false} ExhaustedIsEarliest(c: CronSpec, after: Moment, t: DateTime)
    requires ValidMoment(after) && Valid(t)
    requires SkipsNothing(c, NextMinute(after.at), t)
    requires Instant(WholeMinute(t)) > Instant(after) + HORIZON
    ensures IsEarliest(c, after, None)
  {
    forall q ensures !Eligible(c, after, q) {
      if Eligible(c, after, q) {
        AfterMeansNextMinute(after, q);
        StampOrder(q, t);
      }
    }
  }

  // ---------- the whole function, from the crontab text ----------

  /** The five parsed fields; `Ok(None)` when the text does not have five words or a field is empty. */
  ghost function ReadSpec(expression: string): Outcome<Option<CronSpec>> {
    var w := Text.Words(expression);
    if |w| != 5 then Ok(None)
    else
      var minutes := CronField.FieldSet(Text.Split(w[0], ','), 0, 59);
      var hours := CronField.FieldSet(Text.Split(w[1], ','), 0, 23);
      var doms := CronField.FieldSet(Text.Split(w[2], ','), 1, 31);
      var months := CronField.FieldSet(Text.Split(w[3], ','), 1, 12);
      var dows := CronField.FieldSet(Text.Split(w[4], ','), 0, 6);
      if minutes.Raised? || hours.Raised? || doms.Raised? || months.Raised? || dows.Raised? then Raised
      else if minutes.value == {} || hours.value == {} || doms.value == {} || months.value == {} || dows.value == {}
           then Ok(None)
      else Ok(Some(CronSpec(minutes.value, hours.value, doms.value, months.value, dows.value)))
  }

  ghost function NextCronTimeSpec(expression: string, after: Moment): Outcome<Option<DateTime>>
    requires ValidMoment(after)
  {
    match ReadSpec(expression)
    case Raised => Raised
    case Ok(None) => Ok(None)
    case Ok(Some(c)) => Ok(EarliestMatch(c, after))
  }

  /** `_next_cron_time` */
  method NextCronTime(expression: string, after: Moment) returns (r: Outcome<Option<DateTime>>)
    requires ValidMoment(after)
    ensures r == NextCronTimeSpec(expression, after)
  {
    var w := Text.Words(expression);
    if |w| != 5 { return Ok(None); }
    var minutes := CronField.ParseCronField(w[0], 0, 59);
    if minutes.Raised? { return Raised; }
    var hours := CronField.ParseCronField(w[1], 0, 23);
    if hours.Raised? { return Raised; }
    var doms := CronField.ParseCronField(w[2], 1, 31);
    if doms.Raised? { return Raised; }
    var months := CronField.ParseCronField(w[3], 1, 12);
    if months.Raised? { return Raised; }
    var dows := CronField.ParseCronField(w[4], 0, 6);
    if dows.Raised? { return Raised; }
    if minutes.value == {} || hours.value == {} || doms.value == {} || months.value == {} || dows.value == {} {
      return Ok(None);
    }
    CronField.FieldMeaning(Text.Split(w[3], ','), 1, 12);
    var next := SearchNext(CronSpec(minutes.value, hours.value, doms.value, months.value, dows.value), after);
    return Ok(next);
  }

  /** `* * * * *` selects every minute: the next time is the next whole minute. */
  lemma {:induction false} StarsMatchEveryMinute(after: Moment)
    requires ValidMoment(after)
    ensures NextCronTimeSpec("* * * * *", after) == Ok(Some(NextMinute(after.at)))
  {
    StarWords();
    hide Text.Words;
    StarField(0, 59);
    StarField(0, 23);
    StarField(1, 31);
    StarField(1, 12);
    StarField(0, 6);
    hide CronField.FieldSet, Text.Split;
    var c := ReadSpec("* * * * *").value.value;
    hide ReadSpec;
    NextMinuteIsEarliest(c, after);
  }

  lemma NextMinuteIsEarliest(c: CronSpec, after: Moment)
    requires ValidMoment(after) && forall t :: Valid(t) ==> Matches(c, t)
    ensures EarliestMatch(c, after) == Some(NextMinute(after.at))
  {
    var first := NextMinute(after.at);
    hide Matches, Valid;
    EarliestMatchIsEarliest(c, after);
    AfterMeansNextMinute(after, first);
    FoundIsEarliest(c, after, first);
    EarliestIsUnique(c, after, EarliestMatch(c, after), Some(first));
  }

  lemma {:induction false} StarWords()
    ensures Text.Words("* * * * *") == ["*", "*", "*", "*", "*"]
  {
    hide Text.Words;
    FourStars();
    Text.FirstWord("*", "* * * *");
    assert "*" + " " + "* * * *" == "* * * * *";
  }

  lemma {:induction false} FourStars()
    ensures Text.Words("* * * *") == ["*", "*", "*", "*"]
  {
    hide Text.Words;
    Text.FirstWord("*", "* * *");
    Text.FirstWord("*", "* *");
    Text.FirstWord("*", "*");
    Text.OnlyWord("*");
    assert "*" + " " + "* * *" == "* * * *" && "*" + " " + "* *" == "* * *" && "*" + " " + "*" == "* *";
  }

  lemma StarField(lo: int, hi: int)
    requires lo <= hi
    ensures CronField.FieldSet(Text.Split("*", ','), lo, hi) == Ok(CronField.PartSet(CronField.Every, lo, hi))
    ensures lo in CronField.PartSet(CronField.Every, lo, hi)
  {
    assert Text.Split("*", ',') == ["*"];
    assert Text.Strip("*") == "*";
    assert CronField.ReadPart("*", lo, hi) == Ok(CronField.Every);
  }

  /** A zero step makes the whole text raise. */
  lemma {:induction false} ZeroStepRaises()
    ensures ReadSpec("*/0 * * * *").Raised?
  {
    ZeroStepWords();
    hide Text.Words;
    var part := "*/0";
    assert Text.Split(part, ',') == [part];
    assert Text.Strip(part) == part;
    assert Text.IndexOf(part, '/') == 1 by {
      assert part[0] == '*' && part[1] == '/';
      assert forall k :: 1 < k <= 3 ==> part[..k][1] == '/';
    }
    assert part[..1] == "*" && part[2..] == "0";
    assert Text.Cut(part, '/') == ("*", "0");
    assert Text.ParseInt("0") == Some(0);
    assert CronField.ReadPart(part, 0, 59).Raised?;
  }

  lemma {:induction false} ZeroStepWords()
    ensures Text.Words("*/0 * * * *") == ["*/0", "*", "*", "*", "*"]
  {
    hide Text.Words;
    FourStars();
    Text.FirstWord("*/0", "* * * *");
    assert "*/0" + " " + "* * * *" == "*/0 * * * *";
  }
}
