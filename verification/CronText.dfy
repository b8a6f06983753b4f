/**
 What crontab texts mean, without the reader: fields written as lists of terms, and the next time of a
 line made of such fields.
 */
module CronText {
  import opened Prelude
  import opened Calendar
  import opened CronSearch
  import CronField
  import Text

  type Stride = n: nat | n > 0 witness 1

  /** One part of a field as people write it. */
  datatype Term =
    | Star
    | Exactly(value: nat)
    | Through(first: nat, last: nat)
    | EveryNth(stride: Stride)
    | From(first: nat, stride: Stride)
    | ThroughBy(first: nat, last: nat, stride: Stride)

  // The six forms are *, a, a-b, */n, a/n and a-b/n.
  function Written(t: Term): string {
    match t
    case Star => "*"
    case Exactly(a) => Text.Decimal(a)
    case Through(a, b) => Text.Decimal(a) + "-" + Text.Decimal(b)
    case EveryNth(n) => "*" + "/" + Text.Decimal(n)
    case From(a, n) => Text.Decimal(a) + "/" + Text.Decimal(n)
    case ThroughBy(a, b, n) => Text.Decimal(a) + "-" + Text.Decimal(b) + "/" + Text.Decimal(n)
  }

  /** A value of a field that starts at `lo` is meant by the term. */
  predicate Denotes(t: Term, v: int, lo: int) {
    match t
    case Star => true
    case Exactly(a) => v == a
    case Through(a, b) => a <= v <= b
    case EveryNth(n) => (v - lo) % n == 0
    case From(a, n) => a <= v && (v - a) % n == 0
    case ThroughBy(a, b, n) => a <= v <= b && (v - a) % n == 0
  }

  // ---------- one term ----------

  function PartOf(t: Term, lo: int, hi: int): (p: CronField.CronPart)
    ensures CronField.WellFormed(p)
  {
    match t
    case Star => CronField.Every
    case Exactly(a) => CronField.Span(a, a, 1)
    case Through(a, b) => CronField.Span(a, b, 1)
    case EveryNth(n) => CronField.Span(lo, hi, n)
    case From(a, n) => CronField.Span(a, hi, n)
    case ThroughBy(a, b, n) => CronField.Span(a, b, n)
  }

  predicate Plain(w: string) {
    w != "" && forall c <- w :: Text.IsDigit(c) || c in "*-/"
  }

  lemma TermIsPlain(t: Term)
    ensures Plain(Written(t))
  {
  }

  lemma PlainIsStripped(w: string)
    requires Plain(w)
    ensures Text.Strip(w) == w
  {
    assert w[0] in w && w[|w| - 1] in w;
    Text.StripNothing(w);
  }

  lemma TermRead(t: Term, lo: int, hi: int)
    ensures CronField.ReadPart(Written(t), lo, hi) == Ok(PartOf(t, lo, hi))
  {
    TermIsPlain(t);
    PlainIsStripped(Written(t));
    if t.EveryNth? || t.From? || t.ThroughBy? {
      SteppedTermRead(t, lo, hi);
    } else {
      hide Text.Strip, Text.ParseInt, Text.Cut, Text.Decimal, Plain;
      match t {
        case Star =>
        case Exactly(a) => Text.ParseDecimal(a);
        case Through(a, b) => RangeRead(a, b);
      }
    }
  }

  lemma SteppedTermRead(t: Term, lo: int, hi: int)
    requires t.EveryNth? || t.From? || t.ThroughBy?
    requires Text.Strip(Written(t)) == Written(t)
    ensures CronField.ReadPart(Written(t), lo, hi) == Ok(PartOf(t, lo, hi))
  {
    hide Text.Strip, Text.ParseInt, Text.Cut, Text.Decimal;
    match t {
      case EveryNth(n) => StrideRead("*", n);
      case From(a, n) =>
        var d := Text.Decimal(a);
        assert '-' !in d && '*' !in d && d[0] in d;
        StrideRead(d, n);
        Text.ParseDecimal(a);
      case ThroughBy(a, b, n) =>
        RangeRead(a, b);
        StrideRead(Text.Decimal(a) + "-" + Text.Decimal(b), n);
    }
  }

  lemma StrideRead(range: string, n: nat)
    requires '/' !in range
    ensures var w := range + "/" + Text.Decimal(n);
            '/' in w && Text.Cut(w, '/') == (range, Text.Decimal(n)) && Text.ParseInt(Text.Decimal(n)) == Some(n)
  {
    Text.CutAt(range, '/', Text.Decimal(n));
    Text.ParseDecimal(n);
  }

  lemma RangeRead(a: nat, b: nat)
    ensures var w := Text.Decimal(a) + "-" + Text.Decimal(b);
            && '-' in w && '/' !in w && w != "*"
            && Text.Cut(w, '-') == (Text.Decimal(a), Text.Decimal(b))
            && Text.ParseInt(Text.Decimal(a)) == Some(a) && Text.ParseInt(Text.Decimal(b)) == Some(b)
  {
    Text.CutAt(Text.Decimal(a), '-', Text.Decimal(b));
    Text.ParseDecimal(a);
    Text.ParseDecimal(b);
  }

  lemma SpanMeaning(v: int, start: int, end: int, stride: Stride)
    ensures CronField.OnSpan(v, start, end, stride) <==> start <= v <= end && (v - start) % stride == 0
  {
    if start <= v && (v - start) % stride == 0 {
      assert v == CronField.At(start, stride, (v - start) / stride);
    }
    if CronField.OnSpan(v, start, end, stride) {
      var j :| j >= 0 && v == CronField.At(start, stride, j);
      MultipleHasNoRest(j, stride);
    }
  }

  lemma MultipleHasNoRest(j: nat, n: Stride)
    ensures j * n >= 0 && (j * n) % n == 0
  {
    var p := j * n;
    MultiplesAreApart(j, p / n, n);
    MultiplesAreApart(p / n, j, n);
  }

  lemma {:induction false} MultiplesAreApart(a: int, b: int, n: Stride)
    ensures a < b ==> a * n + n <= b * n
    decreases b - a
  {
    if a + 1 < b {
      MultiplesAreApart(a, b - 1, n);
    }
    assert b * n == (b - 1) * n + n;
  }

  lemma PartMeaning(t: Term, v: int, lo: int, hi: int)
    requires lo <= v <= hi
    ensures CronField.Selects(PartOf(t, lo, hi), v) <==> Denotes(t, v, lo)
  {
    match PartOf(t, lo, hi)
    case Every =>
    case Span(start, end, step) => SpanMeaning(v, start, end, step);
  }

  // ---------- a field ----------

  predicate Means(ts: seq<Term>, v: int, lo: int) {
    exists t <- ts :: Denotes(t, v, lo)
  }

  function Listed(ts: seq<Term>): string
    requires ts != []
  {
    if |ts| == 1 then Written(ts[0]) else Written(ts[0]) + "," + Listed(ts[1..])
  }

  /** The first part of a field adds what its term means. */
  lemma FirstTermAdds(t: Term, parts: seq<string>, rest: set<int>, lo: int, hi: int)
    requires CronField.FieldSet(parts, lo, hi) == Ok(rest) && forall v <- rest :: lo <= v <= hi
    ensures CronField.FieldSet([Written(t)] + parts, lo, hi) == Ok((set v | lo <= v <= hi && Denotes(t, v, lo)) + rest)
  {
    TermRead(t, lo, hi);
    var p := PartOf(t, lo, hi);
    var meant := set v | lo <= v <= hi && Denotes(t, v, lo);
    forall v | lo <= v <= hi ensures CronField.Selects(p, v) <==> Denotes(t, v, lo) {
      PartMeaning(t, v, lo, hi);
    }
    assert CronField.PartSet(p, lo, hi) == meant;
    assert ([Written(t)] + parts)[1..] == parts;
    assert t.Star? ==> meant + rest == meant;
    hide CronField.ReadPart, CronField.PartSet, Written, Denotes;
  }

  /** A field is never rejected, and holds the values in bounds that some term of its list means. */
  lemma {:induction false} FieldMeansItsTerms(ts: seq<Term>, lo: int, hi: int)
    requires ts != []
    ensures CronField.FieldSet(Text.Split(Listed(ts), ','), lo, hi) == Ok(set v | lo <= v <= hi && Means(ts, v, lo))
    decreases |ts|
  {
    var w, tail := Written(ts[0]), ts[1..];
    TermIsPlain(ts[0]);
    assert ts == [ts[0]] + tail;
    var rest := set v | lo <= v <= hi && Means(tail, v, lo);
    var parts := if tail == [] then [] else Text.Split(Listed(tail), ',');
    hide Written, Denotes, Text.Split;
    if tail == [] {
      Text.SplitWhole(w, ',');
      assert rest == {};
    } else {
      Text.SplitAt(w, ',', Listed(tail));
      FieldMeansItsTerms(tail, lo, hi);
    }
    assert Text.Split(Listed(ts), ',') == [w] + parts;
    FirstTermAdds(ts[0], parts, rest, lo, hi);
    assert (set v | lo <= v <= hi && Means(ts, v, lo)) == (set v | lo <= v <= hi && Denotes(ts[0], v, lo)) + rest;
  }

  // ---------- a line ----------

  type Field = ts: seq<Term> | ts != [] witness [Star]

  datatype Crontab = Crontab(minutes: Field, hours: Field, daysOfMonth: Field, months: Field, daysOfWeek: Field)

  function Line(c: Crontab): string {
    Listed(c.minutes) + " " + (Listed(c.hours) + " " + (Listed(c.daysOfMonth) + " "
    + (Listed(c.months) + " " + Listed(c.daysOfWeek))))
  }

  /** All five fields mean the minute; Monday is day 0 of the week. */
  predicate FallsOn(c: Crontab, t: DateTime)
    requires Valid(t)
  {
    && Means(c.minutes, t.minute, 0) && Means(c.hours, t.hour, 0) && Means(c.daysOfMonth, t.day, 1)
    && Means(c.months, t.month, 1) && Means(c.daysOfWeek, Weekday(t), 0)
  }

  /** A minute of the line after `after`, within 366 days of it. */
  predicate Comes(c: Crontab, after: Time, t: DateTime) {
    Valid(t) && Instant(after) < Instant(WholeMinute(t)) <= Instant(after) + HORIZON && FallsOn(c, t)
  }

  lemma {:induction false} ListedIsWord(ts: Field)
    ensures Listed(ts) != "" && forall c <- Listed(ts) :: !Text.IsSpace(c)
    decreases |ts|
  {
    TermIsPlain(ts[0]);
    hide Written;
    if |ts| > 1 {
      ListedIsWord(ts[1..]);
    }
  }

  lemma LineWords(c: Crontab)
    ensures Text.Words(Line(c))
            == [Listed(c.minutes), Listed(c.hours), Listed(c.daysOfMonth), Listed(c.months), Listed(c.daysOfWeek)]
  {
    ListedIsWord(c.minutes);
    ListedIsWord(c.hours);
    ListedIsWord(c.daysOfMonth);
    ListedIsWord(c.months);
    ListedIsWord(c.daysOfWeek);
    hide Listed, Text.Words;
    var four := Listed(c.months) + " " + Listed(c.daysOfWeek);
    var three := Listed(c.daysOfMonth) + " " + four;
    var two := Listed(c.hours) + " " + three;
    Text.OnlyWord(Listed(c.daysOfWeek));
    Text.FirstWord(Listed(c.months), Listed(c.daysOfWeek));
    Text.FirstWord(Listed(c.daysOfMonth), four);
    Text.FirstWord(Listed(c.hours), three);
    Text.FirstWord(Listed(c.minutes), two);
  }

  function Values(ts: Field, lo: int, hi: int): set<int> {
    set v | lo <= v <= hi && Means(ts, v, lo)
  }

  function SpecOf(c: Crontab): CronSpec {
    CronSpec(Values(c.minutes, 0, 59), Values(c.hours, 0, 23), Values(c.daysOfMonth, 1, 31),
             Values(c.months, 1, 12), Values(c.daysOfWeek, 0, 6))
  }

  lemma LineRead(c: Crontab)
    ensures ReadSpec(Line(c)) == Ok(None) || ReadSpec(Line(c)) == Ok(Some(SpecOf(c)))
    ensures ReadSpec(Line(c)) == Ok(None) ==>
              var s := SpecOf(c);
              s.minutes == {} || s.hours == {} || s.doms == {} || s.months == {} || s.dows == {}
  {
    LineWords(c);
    FieldMeansItsTerms(c.minutes, 0, 59);
    FieldMeansItsTerms(c.hours, 0, 23);
    FieldMeansItsTerms(c.daysOfMonth, 1, 31);
    FieldMeansItsTerms(c.months, 1, 12);
    FieldMeansItsTerms(c.daysOfWeek, 0, 6);
    hide Listed, Text.Words, Line, CronField.FieldSet, Text.Split, Means;
  }

  lemma EligibleIsComing(c: Crontab, after: Time, t: DateTime)
    ensures Eligible(SpecOf(c), after, t) <==> Comes(c, after, t)
  {
    if Valid(t) {
      assert Matches(SpecOf(c), t) <==> FallsOn(c, t) by {
        hide Means, Stamp, Weekday;
        WeekdayInRange(t);
      }
    }
    hide Means, Matches, FallsOn, SpecOf, Valid, Instant;
  }

  lemma WeekdayInRange(t: DateTime)
    requires Valid(t)
    ensures 0 <= Weekday(t) <= 6
  {
  }

  /** The next time of a line: the earliest minute that its fields mean, or none when none comes. */
  ghost predicate IsNextOf(c: Crontab, after: Time, r: Option<DateTime>) {
    match r
    case Some(t) => Comes(c, after, t) && forall q :: Comes(c, after, q) ==> AtOrBefore(t, q)
    case None => forall q :: !Comes(c, after, q)
  }

  /** A line made of such fields is never rejected, and `_next_cron_time` returns its next time. */
  lemma NextTimeOfLine(c: Crontab, after: Time)
    ensures var r := NextCronTimeSpec(Line(c), after);
            r.Ok? && IsNextOf(c, after, r.value)
  {
    LineRead(c);
    EarliestMatchIsEarliest(SpecOf(c), after);
    forall t ensures Eligible(SpecOf(c), after, t) <==> Comes(c, after, t) {
      EligibleIsComing(c, after, t);
    }
    hide Comes, EarliestMatch, Line, Listed, Instant;
    if ReadSpec(Line(c)) == Ok(None) {
      hide ReadSpec, Valid;
      assert forall t :: !Eligible(SpecOf(c), after, t);
    } else {
      hide ReadSpec, Eligible, SpecOf, AtOrBefore;
    }
  }

  // ---------- the line `m h * * a-b` ----------

  function WeekdayLine(m: nat, h: nat, a: nat, b: nat): string {
    Text.Decimal(m) + " " + (Text.Decimal(h) + " * * " + (Text.Decimal(a) + "-" + Text.Decimal(b)))
  }

  function WeekdayFields(m: nat, h: nat, a: nat, b: nat): Crontab {
    Crontab([Exactly(m)], [Exactly(h)], [Star], [Star], [Through(a, b)])
  }

  predicate OnWeekdays(m: nat, h: nat, a: nat, b: nat, after: Time, t: DateTime) {
    && Valid(t) && Instant(after) < Instant(WholeMinute(t)) <= Instant(after) + HORIZON
    && t.minute == m && t.hour == h && a <= Weekday(t) <= b
  }

  lemma OnWeekdaysIsComing(m: nat, h: nat, a: nat, b: nat, after: Time, t: DateTime)
    ensures Comes(WeekdayFields(m, h, a, b), after, t) <==> OnWeekdays(m, h, a, b, after, t)
  {
    hide Valid, Instant, Weekday;
    assert Star in [Star] && Exactly(m) in [Exactly(m)] && Exactly(h) in [Exactly(h)];
    assert Through(a, b) in [Through(a, b)];
  }

  lemma WeekdayLineIsWritten(m: nat, h: nat, a: nat, b: nat)
    ensures Line(WeekdayFields(m, h, a, b)) == WeekdayLine(m, h, a, b)
  {
    hide Text.Decimal;
    var hour, days := Text.Decimal(h), Text.Decimal(a) + "-" + Text.Decimal(b);
    assert hour + " " + ("*" + " " + ("*" + " " + days)) == hour + " * * " + days;
  }

  /** The next time is the next minute with that hour and minute on one of the days `a` to `b` of the week. */
  lemma NextTimeOnWeekdays(m: nat, h: nat, a: nat, b: nat, after: Time)
    ensures var r := NextCronTimeSpec(WeekdayLine(m, h, a, b), after);
            && r.Ok?
            && match r.value
               case Some(t) => OnWeekdays(m, h, a, b, after, t)
                               && forall q :: OnWeekdays(m, h, a, b, after, q) ==> AtOrBefore(t, q)
               case None => forall q :: !OnWeekdays(m, h, a, b, after, q)
  {
    NextTimeOfLine(WeekdayFields(m, h, a, b), after);
    WeekdayLineIsWritten(m, h, a, b);
    hide Line, WeekdayLine;
    forall t ensures Comes(WeekdayFields(m, h, a, b), after, t) <==> OnWeekdays(m, h, a, b, after, t) {
      OnWeekdaysIsComing(m, h, a, b, after, t);
    }
    hide Comes, OnWeekdays, NextCronTimeSpec, AtOrBefore, WeekdayFields;
  }
}
