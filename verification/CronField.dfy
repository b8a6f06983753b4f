/**
 `_parse_cron_field`: one field of a crontab line, read into the set of values it selects.

 The format is that of IEEE Std 1003.1-2017, "crontab", INPUT FILES, extended with step values.
 */
module CronField {
  import opened Prelude
  import opened Text

  /** What one comma-separated part of a field denotes. */
  datatype CronPart =
    | Every
    | Skipped
    | Span(start: int, end: int, step: int)

  function ReadPart(raw: string, lo: int, hi: int): Outcome<CronPart> {
    var part := Strip(raw);
    if '/' in part then
      var (rangePart, stepText) := Cut(part, '/');
      match ParseInt(stepText)
      case None => Ok(Skipped)
      case Some(step) =>
        if rangePart == "*" then SpanOf(Some(lo), Some(hi), step)
        else if '-' in rangePart then
          var (s, e) := Cut(rangePart, '-');
          SpanOf(ParseInt(s), ParseInt(e), step)
        else SpanOf(ParseInt(rangePart), Some(hi), step)
    else if part == "*" then Ok(Every)
    else if '-' in part then
      var (s, e) := Cut(part, '-');
      SpanOf(ParseInt(s), ParseInt(e), 1)
    else
      match ParseInt(part)
      case None => Ok(Skipped)
      case Some(v) => Ok(Span(v, v, 1))
  }

  /** `int` raises on malformed bounds, and `range` raises on a zero step. */
  function SpanOf(start: Option<int>, end: Option<int>, step: int): Outcome<CronPart> {
    if start.None? || end.None? || step == 0 then Raised
    else Ok(Span(start.value, end.value, step))
  }

  /** The values of `range(start, end + 1, step)`. */
  ghost predicate OnSpan(v: int, start: int, end: int, step: int) {
    InRange(v, end, step) && exists j :: j >= 0 && v == At(start, step, j)
  }

  predicate InRange(v: int, end: int, step: int) {
    if step > 0 then v <= end else v > end + 1
  }

  ghost function At(start: int, step: int, j: int): int {
    start + j * step
  }

  predicate WellFormed(p: CronPart) {
    p.Span? ==> p.step != 0
  }

  ghost predicate Selects(p: CronPart, v: int)
    requires WellFormed(p)
  {
    match p
    case Every => true
    case Skipped => false
    case Span(start, end, step) => OnSpan(v, start, end, step)
  }

  lemma ReadPartWellFormed(raw: string, lo: int, hi: int)
    ensures ReadPart(raw, lo, hi).Ok? ==> WellFormed(ReadPart(raw, lo, hi).value)
  {
  }

  ghost function PartSet(p: CronPart, lo: int, hi: int): set<int>
    requires WellFormed(p)
  {
    set v | lo <= v <= hi && Selects(p, v)
  }

  /** The field's value set; a bare `*` ends the reading, so later parts cannot raise. */
  ghost function FieldSet(parts: seq<string>, lo: int, hi: int): Outcome<set<int>> {
    if parts == [] then Ok({})
    else
      ReadPartWellFormed(parts[0], lo, hi);
      match ReadPart(parts[0], lo, hi)
      case Raised => Raised
      case Ok(Every) => Ok(PartSet(Every, lo, hi))
      case Ok(p) =>
        match FieldSet(parts[1..], lo, hi)
        case Raised => Raised
        case Ok(rest) => Ok(PartSet(p, lo, hi) + rest)
  }

  /** Index of the first part that ends the reading: a bare `*` or one that raises. */
  function StopIndex(parts: seq<string>, lo: int, hi: int): (n: nat)
    ensures n <= |parts|
  {
    if parts == [] then 0
    else
      var p := ReadPart(parts[0], lo, hi);
      if p.Raised? || p.value.Every? then 0 else 1 + StopIndex(parts[1..], lo, hi)
  }

  ghost predicate SelectedBy(raw: string, v: int, lo: int, hi: int) {
    var p := ReadPart(raw, lo, hi);
    ReadPartWellFormed(raw, lo, hi);
    p.Ok? && Selects(p.value, v)
  }

  /**
   The field raises exactly when its deciding part does; otherwise it holds exactly the in-range
   values that some part up to the deciding one selects.
   */
  lemma FieldMeaning(parts: seq<string>, lo: int, hi: int)
    ensures var n := StopIndex(parts, lo, hi);
            var f := FieldSet(parts, lo, hi);
            && (f.Raised? <==> n < |parts| && ReadPart(parts[n], lo, hi).Raised?)
            && (f.Ok? ==> forall v ::
                  v in f.value <==>
                    lo <= v <= hi && exists i :: 0 <= i <= n && i < |parts| && SelectedBy(parts[i], v, lo, hi))
  {
    FieldRaises(parts, lo, hi);
    if FieldSet(parts, lo, hi).Ok? {
      forall v {
        ValueSelected(parts, lo, hi, v);
      }
    }
  }

  lemma {:induction false} FieldRaises(parts: seq<string>, lo: int, hi: int)
    ensures var n := StopIndex(parts, lo, hi);
            FieldSet(parts, lo, hi).Raised? <==> n < |parts| && ReadPart(parts[n], lo, hi).Raised?
  {
    if parts != [] {
      FieldRaises(parts[1..], lo, hi);
    }
  }

  lemma {:induction false} ValueSelected(parts: seq<string>, lo: int, hi: int, v: int)
    requires FieldSet(parts, lo, hi).Ok?
    ensures v in FieldSet(parts, lo, hi).value <==>
            lo <= v <= hi && exists i :: 0 <= i <= StopIndex(parts, lo, hi) && i < |parts|
                               && SelectedBy(parts[i], v, lo, hi)
  {
    if parts != [] {
      ReadPartWellFormed(parts[0], lo, hi);
      var p := ReadPart(parts[0], lo, hi).value;
      var tail, n := parts[1..], StopIndex(parts, lo, hi);
      assert v in PartSet(p, lo, hi) <==> lo <= v <= hi && SelectedBy(parts[0], v, lo, hi);
      if !p.Every? {
        ValueSelected(tail, lo, hi, v);
        assert forall i :: 0 <= i < |tail| ==> tail[i] == parts[i + 1];
        if i :| 0 < i <= n && i < |parts| && SelectedBy(parts[i], v, lo, hi) {
          assert SelectedBy(tail[i - 1], v, lo, hi);
        }
      }
    }
  }

  /** `_parse_cron_field`, with its loops. */
  method ParseCronField(spec: string, lo: int, hi: int) returns (r: Outcome<set<int>>)
    ensures r == FieldSet(Split(spec, ','), lo, hi)
  {
    var parts := Split(spec, ',');
    assert parts[0..] == parts;
    var result: set<int> := {};
    ghost var all := FieldSet(parts, lo, hi);
    assert all.Ok? ==> result + all.value == all.value;
    for i := 0 to |parts|
      invariant FieldSet(parts, lo, hi) == Join(result, FieldSet(parts[i..], lo, hi))
      invariant forall v <- result :: lo <= v <= hi
    {
      assert parts[i..][1..] == parts[i + 1..];
      ReadPartWellFormed(parts[i], lo, hi);
      var part := ReadPart(parts[i], lo, hi);
      ghost var rest := FieldSet(parts[i + 1..], lo, hi);
      match part {
        case Raised => return Raised;
        case Ok(Every) =>
          EveryIsFullSpan(lo, hi);
          assert result + PartSet(Every, lo, hi) == PartSet(Every, lo, hi);
          result := CollectSpan(lo, hi, 1, lo, hi);
          return Ok(result);
        case Ok(Skipped) =>
          assert rest.Ok? ==> PartSet(Skipped, lo, hi) + rest.value == rest.value;
        case Ok(Span(start, end, step)) =>
          var added := CollectSpan(start, end, step, lo, hi);
          assert rest.Ok? ==> result + (added + rest.value) == (result + added) + rest.value;
          result := result + added;
      }
    }
    return Ok(result);
  }

  ghost function Join(have: set<int>, rest: Outcome<set<int>>): Outcome<set<int>> {
    if rest.Raised? then Raised else Ok(have + rest.value)
  }

  /** `for v in range(start, end + 1, step)`, keeping the values in bounds. */
  method CollectSpan(start: int, end: int, step: int, lo: int, hi: int) returns (result: set<int>)
    requires step != 0
    ensures result == PartSet(Span(start, end, step), lo, hi)
  {
    result := {};
    var v := start;
    ghost var k := 0;
    while InRange(v, end, step)
      invariant k >= 0 && v == start + k * step
      invariant k > 0 ==> InRange(start + (k - 1) * step, end, step)
      invariant forall w :: w in result <==> lo <= w <= hi && Visited(w, start, step, k)
      decreases if step > 0 then end - v else v - end
    {
      if lo <= v <= hi {
        result := result + {v};
      }
      VisitedStep(start, step, k);
      v := v + step;
      k := k + 1;
    }
    VisitedIsSpan(start, end, step, k);
  }

  lemma EveryIsFullSpan(lo: int, hi: int)
    ensures PartSet(Span(lo, hi, 1), lo, hi) == PartSet(Every, lo, hi)
  {
    forall v | lo <= v <= hi ensures OnSpan(v, lo, hi, 1) {
      assert v == At(lo, 1, v - lo);
    }
  }

  ghost predicate Visited(w: int, start: int, step: int, k: int) {
    exists j :: 0 <= j < k && w == At(start, step, j)
  }

  lemma VisitedStep(start: int, step: int, k: int)
    requires k >= 0
    ensures forall w :: Visited(w, start, step, k + 1) <==> Visited(w, start, step, k) || w == start + k * step
  {
    assert At(start, step, k) == start + k * step;
    forall w | Visited(w, start, step, k) ensures Visited(w, start, step, k + 1) {
      var j :| 0 <= j < k && w == At(start, step, j);
      assert 0 <= j < k + 1;
    }
  }

  /** Once the loop has passed its bound, the visited values are the whole range. */
  lemma VisitedIsSpan(start: int, end: int, step: int, k: int)
    requires step != 0 && k >= 0
    requires !InRange(start + k * step, end, step)
    requires k > 0 ==> InRange(start + (k - 1) * step, end, step)
    ensures forall w :: Visited(w, start, step, k) <==> OnSpan(w, start, end, step)
  {
    forall w ensures Visited(w, start, step, k) <==> OnSpan(w, start, end, step) {
      if Visited(w, start, step, k) {
        var j :| 0 <= j < k && w == At(start, step, j);
        StepsAreMonotone(step, j, k - 1);
      }
      if OnSpan(w, start, end, step) {
        var j :| j >= 0 && w == At(start, step, j);
        if k <= j { StepsAreMonotone(step, k, j); }
      }
    }
  }

  lemma StepsAreMonotone(step: int, j: int, k: int)
    requires j <= k
    ensures if step > 0 then j * step <= k * step else j * step >= k * step
  {
    if step > 0 { assert (k - j) * step >= 0; } else { assert (k - j) * -step >= 0; }
  }
}
