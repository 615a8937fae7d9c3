/**
 * The metric aggregation service: for every day of a period, the metrics
 * in that day's group (same hour, day, week number or month), summed,
 * averaged and bounded, as aggregated-metric objects; days whose group is
 * empty are dropped, and the other days keep their position in the period.
 *
 * The database query and Carbon's calendar are inputs here: the period is
 * the sequence of its days and every date comes with its calendar fields.
 */
module MetricAggregation {
  import opened Wrappers
  import opened Values
  import opened Numerals
  import opened AggregatedMetricDto

  const DefaultGroupBy: string := "daily"

  /** A moment as Carbon reads it: calendar fields and the week of the year. */
  datatype Stamp = Stamp(year: nat, month: nat, day: nat, hour: nat, weekOfYear: nat)

  /** A date Carbon can produce, with a four-digit year. */
  predicate ValidStamp(s: Stamp) {
    s.year < 10000 && 1 <= s.month <= 12 && 1 <= s.day <= 31 && s.hour < 24
  }

  /** A fetched metric: its value (cast to float) and its creation time. */
  datatype Metric = Metric(value: real, createdAt: Stamp)

  /** `format('Y-m')`. */
  function MonthText(s: Stamp): string {
    Padded(s.year, 4) + "-" + Padded(s.month, 2)
  }

  /** `format('Y-m-d')`. */
  function DateText(s: Stamp): string {
    MonthText(s) + "-" + Padded(s.day, 2)
  }

  /** `format('Y-m-d H')`. */
  function HourText(s: Stamp): string {
    DateText(s) + " " + Padded(s.hour, 2)
  }

  predicate KnownGrouping(groupBy: string) {
    groupBy == "hourly" || groupBy == "daily" || groupBy == "weekly" || groupBy == "monthly"
  }

  /** The arms of the `match($groupBy)`: whether a metric made at `m` belongs to the group of `date`. */
  predicate InGroup(groupBy: string, m: Stamp, date: Stamp) {
    if groupBy == "hourly" then HourText(m) == HourText(date)
    else if groupBy == "daily" then DateText(m) == DateText(date)
    else if groupBy == "weekly" then m.weekOfYear == date.weekOfYear
    else if groupBy == "monthly" then MonthText(m) == MonthText(date)
    else false
  }

  function UnknownGroupBy(groupBy: string): Thrown {
    Thrown(InvalidArgument, "Невідомий тип групування: " + groupBy, 0)
  }

  /** The `match` itself: the arm's comparison, or the exception for an unknown grouping. */
  function SameGroup(groupBy: string, m: Stamp, date: Stamp): Result<bool, Thrown> {
    if KnownGrouping(groupBy) then Success(InGroup(groupBy, m, date)) else Failure(UnknownGroupBy(groupBy))
  }

  /**
   * `filterMetricsForPeriod($metrics, $date, $groupBy)`: the metrics in the
   * group of `date`, in their order; the callback throws on the first
   * metric it tests when the grouping is unknown.
   */
  function FilterMetricsForPeriod(metrics: seq<Metric>, date: Stamp, groupBy: string): (r: Result<seq<Metric>, Thrown>)
    ensures r.Failure? <==> |metrics| > 0 && !KnownGrouping(groupBy)
    ensures r.Failure? ==> r.error == UnknownGroupBy(groupBy)
  {
    if metrics == [] then Success([])
    else
      var init, last := metrics[..|metrics| - 1], metrics[|metrics| - 1];
      assert metrics == init + [last];
      match FilterMetricsForPeriod(init, date, groupBy)
      case Failure(e) => Failure(e)
      case Success(kept) =>
        match SameGroup(groupBy, last.createdAt, date)
        case Failure(e) => Failure(e)
        case Success(keep) => Success(kept + if keep then [last] else [])
  }

  /**
   * The filter keeps exactly the metrics in the group of `date`, each as
   * often as it was fetched.
   */
  lemma {:induction false} FilterSelectsGroup(metrics: seq<Metric>, date: Stamp, groupBy: string)
    requires FilterMetricsForPeriod(metrics, date, groupBy).Success?
    ensures var group := FilterMetricsForPeriod(metrics, date, groupBy).value;
      forall m :: multiset(group)[m] == if InGroup(groupBy, m.createdAt, date) then multiset(metrics)[m] else 0
  {
    if metrics != [] {
      var init, last := metrics[..|metrics| - 1], metrics[|metrics| - 1];
      LastSplit(metrics);
      FilterSelectsGroup(init, date, groupBy);
      var kept := FilterMetricsForPeriod(init, date, groupBy).value;
      var keep := InGroup(groupBy, last.createdAt, date);
      assert FilterMetricsForPeriod(metrics, date, groupBy).value == kept + if keep then [last] else [];
    }
  }

  /** A non-empty sequence is its front followed by its last element, as a sequence and as a multiset. */
  lemma LastSplit<T>(s: seq<T>)
    requires s != []
    ensures s == s[..|s| - 1] + [s[|s| - 1]]
    ensures multiset(s) == multiset(s[..|s| - 1]) + multiset{s[|s| - 1]}
  {
    assert s == s[..|s| - 1] + [s[|s| - 1]];
  }



  /** `sum('value')`. */
  function Total(ms: seq<Metric>): real {
    if ms == [] then 0.0 else Total(ms[..|ms| - 1]) + ms[|ms| - 1].value
  }

  /** `min('value')`: a reduce that keeps the earlier value unless a later one is smaller. */
  function MinValue(ms: seq<Metric>): (r: real)
    requires |ms| > 0
    ensures exists i :: 0 <= i < |ms| && ms[i].value == r
    ensures forall i :: 0 <= i < |ms| ==> r <= ms[i].value
  {
    if |ms| == 1 then ms[0].value
    else
      var sofar := MinValue(ms[..|ms| - 1]);
      assert forall i :: 0 <= i < |ms| - 1 ==> ms[..|ms| - 1][i] == ms[i];
      if ms[|ms| - 1].value < sofar then ms[|ms| - 1].value else sofar
  }

  /** `max('value')`: a reduce that keeps the earlier value unless a later one is larger. */
  function MaxValue(ms: seq<Metric>): (r: real)
    requires |ms| > 0
    ensures exists i :: 0 <= i < |ms| && ms[i].value == r
    ensures forall i :: 0 <= i < |ms| ==> ms[i].value <= r
  {
    if |ms| == 1 then ms[0].value
    else
      var sofar := MaxValue(ms[..|ms| - 1]);
      assert forall i :: 0 <= i < |ms| - 1 ==> ms[..|ms| - 1][i] == ms[i];
      if ms[|ms| - 1].value > sofar then ms[|ms| - 1].value else sofar
  }

  /** `avg('value')` on a non-empty group: the total over the count. */
  function Average(ms: seq<Metric>): real
    requires |ms| > 0
  {
    Total(ms) / |ms| as real
  }

  /** The kinds of value an aggregate holds. */
  datatype Field = Text(text: string) | Amount(amount: real) | Count(count: nat) | Rows(rows: seq<Metric>)

  /** The object `aggregateForPeriod` builds for a day and its non-empty group. */
  function Aggregate(date: Stamp, group: seq<Metric>): Dto<Field>
    requires |group| > 0
  {
    Dto([("period", Text(DateText(date))), ("total", Amount(Total(group))), ("average", Amount(Average(group))),
         ("min", Amount(MinValue(group))), ("max", Amount(MaxValue(group))), ("count", Count(|group|)),
         ("metrics", Rows(group))])
  }

  /** `aggregateForPeriod($date, $metrics, $groupBy)`: the aggregate of the day's group, none for an empty group. */
  function AggregateForPeriod(date: Stamp, metrics: seq<Metric>, groupBy: string): Result<Option<Dto<Field>>, Thrown> {
    match FilterMetricsForPeriod(metrics, date, groupBy)
    case Failure(e) => Failure(e)
    case Success(group) => if group == [] then Success(None) else Success(Some(Aggregate(date, group)))
  }

  /**
   * `aggregateMetrics($start, $end, $groupBy)` over the days of the period
   * and the metrics fetched for it: each day's aggregate, under the day's
   * position in the period, with the empty days filtered out.
   */
  function AggregateMetrics(days: seq<Stamp>, metrics: seq<Metric>, groupBy: string)
    : Result<seq<(nat, Dto<Field>)>, Thrown>
  {
    if days == [] then Success([])
    else
      var k := |days| - 1;
      match AggregateMetrics(days[..k], metrics, groupBy)
      case Failure(e) => Failure(e)
      case Success(out) =>
        match AggregateForPeriod(days[k], metrics, groupBy)
        case Failure(e) => Failure(e)
        case Success(None) => Success(out)
        case Success(Some(dto)) => Success(out + [(k, dto)])
  }

  /** The aggregation throws exactly when the grouping is unknown and some metric gets tested. */
  lemma {:induction false} AggregateMetricsFails(days: seq<Stamp>, metrics: seq<Metric>, groupBy: string)
    ensures AggregateMetrics(days, metrics, groupBy).Failure?
        <==> |days| > 0 && |metrics| > 0 && !KnownGrouping(groupBy)
    ensures AggregateMetrics(days, metrics, groupBy).Failure? ==>
      AggregateMetrics(days, metrics, groupBy).error == UnknownGroupBy(groupBy)
  {
    if days != [] {
      AggregateMetricsFails(days[..|days| - 1], metrics, groupBy);
    }
  }

  /** Called without a grouping, the aggregation groups by day and never throws. */
  lemma DefaultGroupingNeverFails(days: seq<Stamp>, metrics: seq<Metric>)
    ensures AggregateMetrics(days, metrics, DefaultGroupBy).Success?
  {
    AggregateMetricsFails(days, metrics, DefaultGroupBy);
  }

  /** A day whose group is not empty. */
  predicate Occupied(metrics: seq<Metric>, groupBy: string, day: Stamp) {
    FilterMetricsForPeriod(metrics, day, groupBy).Success?
    && FilterMetricsForPeriod(metrics, day, groupBy).value != []
  }

  /** An output entry: an occupied day of the period with the aggregate of its group. */
  predicate Describes(days: seq<Stamp>, metrics: seq<Metric>, groupBy: string, entry: (nat, Dto<Field>)) {
    entry.0 < |days| && Occupied(metrics, groupBy, days[entry.0])
    && entry.1 == Aggregate(days[entry.0], FilterMetricsForPeriod(metrics, days[entry.0], groupBy).value)
  }

  /** Day `k` has an entry in `out`. */
  predicate Listed(out: seq<(nat, Dto<Field>)>, k: nat) {
    exists i :: 0 <= i < |out| && out[i].0 == k
  }

  /**
   * The last step of the aggregation: the entries for the earlier days,
   * followed by one entry for the last day exactly when its group is not
   * empty.
   */
  lemma AggregateMetricsStep(days: seq<Stamp>, metrics: seq<Metric>, groupBy: string)
    requires days != [] && AggregateMetrics(days, metrics, groupBy).Success?
    ensures var k := |days| - 1;
      var prev := AggregateMetrics(days[..k], metrics, groupBy);
      var out := AggregateMetrics(days, metrics, groupBy).value;
      && prev.Success?
      && (forall i :: 0 <= i < |prev.value| ==> i < |out| && out[i] == prev.value[i])
      && (Occupied(metrics, groupBy, days[k]) ==>
           |out| == |prev.value| + 1
           && out[|prev.value|] == (k, Aggregate(days[k], FilterMetricsForPeriod(metrics, days[k], groupBy).value)))
      && (!Occupied(metrics, groupBy, days[k]) ==> |out| == |prev.value|)
  {
  }

  /** An occupied last day gets the entry that describes it, after those of the earlier days. */
  lemma LastDayDescribed(days: seq<Stamp>, metrics: seq<Metric>, groupBy: string)
    requires days != [] && AggregateMetrics(days, metrics, groupBy).Success?
    requires Occupied(metrics, groupBy, days[|days| - 1])
    ensures var prev := AggregateMetrics(days[..|days| - 1], metrics, groupBy);
      var out := AggregateMetrics(days, metrics, groupBy).value;
      && prev.Success? && |out| == |prev.value| + 1
      && out[|prev.value|].0 == |days| - 1 && Describes(days, metrics, groupBy, out[|prev.value|])
  {
    AggregateMetricsStep(days, metrics, groupBy);
  }

  /** Every entry of the output is an occupied day of the period with the aggregate of its group. */
  lemma {:induction false} AggregateMetricsEntries(days: seq<Stamp>, metrics: seq<Metric>, groupBy: string)
    requires AggregateMetrics(days, metrics, groupBy).Success?
    ensures var out := AggregateMetrics(days, metrics, groupBy).value;
      forall i :: 0 <= i < |out| ==> Describes(days, metrics, groupBy, out[i])
  {
    if days != [] {
      var k := |days| - 1;
      var init := days[..k];
      AggregateMetricsStep(days, metrics, groupBy);
      AggregateMetricsEntries(init, metrics, groupBy);
      if Occupied(metrics, groupBy, days[k]) {
        LastDayDescribed(days, metrics, groupBy);
      }
      var prev := AggregateMetrics(init, metrics, groupBy).value;
      var out := AggregateMetrics(days, metrics, groupBy).value;
      forall i | 0 <= i < |prev|
        ensures Describes(days, metrics, groupBy, out[i])
      {
        assert out[i] == prev[i];
        assert Describes(init, metrics, groupBy, prev[i]);
        assert init[prev[i].0] == days[prev[i].0];
      }
    }
  }

  /** The last step of the aggregation adds at most one entry, the last day's, after the earlier ones. */
  lemma AggregateMetricsGrows(days: seq<Stamp>, metrics: seq<Metric>, groupBy: string)
    requires days != [] && AggregateMetrics(days, metrics, groupBy).Success?
    ensures var prev := AggregateMetrics(days[..|days| - 1], metrics, groupBy);
      var out := AggregateMetrics(days, metrics, groupBy).value;
      && prev.Success?
      && (forall i :: 0 <= i < |prev.value| ==> i < |out| && out[i] == prev.value[i])
      && (|out| == |prev.value| || (|out| == |prev.value| + 1 && out[|prev.value|].0 == |days| - 1))
  {
  }

  /** The output lists days in period order, each at most once. */
  lemma {:induction false} AggregateMetricsOrdered(days: seq<Stamp>, metrics: seq<Metric>, groupBy: string)
    requires AggregateMetrics(days, metrics, groupBy).Success?
    ensures var out := AggregateMetrics(days, metrics, groupBy).value;
      && (forall i :: 0 <= i < |out| ==> out[i].0 < |days|)
      && (forall i, j :: 0 <= i < j < |out| ==> out[i].0 < out[j].0)
  {
    if days != [] {
      var init := days[..|days| - 1];
      AggregateMetricsGrows(days, metrics, groupBy);
      AggregateMetricsOrdered(init, metrics, groupBy);
      var prev := AggregateMetrics(init, metrics, groupBy).value;
      var out := AggregateMetrics(days, metrics, groupBy).value;
      forall i | 0 <= i < |out|
        ensures out[i].0 < |days|
      {
        if i < |prev| {
          assert out[i] == prev[i];
        }
      }
      forall i, j | 0 <= i < j < |out|
        ensures out[i].0 < out[j].0
      {
        assert out[i] == prev[i];
        if j < |prev| {
          assert out[j] == prev[j];
        }
      }
    }
  }

  /** An occupied last day gets an entry. */
  lemma LastDayListed(days: seq<Stamp>, metrics: seq<Metric>, groupBy: string)
    requires days != [] && AggregateMetrics(days, metrics, groupBy).Success?
    requires Occupied(metrics, groupBy, days[|days| - 1])
    ensures Listed(AggregateMetrics(days, metrics, groupBy).value, |days| - 1)
  {
    AggregateMetricsStep(days, metrics, groupBy);
    var prev := AggregateMetrics(days[..|days| - 1], metrics, groupBy).value;
    assert AggregateMetrics(days, metrics, groupBy).value[|prev|].0 == |days| - 1;
  }

  /** Every occupied day of the period appears in the output. */
  lemma {:induction false} AggregateMetricsComplete(days: seq<Stamp>, metrics: seq<Metric>, groupBy: string)
    requires AggregateMetrics(days, metrics, groupBy).Success?
    ensures forall k :: 0 <= k < |days| && Occupied(metrics, groupBy, days[k]) ==>
      Listed(AggregateMetrics(days, metrics, groupBy).value, k)
  {
    if days != [] {
      var last := |days| - 1;
      var init := days[..last];
      AggregateMetricsStep(days, metrics, groupBy);
      AggregateMetricsComplete(init, metrics, groupBy);
      if Occupied(metrics, groupBy, days[last]) {
        LastDayListed(days, metrics, groupBy);
      }
      var prev := AggregateMetrics(init, metrics, groupBy).value;
      var out := AggregateMetrics(days, metrics, groupBy).value;
      forall k | 0 <= k < |days| && Occupied(metrics, groupBy, days[k])
        ensures Listed(out, k)
      {
        if k < last {
          assert init[k] == days[k];
          assert Listed(prev, k);
          var i :| 0 <= i < |prev| && prev[i].0 == k;
          assert out[i] == prev[i];
        } else {
          assert k == last;
        }
      }
    }
  }

  /** The sum of a group lies between count times its minimum and count times its maximum. */
  lemma {:induction false} TotalBounds(ms: seq<Metric>, lo: real, hi: real)
    requires forall i :: 0 <= i < |ms| ==> lo <= ms[i].value <= hi
    ensures |ms| as real * lo <= Total(ms) <= |ms| as real * hi
  {
    if ms != [] {
      var init := ms[..|ms| - 1];
      assert forall i :: 0 <= i < |init| ==> init[i] == ms[i];
      TotalBounds(init, lo, hi);
      assert Total(ms) == Total(init) + ms[|ms| - 1].value;
      OneMoreCopy(|init| as real, lo);
      OneMoreCopy(|init| as real, hi);
      assert |ms| as real == |init| as real + 1.0;
    }
  }

  /** `n + 1` copies of `x` are `n` copies and one more. */
  lemma OneMoreCopy(n: real, x: real)
    ensures (n + 1.0) * x == n * x + x
  {
  }

  /** A bound on `n` copies of a number bounds the quotient by `n`. */
  lemma QuotientBounds(lo: real, t: real, hi: real, n: real)
    requires n > 0.0 && n * lo <= t <= n * hi
    ensures lo <= t / n <= hi
  {
    assert (n * lo) / n == lo;
    assert (n * hi) / n == hi;
  }

  /** Bounds on every value of a non-empty group bound its average. */
  lemma AverageBounds(ms: seq<Metric>, lo: real, hi: real)
    requires |ms| > 0
    requires forall i :: 0 <= i < |ms| ==> lo <= ms[i].value <= hi
    ensures lo <= Average(ms) <= hi
  {
    TotalBounds(ms, lo, hi);
    QuotientBounds(lo, Total(ms), hi, |ms| as real);
  }

  /** The average of a group lies between its minimum and its maximum. */
  lemma AverageWithinBounds(group: seq<Metric>)
    requires |group| > 0
    ensures MinValue(group) <= Average(group) <= MaxValue(group)
  {
    AverageBounds(group, MinValue(group), MaxValue(group));
  }

  /** Each of the seven fields of an aggregate reads back as the value stored under it. */
  lemma AggregateFields(period: Field, total: Field, average: Field, min: Field, max: Field, count: Field, rows: Field)
    ensures var dto := Dto([("period", period), ("total", total), ("average", average), ("min", min),
                            ("max", max), ("count", count), ("metrics", rows)]);
      && dto.Get("period") == Some(period) && dto.Get("total") == Some(total)
      && dto.Get("average") == Some(average) && dto.Get("min") == Some(min) && dto.Get("max") == Some(max)
      && dto.Get("count") == Some(count) && dto.Get("metrics") == Some(rows)
  {
    var data := [("period", period), ("total", total), ("average", average), ("min", min),
                 ("max", max), ("count", count), ("metrics", rows)];
    assert DistinctKeys(data);
    GetStored(data, 0);
    GetStored(data, 1);
    GetStored(data, 2);
    GetStored(data, 3);
    GetStored(data, 4);
    GetStored(data, 5);
    GetStored(data, 6);
  }

  /**
   * Every aggregate describes its day and its group: the period is the day
   * as 'Y-m-d', the count is the group's size, the metrics are the group,
   * and its average lies between its min and its max.
   */
  lemma AggregateIsConsistent(date: Stamp, group: seq<Metric>)
    requires |group| > 0
    ensures var dto := Aggregate(date, group);
      && dto.Get("period") == Some(Text(DateText(date)))
      && dto.Get("count") == Some(Count(|group|))
      && dto.Get("metrics") == Some(Rows(group))
      && dto.Get("min") == Some(Amount(MinValue(group)))
      && dto.Get("average") == Some(Amount(Average(group)))
      && dto.Get("max") == Some(Amount(MaxValue(group)))
      && MinValue(group) <= Average(group) <= MaxValue(group)
  {
    AggregateFields(Text(DateText(date)), Amount(Total(group)), Amount(Average(group)), Amount(MinValue(group)),
                    Amount(MaxValue(group)), Count(|group|), Rows(group));
    AverageWithinBounds(group);
  }

  /** Two days whose groups admit the same metrics get the same group. */
  lemma {:induction false} SameGroupSameFilter(metrics: seq<Metric>, d1: Stamp, d2: Stamp, groupBy: string)
    requires forall i :: 0 <= i < |metrics| ==>
      (InGroup(groupBy, metrics[i].createdAt, d1) <==> InGroup(groupBy, metrics[i].createdAt, d2))
    ensures FilterMetricsForPeriod(metrics, d1, groupBy) == FilterMetricsForPeriod(metrics, d2, groupBy)
  {
    if metrics != [] {
      var init := metrics[..|metrics| - 1];
      assert forall i :: 0 <= i < |init| ==> init[i] == metrics[i];
      SameGroupSameFilter(init, d1, d2, groupBy);
    }
  }

  /** Under 'monthly', all days of one month aggregate the same group: same total, count, min and max. */
  lemma MonthlyDaysAgree(metrics: seq<Metric>, d1: Stamp, d2: Stamp)
    requires MonthText(d1) == MonthText(d2)
    ensures FilterMetricsForPeriod(metrics, d1, "monthly") == FilterMetricsForPeriod(metrics, d2, "monthly")
    ensures var g := FilterMetricsForPeriod(metrics, d1, "monthly").value;
      |g| > 0 ==>
        Aggregate(d1, g).Get("total") == Aggregate(d2, g).Get("total")
        && Aggregate(d1, g).Get("min") == Aggregate(d2, g).Get("min")
        && Aggregate(d1, g).Get("max") == Aggregate(d2, g).Get("max")
        && Aggregate(d1, g).Get("count") == Aggregate(d2, g).Get("count")
  {
    forall i | 0 <= i < |metrics|
      ensures InGroup("monthly", metrics[i].createdAt, d1) <==> InGroup("monthly", metrics[i].createdAt, d2)
    {
    }
    SameGroupSameFilter(metrics, d1, d2, "monthly");
    var g := FilterMetricsForPeriod(metrics, d1, "monthly").value;
    if |g| > 0 {
      var total, average, min, max := Amount(Total(g)), Amount(Average(g)), Amount(MinValue(g)), Amount(MaxValue(g));
      AggregateFields(Text(DateText(d1)), total, average, min, max, Count(|g|), Rows(g));
      AggregateFields(Text(DateText(d2)), total, average, min, max, Count(|g|), Rows(g));
    }
  }

  /** `Pow10` at the widths the formats use. */
  lemma FormatWidths()
    ensures Pow10(2) == 100 && Pow10(4) == 10000
  {
    assert Pow10(1) == 10;
    assert Pow10(3) == 1000;
  }

  /** Two concatenations whose first parts have the same length are equal only part by part. */
  lemma SplitAt<T>(x1: seq<T>, y1: seq<T>, x2: seq<T>, y2: seq<T>)
    requires |x1| == |x2| && x1 + y1 == x2 + y2
    ensures x1 == x2 && y1 == y2
  {
    assert x1 == (x1 + y1)[..|x1|] && x2 == (x2 + y2)[..|x2|];
    assert y1 == (x1 + y1)[|x1|..] && y2 == (x2 + y2)[|x2|..];
  }

  /** 'Y-m' of a valid date names its year and month, and no other. */
  lemma MonthTextExact(a: Stamp, b: Stamp)
    requires ValidStamp(a) && ValidStamp(b)
    ensures |MonthText(a)| == 7
    ensures MonthText(a) == MonthText(b) <==> a.year == b.year && a.month == b.month
  {
    FormatWidths();
    PaddedFixedWidth(a.year, b.year, 4);
    PaddedFixedWidth(b.year, a.year, 4);
    PaddedFixedWidth(a.month, b.month, 2);
    var ya, yb, ma, mb := Padded(a.year, 4), Padded(b.year, 4), Padded(a.month, 2), Padded(b.month, 2);
    if MonthText(a) == MonthText(b) {
      assert MonthText(a) == ya + "-" + ma && MonthText(b) == yb + "-" + mb;
      SplitAt(ya + "-", ma, yb + "-", mb);
      SplitAt(ya, "-", yb, "-");
    }
  }

  /** 'Y-m-d' of a valid date names its year, month and day, and no other. */
  lemma DateTextExact(a: Stamp, b: Stamp)
    requires ValidStamp(a) && ValidStamp(b)
    ensures |DateText(a)| == 10
    ensures DateText(a) == DateText(b) <==> a.year == b.year && a.month == b.month && a.day == b.day
  {
    FormatWidths();
    MonthTextExact(a, b);
    MonthTextExact(b, a);
    PaddedFixedWidth(a.day, b.day, 2);
    PaddedFixedWidth(b.day, a.day, 2);
    if DateText(a) == DateText(b) {
      SplitAt(MonthText(a) + "-", Padded(a.day, 2), MonthText(b) + "-", Padded(b.day, 2));
      SplitAt(MonthText(a), "-", MonthText(b), "-");
    }
  }

  /** 'Y-m-d H' of a valid date names its year, month, day and hour, and no other. */
  lemma HourTextExact(a: Stamp, b: Stamp)
    requires ValidStamp(a) && ValidStamp(b)
    ensures HourText(a) == HourText(b)
        <==> a.year == b.year && a.month == b.month && a.day == b.day && a.hour == b.hour
  {
    FormatWidths();
    DateTextExact(a, b);
    DateTextExact(b, a);
    PaddedFixedWidth(a.hour, b.hour, 2);
    PaddedFixedWidth(b.hour, a.hour, 2);
    if HourText(a) == HourText(b) {
      SplitAt(DateText(a) + " ", Padded(a.hour, 2), DateText(b) + " ", Padded(b.hour, 2));
      SplitAt(DateText(a), " ", DateText(b), " ");
    }
  }

  /**
   * On valid dates the four groupings compare these calendar fields: hour
   * and date, date, week number alone (whatever the year), year and month.
   */
  lemma GroupKeys(m: Stamp, date: Stamp)
    requires ValidStamp(m) && ValidStamp(date)
    ensures InGroup("hourly", m, date)
        <==> m.year == date.year && m.month == date.month && m.day == date.day && m.hour == date.hour
    ensures InGroup("daily", m, date) <==> m.year == date.year && m.month == date.month && m.day == date.day
    ensures InGroup("weekly", m, date) <==> m.weekOfYear == date.weekOfYear
    ensures InGroup("monthly", m, date) <==> m.year == date.year && m.month == date.month
  {
    HourTextExact(m, date);
    DateTextExact(m, date);
    MonthTextExact(m, date);
  }
}
