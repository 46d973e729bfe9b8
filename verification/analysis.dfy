/**
 `analyze_data` and the summary metrics written beside the report: basic
 statistics, the two bucket distributions, mean steps per weekday in Monday to
 Sunday order, the weekday/weekend comparison, and the most and least active
 days.
 */
module Analysis {
  import opened Options
  import opened ActivityLevels
  import opened Records
  import opened Groups
  import opened Distribution

  // ---------------------------------------------------------------------------
  // Basic statistics
  // ---------------------------------------------------------------------------

  const MinutesPerHour: real := 60.0
  const MinutesPerDay: int := 1440

  /** The exceptions the analysis and the report text can raise. */
  datatype Fault = ValueError(message: string) | NameError(name: string) | KeyError(missing: Level)

  /** What `NaT.strftime` raises: the earliest and latest date of an empty table are `NaT`. */
  const NaTFormatError: string := "NaTType does not support strftime"

  /** `df['SedentaryMinutes'].mean() / 60`; `None` (NaN) for an empty table. */
  function MeanSedentaryHours(t: seq<Record>): (h: Option<real>)
    ensures h.Some? <==> |t| > 0
    ensures h.Some? ==> h.value * MinutesPerHour == Mean(t, SedentaryMinutes).value
  {
    var sedentary := Mean(t, SedentaryMinutes);
    if sedentary.Some? then Some(sedentary.value / MinutesPerHour) else None
  }

  /** `basic_stats` without the text of `date_range`. */
  datatype BasicStats = BasicStats(
    totalRecords: nat,
    uniqueUsers: nat,
    avgSteps: real,
    avgCalories: real,
    avgSedentaryHours: real)

  /** The `basic_stats` literal. Its `date_range` entry is evaluated before the means, and on
      an empty table it formats `NaT` and raises, so no statistics come out. */
  function ComputeBasicStats(t: seq<Record>): (r: Result<BasicStats, Fault>)
    ensures r.Err? <==> |t| == 0
    ensures r.Err? ==> r.error == ValueError(NaTFormatError)
    ensures r.Ok? ==> r.value.totalRecords == |t| && r.value.uniqueUsers == |UserIds(t)|
    ensures r.Ok? ==> 1 <= r.value.uniqueUsers <= r.value.totalRecords
    ensures r.Ok? ==> Mean(t, TotalSteps) == Some(r.value.avgSteps)
    ensures r.Ok? ==> Mean(t, Calories) == Some(r.value.avgCalories)
    ensures r.Ok? ==> r.value.avgSedentaryHours * MinutesPerHour == Mean(t, SedentaryMinutes).value
  {
    if |t| == 0 then Err(ValueError(NaTFormatError))
    else
      var steps := Mean(t, TotalSteps);
      var calories := Mean(t, Calories);
      var hours := MeanSedentaryHours(t);
      assert steps.Some? && calories.Some? && hours.Some?;
      UniqueUsersCount(t);
      Ok(BasicStats(|t|, |UserIds(t)|, steps.value, calories.value, hours.value))
  }

  /** When every sedentary figure is a valid count of minutes in a day, the average
      sedentary time is between 0 and 24 hours. */
  lemma SedentaryHoursWithinDay(t: seq<Record>)
    requires |t| > 0
    requires forall i :: 0 <= i < |t| ==> 0 <= t[i].raw.sedentaryMinutes <= MinutesPerDay
    ensures 0.0 <= ComputeBasicStats(t).value.avgSedentaryHours <= 24.0
  {
    assert forall i :: 0 <= i < |t| ==> Value(t[i], SedentaryMinutes) == t[i].raw.sedentaryMinutes;
    MeanAtLeast(t, SedentaryMinutes, 0);
    MeanAtMost(t, SedentaryMinutes, MinutesPerDay);
  }

  // ---------------------------------------------------------------------------
  // Weekly patterns
  // ---------------------------------------------------------------------------

  /** Mean steps over the records of one weekday; `None` when there are none. */
  function DayMean(t: seq<Record>, d: Day): (m: Option<real>)
    ensures m.None? <==> forall r :: r in t ==> r.raw.dayOfWeek != d
    ensures m.Some? ==>
      m.value * |Select(t, OnDay(d))| as real == Sum(Select(t, OnDay(d)), TotalSteps) as real
  {
    EmptyGroup(t, OnDay(d));
    Mean(Select(t, OnDay(d)), TotalSteps)
  }

  /** `weekly_patterns`: mean steps per weekday, reindexed to Monday through Sunday; a day
      without records keeps its place with an undefined value. */
  function WeeklyPatterns(t: seq<Record>): (w: seq<Option<real>>)
    ensures |w| == |Week| == 7
    ensures forall i :: 0 <= i < |w| ==> w[i] == DayMean(t, Week[i])
  {
    seq(|Week|, i requires 0 <= i < |Week| => DayMean(t, Week[i]))
  }

  /** Some weekday has a defined mean exactly when the table has a record. */
  lemma SomeDayDefinedIffNonEmpty(t: seq<Record>)
    ensures (exists i :: 0 <= i < 7 && WeeklyPatterns(t)[i].Some?) <==> |t| > 0
  {
    var w := WeeklyPatterns(t);
    if |t| > 0 {
      assert t[0] in t;
      assert w[DayIndex(t[0].raw.dayOfWeek)].Some?;
    } else {
      assert forall i :: 0 <= i < 7 ==> w[i].None?;
    }
  }

  // ---------------------------------------------------------------------------
  // Weekend comparison
  // ---------------------------------------------------------------------------

  /** The three means compared between weekdays and weekends. */
  datatype GroupMeans = GroupMeans(steps: real, veryActiveMinutes: real, sedentaryMinutes: real)

  function MeansOf(g: seq<Record>): (m: Option<GroupMeans>)
    ensures m.Some? <==> |g| > 0
    ensures m.Some? ==> m.value.steps * |g| as real == Sum(g, TotalSteps) as real
    ensures m.Some? ==> m.value.veryActiveMinutes * |g| as real == Sum(g, VeryActiveMinutes) as real
    ensures m.Some? ==> m.value.sedentaryMinutes * |g| as real == Sum(g, SedentaryMinutes) as real
  {
    if |g| == 0 then None
    else Some(GroupMeans(
      Mean(g, TotalSteps).value, Mean(g, VeryActiveMinutes).value, Mean(g, SedentaryMinutes).value))
  }

  /** `weekend_comparison`: `groupby('IsWeekend')` yields a row only for a flag value that
      occurs, so each side is `None` when the table has no record of that kind. */
  datatype WeekendComparison = WeekendComparison(weekday: Option<GroupMeans>, weekend: Option<GroupMeans>)

  function CompareWeekend(t: seq<Record>): (c: WeekendComparison)
    ensures c.weekday == MeansOf(Select(t, Weekend(false)))
    ensures c.weekend == MeansOf(Select(t, Weekend(true)))
    ensures c.weekday.None? <==> forall r :: r in t ==> r.isWeekend
    ensures c.weekend.None? <==> forall r :: r in t ==> !r.isWeekend
  {
    EmptyGroup(t, Weekend(false));
    EmptyGroup(t, Weekend(true));
    WeekendComparison(MeansOf(Select(t, Weekend(false))), MeansOf(Select(t, Weekend(true))))
  }

  /** In a derived table the weekend group is exactly the Saturday and Sunday records. */
  lemma WeekendGroupIsSaturdaySunday(t: seq<Record>)
    requires Derived(t)
    ensures forall r :: r in Select(t, Weekend(true)) <==>
      r in t && (r.raw.dayOfWeek == Saturday || r.raw.dayOfWeek == Sunday)
  {
    SelectMembers(t, Weekend(true));
    forall r | r in t
      ensures r.isWeekend <==> r.raw.dayOfWeek == Saturday || r.raw.dayOfWeek == Sunday
    {
      var i :| 0 <= i < |t| && t[i] == r;
      assert r == Derive(r.raw);
    }
  }

  /** The step total a group's mean stands for: mean times group size, 0 for an empty group. */
  function StepTotal(m: Option<GroupMeans>, size: nat): real
  {
    if m.Some? then m.value.steps * size as real else 0.0
  }

  lemma GroupStepTotal(g: seq<Record>)
    ensures StepTotal(MeansOf(g), |g|) == Sum(g, TotalSteps) as real
  {
  }

  /** The overall step total is the weekday total plus the weekend total, so the overall
      mean is the record-weighted average of the two group means. */
  lemma OverallMeanIsWeighted(t: seq<Record>)
    requires |t| > 0
    ensures
      var c := CompareWeekend(t);
      Mean(t, TotalSteps).value * |t| as real ==
        StepTotal(c.weekday, |Select(t, Weekend(false))|) + StepTotal(c.weekend, |Select(t, Weekend(true))|)
  {
    var total := Mean(t, TotalSteps).value * |t| as real;
    assert total == Sum(t, TotalSteps) as real;
    var wd, we := Select(t, Weekend(false)), Select(t, Weekend(true));
    var c := CompareWeekend(t);
    assert StepTotal(c.weekday, |wd|) == Sum(wd, TotalSteps) as real by {
      GroupStepTotal(wd);
    }
    assert StepTotal(c.weekend, |we|) == Sum(we, TotalSteps) as real by {
      GroupStepTotal(we);
    }
    assert Sum(wd, TotalSteps) + Sum(we, TotalSteps) == Sum(t, TotalSteps) by {
      WeekendPartitionSums(t, TotalSteps);
    }
  }

  // ---------------------------------------------------------------------------
  // The analysis bundle
  // ---------------------------------------------------------------------------

  datatype AnalysisResult = AnalysisResult(
    basicStats: BasicStats,
    activityDistribution: Option<Buckets<real>>,
    userActivityLevels: Option<Buckets<real>>,
    weeklyPatterns: seq<Option<real>>,
    weekendComparison: WeekendComparison)

  /** `analyze_data`: an empty table fails in the basic statistics; otherwise every part is
      computed from the same table, and each part has something to describe. */
  function Analyze(t: seq<Record>): (r: Result<AnalysisResult, Fault>)
    ensures r.Err? <==> |t| == 0
    ensures r.Err? ==> r.error == ValueError(NaTFormatError)
    ensures r.Ok? ==> r.value.basicStats == ComputeBasicStats(t).value
    ensures r.Ok? ==> r.value.activityDistribution == RecordDistribution(t)
    ensures r.Ok? ==> r.value.userActivityLevels == UserDistribution(t)
    ensures r.Ok? ==> r.value.weeklyPatterns == WeeklyPatterns(t)
    ensures r.Ok? ==> r.value.weekendComparison == CompareWeekend(t)
    ensures r.Ok? ==> r.value.activityDistribution.Some? && r.value.userActivityLevels.Some?
    ensures r.Ok? ==> exists i :: 0 <= i < 7 && r.value.weeklyPatterns[i].Some?
    ensures r.Ok? ==> r.value.weekendComparison.weekday.Some? || r.value.weekendComparison.weekend.Some?
  {
    var stats := ComputeBasicStats(t);
    if stats.Err? then Err(stats.error)
    else
      SomeDayDefinedIffNonEmpty(t);
      assert t[0] in t;
      Ok(AnalysisResult(stats.value, RecordDistribution(t), UserDistribution(t),
                        WeeklyPatterns(t), CompareWeekend(t)))
  }

  // ---------------------------------------------------------------------------
  // Most and least active day
  // ---------------------------------------------------------------------------

  /** `k` is the first position holding the largest defined value (`Series.idxmax`). */
  predicate IsFirstMax(w: seq<Option<real>>, k: nat)
  {
    && k < |w| && w[k].Some?
    && (forall i :: 0 <= i < |w| && w[i].Some? ==> w[i].value <= w[k].value)
    && (forall i :: 0 <= i < k && w[i].Some? ==> w[i].value < w[k].value)
  }

  /** `k` is the first position holding the smallest defined value (`Series.idxmin`). */
  predicate IsFirstMin(w: seq<Option<real>>, k: nat)
  {
    && k < |w| && w[k].Some?
    && (forall i :: 0 <= i < |w| && w[i].Some? ==> w[k].value <= w[i].value)
    && (forall i :: 0 <= i < k && w[i].Some? ==> w[k].value < w[i].value)
  }

  /** Position of the largest defined value, skipping undefined ones; ties go to the first. */
  method IdxMax(w: seq<Option<real>>) returns (k: Option<nat>)
    ensures k.None? <==> forall i :: 0 <= i < |w| ==> w[i].None?
    ensures k.Some? ==> IsFirstMax(w, k.value)
  {
    k := None;
    var i := 0;
    while i < |w|
      invariant 0 <= i <= |w|
      invariant k.None? <==> forall j :: 0 <= j < i ==> w[j].None?
      invariant k.Some? ==> IsFirstMax(w[..i], k.value)
    {
      if w[i].Some? && (k.None? || w[k.value].value < w[i].value) {
        k := Some(i);
      }
      i := i + 1;
    }
    assert w[..i] == w;
  }

  /** Position of the smallest defined value, skipping undefined ones; ties go to the first. */
  method IdxMin(w: seq<Option<real>>) returns (k: Option<nat>)
    ensures k.None? <==> forall i :: 0 <= i < |w| ==> w[i].None?
    ensures k.Some? ==> IsFirstMin(w, k.value)
  {
    k := None;
    var i := 0;
    while i < |w|
      invariant 0 <= i <= |w|
      invariant k.None? <==> forall j :: 0 <= j < i ==> w[j].None?
      invariant k.Some? ==> IsFirstMin(w[..i], k.value)
    {
      if w[i].Some? && (k.None? || w[i].value < w[k.value].value) {
        k := Some(i);
      }
      i := i + 1;
    }
    assert w[..i] == w;
  }

  /** The six metrics of `analysis_summary.csv`, before text formatting. */
  datatype Summary = Summary(
    totalRecords: nat,
    uniqueUsers: nat,
    averageDailySteps: Option<real>,
    averageSedentaryHours: Option<real>,
    mostActiveDay: Option<Day>,
    leastActiveDay: Option<Day>)

  /** `d` has the highest mean steps of any day with records, and every earlier day of the
      week with records has a strictly lower mean. */
  predicate IsMostActiveDay(t: seq<Record>, d: Day)
  {
    && DayMean(t, d).Some?
    && (forall e :: DayMean(t, e).Some? ==> DayMean(t, e).value <= DayMean(t, d).value)
    && (forall e :: DayIndex(e) < DayIndex(d) && DayMean(t, e).Some? ==>
          DayMean(t, e).value < DayMean(t, d).value)
  }

  /** `d` has the lowest mean steps of any day with records, and every earlier day of the
      week with records has a strictly higher mean. */
  predicate IsLeastActiveDay(t: seq<Record>, d: Day)
  {
    && DayMean(t, d).Some?
    && (forall e :: DayMean(t, e).Some? ==> DayMean(t, d).value <= DayMean(t, e).value)
    && (forall e :: DayIndex(e) < DayIndex(d) && DayMean(t, e).Some? ==>
          DayMean(t, d).value < DayMean(t, e).value)
  }

  /** The first maximum of the weekly pattern names the most active day. */
  lemma FirstMaxIsMostActiveDay(t: seq<Record>, k: nat)
    requires IsFirstMax(WeeklyPatterns(t), k)
    ensures IsMostActiveDay(t, Week[k])
  {
    var w := WeeklyPatterns(t);
    assert DayIndex(Week[k]) == k;
    forall e | DayMean(t, e).Some?
      ensures DayMean(t, e).value <= DayMean(t, Week[k]).value
    {
      assert w[DayIndex(e)] == DayMean(t, e);
    }
    forall e | DayIndex(e) < k && DayMean(t, e).Some?
      ensures DayMean(t, e).value < DayMean(t, Week[k]).value
    {
      assert w[DayIndex(e)] == DayMean(t, e);
    }
  }

  /** The first minimum of the weekly pattern names the least active day. */
  lemma FirstMinIsLeastActiveDay(t: seq<Record>, k: nat)
    requires IsFirstMin(WeeklyPatterns(t), k)
    ensures IsLeastActiveDay(t, Week[k])
  {
    var w := WeeklyPatterns(t);
    assert DayIndex(Week[k]) == k;
    forall e | DayMean(t, e).Some?
      ensures DayMean(t, Week[k]).value <= DayMean(t, e).value
    {
      assert w[DayIndex(e)] == DayMean(t, e);
    }
    forall e | DayIndex(e) < k && DayMean(t, e).Some?
      ensures DayMean(t, Week[k]).value < DayMean(t, e).value
    {
      assert w[DayIndex(e)] == DayMean(t, e);
    }
  }

  /** The tie rule makes the most active day unique. */
  lemma MostActiveDayIsUnique(t: seq<Record>, d: Day, e: Day)
    requires IsMostActiveDay(t, d) && IsMostActiveDay(t, e)
    ensures d == e
  {
    assert DayIndex(d) == DayIndex(e);
  }

  /** The tie rule makes the least active day unique. */
  lemma LeastActiveDayIsUnique(t: seq<Record>, d: Day, e: Day)
    requires IsLeastActiveDay(t, d) && IsLeastActiveDay(t, e)
    ensures d == e
  {
    assert DayIndex(d) == DayIndex(e);
  }

  /** The summary metrics: the most active day has the highest mean steps of any day with
      records and the least active day the lowest, each the earliest in the week on a tie;
      both are undefined only for an empty table. */
  method Summarize(t: seq<Record>) returns (s: Summary)
    ensures s.totalRecords == |t| && s.uniqueUsers == |UserIds(t)|
    ensures s.averageDailySteps == Mean(t, TotalSteps)
    ensures s.averageSedentaryHours == MeanSedentaryHours(t)
    ensures |t| > 0 ==> s.averageDailySteps == Some(ComputeBasicStats(t).value.avgSteps)
    ensures |t| > 0 ==> s.averageSedentaryHours == Some(ComputeBasicStats(t).value.avgSedentaryHours)
    ensures s.mostActiveDay.Some? <==> |t| > 0
    ensures s.leastActiveDay.Some? <==> |t| > 0
    ensures s.mostActiveDay.Some? ==> IsMostActiveDay(t, s.mostActiveDay.value)
    ensures s.leastActiveDay.Some? ==> IsLeastActiveDay(t, s.leastActiveDay.value)
  {
    var w := WeeklyPatterns(t);
    SomeDayDefinedIffNonEmpty(t);
    var hi := IdxMax(w);
    var lo := IdxMin(w);
    var most: Option<Day> := None;
    var least: Option<Day> := None;
    if hi.Some? {
      FirstMaxIsMostActiveDay(t, hi.value);
      most := Some(Week[hi.value]);
    }
    if lo.Some? {
      FirstMinIsLeastActiveDay(t, lo.value);
      least := Some(Week[lo.value]);
    }
    s := Summary(|t|, |UserIds(t)|, Mean(t, TotalSteps), MeanSedentaryHours(t),
                 most, least);
  }
}
