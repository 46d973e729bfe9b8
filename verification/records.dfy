/**
 One activity record per user per day, and the per-record derivation done by
 `load_and_clean_data`: the activity level, total active minutes, the active
 share of the day's minutes and the weekend flag.
 */
module Records {
  import opened ActivityLevels

  datatype Day = Monday | Tuesday | Wednesday | Thursday | Friday | Saturday | Sunday

  /** The fixed report order of the week, Monday first. */
  const Week: seq<Day> := [Monday, Tuesday, Wednesday, Thursday, Friday, Saturday, Sunday]

  /** Position of a day in `Week`. */
  function DayIndex(d: Day): (i: nat)
    ensures i < |Week| && Week[i] == d
  {
    match d
    case Monday => 0
    case Tuesday => 1
    case Wednesday => 2
    case Thursday => 3
    case Friday => 4
    case Saturday => 5
    case Sunday => 6
  }

  /** `Week` lists each day exactly once. */
  lemma WeekIsAPermutationOfDays()
    ensures |Week| == 7
    ensures forall d: Day :: d in Week
    ensures forall i, j :: 0 <= i < j < |Week| ==> Week[i] != Week[j]
  {
    forall d: Day ensures d in Week {
      assert Week[DayIndex(d)] == d;
    }
  }

  type UserId = int

  /** The input columns of one row. The day of week stands for the parsed `ActivityDate`.
      Measurements are plain integers: the source neither rejects nor clamps negative values. */
  datatype RawRecord = RawRecord(
    id: UserId,
    dayOfWeek: Day,
    totalSteps: int,
    calories: int,
    veryActiveMinutes: int,
    fairlyActiveMinutes: int,
    lightlyActiveMinutes: int,
    sedentaryMinutes: int)

  /** A float64 quotient of two integer columns as pandas computes it: finite, NaN for 0/0,
      or an infinity carrying the dividend's sign for x/0 with x != 0. */
  datatype Quotient = Finite(value: real) | NaN | Infinity(negative: bool)

  /** A row after derivation: the raw columns unchanged plus the derived ones. */
  datatype Record = Record(
    raw: RawRecord,
    activityLevel: Level,
    totalActiveMinutes: int,
    activityPercentage: Quotient,
    isWeekend: bool)

  /** The derived columns of one row. */
  function Derive(raw: RawRecord): (r: Record)
    ensures r.raw == raw
    ensures r.activityLevel == Classify(raw.totalSteps as real)
    ensures r.totalActiveMinutes == raw.veryActiveMinutes + raw.fairlyActiveMinutes + raw.lightlyActiveMinutes
    ensures r.isWeekend <==> DayIndex(raw.dayOfWeek) >= 5
    ensures r.activityPercentage.Finite? <==> r.totalActiveMinutes + raw.sedentaryMinutes != 0
    ensures r.activityPercentage.NaN? <==> r.totalActiveMinutes == 0 && raw.sedentaryMinutes == 0
    ensures r.activityPercentage.Infinity? ==>
      (r.activityPercentage.negative <==> r.totalActiveMinutes < 0)
    ensures r.activityPercentage.Finite? ==>
      r.activityPercentage.value * (r.totalActiveMinutes + raw.sedentaryMinutes) as real
      == 100.0 * r.totalActiveMinutes as real
  {
    var active := raw.veryActiveMinutes + raw.fairlyActiveMinutes + raw.lightlyActiveMinutes;
    var minutes := active + raw.sedentaryMinutes;
    Record(
      raw,
      Classify(raw.totalSteps as real),
      active,
      if minutes != 0 then Finite(active as real / minutes as real * 100.0)
      else if active == 0 then NaN
      else Infinity(active < 0),
      raw.dayOfWeek == Saturday || raw.dayOfWeek == Sunday)
  }

  /** With non-negative minute counts and a non-empty day, the active share is a percentage,
      and it is 0 exactly when nothing was active and 100 exactly when nothing was sedentary. */
  lemma ActivityPercentageBounds(raw: RawRecord)
    requires raw.veryActiveMinutes >= 0 && raw.fairlyActiveMinutes >= 0
    requires raw.lightlyActiveMinutes >= 0 && raw.sedentaryMinutes >= 0
    requires Derive(raw).totalActiveMinutes + raw.sedentaryMinutes > 0
    ensures Derive(raw).activityPercentage.Finite?
    ensures 0.0 <= Derive(raw).activityPercentage.value <= 100.0
    ensures Derive(raw).activityPercentage.value == 0.0 <==> Derive(raw).totalActiveMinutes == 0
    ensures Derive(raw).activityPercentage.value == 100.0 <==> raw.sedentaryMinutes == 0
  {
    var r := Derive(raw);
    var a := r.totalActiveMinutes as real;
    var n := (r.totalActiveMinutes + raw.sedentaryMinutes) as real;
    ShareBounds(r.activityPercentage.value, a, n);
  }

  /** A share `p` of a part `a` of a positive whole `n`, in percent. */
  lemma ShareBounds(p: real, a: real, n: real)
    requires 0.0 <= a <= n && n > 0.0
    requires p * n == 100.0 * a
    ensures 0.0 <= p <= 100.0
    ensures p == 0.0 <==> a == 0.0
    ensures p == 100.0 <==> a == n
  {
    assert p == 100.0 * a / n;
  }

  /** Derivation of a whole table, row by row. */
  function DeriveAll(raws: seq<RawRecord>): (t: seq<Record>)
    ensures |t| == |raws|
    ensures forall i :: 0 <= i < |raws| ==> t[i].raw == raws[i]
    ensures Derived(t)
  {
    if |raws| == 0 then [] else [Derive(raws[0])] + DeriveAll(raws[1..])
  }

  /** Every row's derived columns are the ones `Derive` computes from its raw columns. */
  predicate Derived(t: seq<Record>)
  {
    forall i :: 0 <= i < |t| ==> t[i] == Derive(t[i].raw)
  }

  /** The raw columns of a table, as written to and read back from the exported file. */
  function Raws(t: seq<Record>): (raws: seq<RawRecord>)
    ensures |raws| == |t|
    ensures forall i :: 0 <= i < |t| ==> raws[i] == t[i].raw
  {
    seq(|t|, i requires 0 <= i < |t| => t[i].raw)
  }

  /** Re-deriving an already derived table reproduces it exactly. */
  lemma RederiveIsIdentity(t: seq<Record>)
    requires Derived(t)
    ensures DeriveAll(Raws(t)) == t
  {
  }

  /** Deriving never adds, drops, reorders or alters input rows. */
  lemma DeriveKeepsRows(raws: seq<RawRecord>)
    ensures Raws(DeriveAll(raws)) == raws
  {
  }
}
