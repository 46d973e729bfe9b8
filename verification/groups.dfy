/**
 Column sums, means and group selection over a derived table: the explicit
 counterpart of the pandas `mean()` and `groupby(...)` calls in `analyze_data`.
 */
module Groups {
  import opened Options
  import opened ActivityLevels
  import opened Records

  /** The numeric input columns that the analysis averages. */
  datatype Column = TotalSteps | Calories | VeryActiveMinutes | FairlyActiveMinutes
                  | LightlyActiveMinutes | SedentaryMinutes

  function Value(r: Record, c: Column): int
  {
    match c
    case TotalSteps => r.raw.totalSteps
    case Calories => r.raw.calories
    case VeryActiveMinutes => r.raw.veryActiveMinutes
    case FairlyActiveMinutes => r.raw.fairlyActiveMinutes
    case LightlyActiveMinutes => r.raw.lightlyActiveMinutes
    case SedentaryMinutes => r.raw.sedentaryMinutes
  }

  function Sum(t: seq<Record>, c: Column): int
  {
    if |t| == 0 then 0 else Value(t[0], c) + Sum(t[1..], c)
  }

  lemma {:induction false} SumAppend(a: seq<Record>, b: seq<Record>, c: Column)
    ensures Sum(a + b, c) == Sum(a, c) + Sum(b, c)
  {
    if |a| == 0 {
      assert a + b == b;
    } else {
      assert (a + b)[1..] == a[1..] + b;
      SumAppend(a[1..], b, c);
    }
  }

  /** A column's mean; `None` (pandas' NaN) for an empty table. */
  function Mean(t: seq<Record>, c: Column): (m: Option<real>)
    ensures m.Some? <==> |t| > 0
    ensures m.Some? ==> m.value * |t| as real == Sum(t, c) as real
  {
    if |t| == 0 then None else Some(Sum(t, c) as real / |t| as real)
  }

  /** A sum of values that are each at least `lo` is at least |t|*lo. */
  lemma {:induction false} SumAtLeast(t: seq<Record>, c: Column, lo: int)
    requires forall i :: 0 <= i < |t| ==> lo <= Value(t[i], c)
    ensures |t| * lo <= Sum(t, c)
  {
    if |t| > 0 {
      SumAtLeast(t[1..], c, lo);
    }
  }

  /** A sum of values that are each at most `hi` is at most |t|*hi. */
  lemma {:induction false} SumAtMost(t: seq<Record>, c: Column, hi: int)
    requires forall i :: 0 <= i < |t| ==> Value(t[i], c) <= hi
    ensures Sum(t, c) <= |t| * hi
  {
    if |t| > 0 {
      SumAtMost(t[1..], c, hi);
    }
  }

  /** A mean is at least any lower bound of the values. */
  lemma MeanAtLeast(t: seq<Record>, c: Column, lo: int)
    requires |t| > 0
    requires forall i :: 0 <= i < |t| ==> lo <= Value(t[i], c)
    ensures lo as real <= Mean(t, c).value
  {
    var n := |t| as real;
    var m := Mean(t, c).value;
    assert m * n == Sum(t, c) as real;
    assert n * lo as real <= Sum(t, c) as real by {
      SumAtLeast(t, c, lo);
    }
    ScaleBack(m, n, lo as real, m);
  }

  /** A mean is at most any upper bound of the values. */
  lemma MeanAtMost(t: seq<Record>, c: Column, hi: int)
    requires |t| > 0
    requires forall i :: 0 <= i < |t| ==> Value(t[i], c) <= hi
    ensures Mean(t, c).value <= hi as real
  {
    var n := |t| as real;
    var m := Mean(t, c).value;
    assert m * n == Sum(t, c) as real;
    assert Sum(t, c) as real <= n * hi as real by {
      SumAtMost(t, c, hi);
    }
    ScaleBack(m, n, m, hi as real);
  }

  lemma ScaleBack(m: real, n: real, lo: real, hi: real)
    requires n > 0.0
    requires n * lo <= m * n <= n * hi
    ensures lo <= m <= hi
  {
  }

  /** The grouping keys of the analysis. */
  datatype Key = User(id: UserId) | OnDay(day: Day) | Weekend(flag: bool) | AtLevel(level: Level)

  predicate InGroup(r: Record, k: Key)
  {
    match k
    case User(id) => r.raw.id == id
    case OnDay(d) => r.raw.dayOfWeek == d
    case Weekend(b) => r.isWeekend == b
    case AtLevel(l) => r.activityLevel == l
  }

  /** The rows of a group, in table order: each row of `t` is kept, with its multiplicity,
      exactly when it belongs to the group. */
  function Select(t: seq<Record>, k: Key): (g: seq<Record>)
    ensures |g| <= |t|
    ensures forall i :: 0 <= i < |g| ==> InGroup(g[i], k)
  {
    if |t| == 0 then []
    else
      assert t == [t[0]] + t[1..];
      (if InGroup(t[0], k) then [t[0]] else []) + Select(t[1..], k)
  }

  /** A group keeps each of its rows with the multiplicity it has in the table. */
  lemma {:induction false} SelectCounts(t: seq<Record>, k: Key)
    ensures forall r :: multiset(Select(t, k))[r] == if InGroup(r, k) then multiset(t)[r] else 0
  {
    if |t| > 0 {
      assert t == [t[0]] + t[1..];
      SelectCounts(t[1..], k);
      SelectCons(t[0], t[1..], k);
    }
  }

  /** A row is in a group exactly when it is in the table and belongs to the group. */
  lemma SelectMembers(t: seq<Record>, k: Key)
    ensures forall r :: r in Select(t, k) <==> r in t && InGroup(r, k)
  {
    SelectCounts(t, k);
    forall r ensures r in Select(t, k) <==> r in t && InGroup(r, k) {
      assert r in Select(t, k) <==> multiset(Select(t, k))[r] > 0;
      assert r in t <==> multiset(t)[r] > 0;
    }
  }

  /** A group is empty exactly when no row of the table belongs to it. */
  lemma EmptyGroup(t: seq<Record>, k: Key)
    ensures |Select(t, k)| == 0 <==> forall r :: r in t ==> !InGroup(r, k)
  {
    SelectMembers(t, k);
    if |Select(t, k)| > 0 {
      assert Select(t, k)[0] in Select(t, k);
    }
  }

  lemma SelectCons(r: Record, s: seq<Record>, k: Key)
    ensures Select([r] + s, k) == if InGroup(r, k) then [r] + Select(s, k) else Select(s, k)
  {
    assert ([r] + s)[1..] == s;
  }

  lemma SumCons(r: Record, s: seq<Record>, c: Column)
    ensures Sum([r] + s, c) == Value(r, c) + Sum(s, c)
  {
    assert ([r] + s)[1..] == s;
  }

  /** The weekday and weekend groups split the table: every row is in exactly one of them. */
  lemma WeekendPartition(t: seq<Record>)
    ensures multiset(Select(t, Weekend(false))) + multiset(Select(t, Weekend(true))) == multiset(t)
    ensures |Select(t, Weekend(false))| + |Select(t, Weekend(true))| == |t|
  {
    var weekdays, weekends := multiset(Select(t, Weekend(false))), multiset(Select(t, Weekend(true)));
    SelectCounts(t, Weekend(false));
    SelectCounts(t, Weekend(true));
    assert forall r :: (weekdays + weekends)[r] == multiset(t)[r];
    assert weekdays + weekends == multiset(t);
  }

  /** Hence each column's sums over the two groups add up to its sum over the table. */
  lemma {:induction false} WeekendPartitionSums(t: seq<Record>, c: Column)
    ensures Sum(Select(t, Weekend(false)), c) + Sum(Select(t, Weekend(true)), c) == Sum(t, c)
  {
    if |t| > 0 {
      var rest := t[1..];
      assert t == [t[0]] + rest;
      WeekendPartitionSums(rest, c);
      SumCons(t[0], rest, c);
      var b := t[0].isWeekend;
      SelectCons(t[0], rest, Weekend(b));
      SelectCons(t[0], rest, Weekend(!b));
      SumCons(t[0], Select(rest, Weekend(b)), c);
      if b {
        assert Sum(Select(t, Weekend(true)), c) == Value(t[0], c) + Sum(Select(rest, Weekend(true)), c);
        assert Select(t, Weekend(false)) == Select(rest, Weekend(false));
      } else {
        assert Sum(Select(t, Weekend(false)), c) == Value(t[0], c) + Sum(Select(rest, Weekend(false)), c);
        assert Select(t, Weekend(true)) == Select(rest, Weekend(true));
      }
    }
  }
}
