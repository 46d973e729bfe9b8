/**
 The two bucket distributions of `analyze_data`: the share of records in each
 activity bucket, and the share of users whose mean daily steps fall in each
 bucket. A distribution always carries all four buckets.
 */
module Distribution {
  import opened Options
  import opened ActivityLevels
  import opened Records
  import opened Groups

  /** One value per bucket; no bucket can be missing. */
  datatype Buckets<T> = Buckets(sedentary: T, lightlyActive: T, fairlyActive: T, veryActive: T)
  {
    function Get(l: Level): T
    {
      match l
      case Sedentary => sedentary
      case LightlyActive => lightlyActive
      case FairlyActive => fairlyActive
      case VeryActive => veryActive
    }
  }

  function TotalCount(c: Buckets<nat>): nat
  {
    c.sedentary + c.lightlyActive + c.fairlyActive + c.veryActive
  }

  function TotalShare(p: Buckets<real>): real
  {
    p.sedentary + p.lightlyActive + p.fairlyActive + p.veryActive
  }

  const NoCounts: Buckets<nat> := Buckets(0, 0, 0, 0)

  /** Counts one more occurrence of bucket `l`. */
  function Bump(c: Buckets<nat>, l: Level): (d: Buckets<nat>)
    ensures d.Get(l) == c.Get(l) + 1
    ensures forall m :: m != l ==> d.Get(m) == c.Get(m)
    ensures TotalCount(d) == TotalCount(c) + 1
  {
    match l
    case Sedentary => c.(sedentary := c.sedentary + 1)
    case LightlyActive => c.(lightlyActive := c.lightlyActive + 1)
    case FairlyActive => c.(fairlyActive := c.fairlyActive + 1)
    case VeryActive => c.(veryActive := c.veryActive + 1)
  }

  /** The number of occurrences of each bucket in `ls`, zero for buckets that do not occur. */
  function Tally(ls: seq<Level>): (c: Buckets<nat>)
    ensures forall l :: c.Get(l) == multiset(ls)[l]
    ensures TotalCount(c) == |ls|
  {
    if |ls| == 0 then NoCounts
    else
      var init := ls[..|ls| - 1];
      assert ls == init + [ls[|ls| - 1]];
      Bump(Tally(init), ls[|ls| - 1])
  }

  /** The percentage that a count `x` is of a positive total `n`. */
  function Percent(x: nat, n: nat): (p: real)
    requires x <= n && n > 0
    ensures p * n as real == 100.0 * x as real
    ensures 0.0 <= p <= 100.0
    ensures p == 0.0 <==> x == 0
  {
    100.0 * x as real / n as real
  }

  /** The percentages of four counts that make up a total add up to 100. */
  lemma PercentsAddUp(a: nat, b: nat, c: nat, d: nat, n: nat)
    requires n > 0 && a + b + c + d == n
    ensures Percent(a, n) + Percent(b, n) + Percent(c, n) + Percent(d, n) == 100.0
  {
    var m := n as real;
    var total := Percent(a, n) + Percent(b, n) + Percent(c, n) + Percent(d, n);
    calc {
      total * m;
      Percent(a, n) * m + Percent(b, n) * m + Percent(c, n) * m + Percent(d, n) * m;
      100.0 * a as real + 100.0 * b as real + 100.0 * c as real + 100.0 * d as real;
      100.0 * m;
    }
    ScaleBack(total, m, 100.0, 100.0);
  }

  /** Each bucket's count as a percentage of the total (`value_counts(normalize=True) * 100`). */
  function Percentages(c: Buckets<nat>): (p: Buckets<real>)
    requires TotalCount(c) > 0
    ensures forall l :: c.Get(l) <= TotalCount(c) && p.Get(l) == Percent(c.Get(l), TotalCount(c))
    ensures TotalShare(p) == 100.0
  {
    var n := TotalCount(c);
    PercentsAddUp(c.sedentary, c.lightlyActive, c.fairlyActive, c.veryActive, n);
    Buckets(Percent(c.sedentary, n), Percent(c.lightlyActive, n),
            Percent(c.fairlyActive, n), Percent(c.veryActive, n))
  }

  // ---------------------------------------------------------------------------
  // Record-level distribution
  // ---------------------------------------------------------------------------

  /** The `ActivityLevel` column. */
  function LevelsOf(t: seq<Record>): (ls: seq<Level>)
    ensures |ls| == |t|
    ensures forall i :: 0 <= i < |t| ==> ls[i] == t[i].activityLevel
  {
    if |t| == 0 then [] else [t[0].activityLevel] + LevelsOf(t[1..])
  }

  /** The occurrences of a bucket in the level column are the records of that bucket. */
  lemma {:induction false} LevelCountIsGroupSize(t: seq<Record>, l: Level)
    ensures multiset(LevelsOf(t))[l] == |Select(t, AtLevel(l))|
  {
    if |t| > 0 {
      LevelCountIsGroupSize(t[1..], l);
      var head := if t[0].activityLevel == l then 1 else 0;
      assert |Select(t, AtLevel(l))| == head + |Select(t[1..], AtLevel(l))|;
      assert multiset(LevelsOf(t)) == multiset([t[0].activityLevel]) + multiset(LevelsOf(t[1..]));
    }
  }

  /** The number of records in each bucket. */
  function RecordCounts(t: seq<Record>): (c: Buckets<nat>)
    ensures forall l :: c.Get(l) == |Select(t, AtLevel(l))|
    ensures TotalCount(c) == |t|
  {
    var c := Tally(LevelsOf(t));
    assert forall l :: c.Get(l) == |Select(t, AtLevel(l))| by {
      forall l ensures c.Get(l) == |Select(t, AtLevel(l))| {
        LevelCountIsGroupSize(t, l);
      }
    }
    c
  }

  /** `activity_distribution`: the percentage of records in each bucket; `None` for an empty
      table. A bucket without records reads 0 rather than being absent. */
  function RecordDistribution(t: seq<Record>): (d: Option<Buckets<real>>)
    ensures d.Some? <==> |t| > 0
    ensures d.Some? ==> TotalShare(d.value) == 100.0
    ensures d.Some? ==> forall l :: d.value.Get(l) == Percent(|Select(t, AtLevel(l))|, |t|)
    ensures d.Some? ==> forall l ::
      d.value.Get(l) == 0.0 <==> forall r :: r in t ==> r.activityLevel != l
  {
    if |t| == 0 then None
    else
      var c := RecordCounts(t);
      var p := Percentages(c);
      assert forall l :: p.Get(l) == 0.0 <==> forall r :: r in t ==> r.activityLevel != l by {
        forall l ensures p.Get(l) == 0.0 <==> forall r :: r in t ==> r.activityLevel != l {
          EmptyGroup(t, AtLevel(l));
        }
      }
      Some(p)
  }

  /** The record counts of the four buckets add up to the number of records. */
  lemma RecordCountsCoverTable(t: seq<Record>)
    ensures |Select(t, AtLevel(Sedentary))| + |Select(t, AtLevel(LightlyActive))|
          + |Select(t, AtLevel(FairlyActive))| + |Select(t, AtLevel(VeryActive))| == |t|
  {
    var c := Tally(LevelsOf(t));
    LevelCountIsGroupSize(t, Sedentary);
    LevelCountIsGroupSize(t, LightlyActive);
    LevelCountIsGroupSize(t, FairlyActive);
    LevelCountIsGroupSize(t, VeryActive);
    assert TotalCount(c) == c.Get(Sedentary) + c.Get(LightlyActive) + c.Get(FairlyActive) + c.Get(VeryActive);
  }

  // ---------------------------------------------------------------------------
  // User-level distribution
  // ---------------------------------------------------------------------------

  predicate Distinct<T(==)>(s: seq<T>)
  {
    forall i, j :: 0 <= i < j < |s| ==> s[i] != s[j]
  }

  /** The user ids present in a table (`df['Id'].unique()`). */
  function UserIds(t: seq<Record>): set<UserId>
  {
    set r | r in t :: r.raw.id
  }

  /** The user ids of a table, each listed once, in order of first appearance. */
  function Users(t: seq<Record>): (ids: seq<UserId>)
    ensures Distinct(ids)
    ensures |ids| <= |t|
    ensures forall id :: id in ids <==> id in UserIds(t)
  {
    if |t| == 0 then []
    else
      var rest := Users(t[1..]);
      assert forall r :: r in t <==> r == t[0] || r in t[1..] by {
        assert t == [t[0]] + t[1..];
      }
      if t[0].raw.id in rest then rest else [t[0].raw.id] + rest
  }

  /** A sequence without repetitions has as many elements as its set of elements. */
  lemma {:induction false} DistinctSize<T>(s: seq<T>)
    requires Distinct(s)
    ensures |set x | x in s| == |s|
  {
    if |s| > 0 {
      DistinctSize(s[1..]);
      assert (set x | x in s) == {s[0]} + (set x | x in s[1..]) by {
        assert s == [s[0]] + s[1..];
      }
      assert s[0] !in s[1..];
    }
  }

  /** `unique_users` (`df['Id'].nunique()`): one per distinct id, never more than the records,
      and zero only for an empty table. */
  lemma UniqueUsersCount(t: seq<Record>)
    ensures |Users(t)| == |UserIds(t)|
    ensures |UserIds(t)| <= |t|
    ensures |UserIds(t)| == 0 <==> |t| == 0
  {
    var ids := Users(t);
    DistinctSize(ids);
    assert (set x | x in ids) == UserIds(t);
    if |t| > 0 {
      assert t[0].raw.id in UserIds(t);
    }
  }

  /** A listed user has at least one record. */
  lemma UserHasRecords(t: seq<Record>, id: UserId)
    requires id in UserIds(t)
    ensures |Select(t, User(id))| > 0
  {
    var r :| r in t && r.raw.id == id;
    SelectMembers(t, User(id));
    assert r in Select(t, User(id));
  }

  /** A user's mean daily steps (`df.groupby('Id')['TotalSteps'].mean()`). */
  function UserMeanSteps(t: seq<Record>, id: UserId): (m: real)
    requires id in UserIds(t)
    ensures m * |Select(t, User(id))| as real == Sum(Select(t, User(id)), TotalSteps) as real
  {
    var g := Select(t, User(id));
    UserHasRecords(t, id);
    var mean := Mean(g, TotalSteps);
    assert mean.value * |g| as real == Sum(g, TotalSteps) as real;
    mean.value
  }

  /** Each user's bucket: the shared classifier applied to the user's mean steps
      (`user_stats`, line 69). */
  function UserLevels(t: seq<Record>): (m: map<UserId, Level>)
    ensures m.Keys == UserIds(t)
    ensures forall id :: id in m ==> m[id] == Classify(UserMeanSteps(t, id))
  {
    map id | id in UserIds(t) :: Classify(UserMeanSteps(t, id))
  }

  /** The users of a table whose bucket is `l`. */
  function UsersAt(t: seq<Record>, l: Level): set<UserId>
  {
    var m := UserLevels(t);
    set id | id in m && m[id] == l
  }

  /** The buckets of the listed users, in list order. */
  function LevelsFor(m: map<UserId, Level>, ids: seq<UserId>): (ls: seq<Level>)
    requires forall i :: 0 <= i < |ids| ==> ids[i] in m
    ensures |ls| == |ids|
  {
    if |ids| == 0 then [] else [m[ids[0]]] + LevelsFor(m, ids[1..])
  }

  /** The users of a list whose bucket is `l`. */
  function UsersListedAt(m: map<UserId, Level>, ids: seq<UserId>, l: Level): set<UserId>
    requires forall i :: 0 <= i < |ids| ==> ids[i] in m
  {
    set id | id in ids && m[id] == l
  }

  /** Removing the head of a list without repetitions removes at most that user from a bucket. */
  lemma UsersListedAtTail(m: map<UserId, Level>, ids: seq<UserId>, l: Level)
    requires |ids| > 0 && ids[0] !in ids[1..]
    requires forall i :: 0 <= i < |ids| ==> ids[i] in m
    ensures |UsersListedAt(m, ids, l)| == |UsersListedAt(m, ids[1..], l)| + if m[ids[0]] == l then 1 else 0
  {
    var rest := ids[1..];
    var all, tail := UsersListedAt(m, ids, l), UsersListedAt(m, rest, l);
    var head: set<UserId> := if m[ids[0]] == l then {ids[0]} else {};
    assert forall x :: x in ids <==> x == ids[0] || x in rest by {
      assert ids == [ids[0]] + rest;
    }
    assert all == tail + head by {
      forall x ensures x in all <==> x in tail + head {
      }
    }
    assert ids[0] !in tail;
  }

  /** Over a list of distinct users, a bucket occurs once per user in that bucket. */
  lemma {:induction false} LevelsForCount(m: map<UserId, Level>, ids: seq<UserId>, l: Level)
    requires forall i :: 0 <= i < |ids| ==> ids[i] in m
    requires Distinct(ids)
    ensures multiset(LevelsFor(m, ids))[l] == |UsersListedAt(m, ids, l)|
  {
    if |ids| > 0 {
      LevelsForCount(m, ids[1..], l);
      UsersListedAtTail(m, ids, l);
    }
  }

  /** Listing every user of the table once gives every user of each bucket. */
  lemma AllUsersListed(t: seq<Record>, l: Level)
    ensures forall i :: 0 <= i < |Users(t)| ==> Users(t)[i] in UserLevels(t)
    ensures UsersListedAt(UserLevels(t), Users(t), l) == UsersAt(t, l)
  {
  }

  /** `user_stats`: each distinct user's bucket, one entry per user, in first-appearance
      order; each bucket occurs once per user in it. */
  function UserLevelList(t: seq<Record>): (ls: seq<Level>)
    ensures |ls| == |UserIds(t)|
    ensures forall l :: multiset(ls)[l] == |UsersAt(t, l)|
  {
    var ids := Users(t);
    var m := UserLevels(t);
    UniqueUsersCount(t);
    AllUsersListed(t, Sedentary);
    assert forall l :: multiset(LevelsFor(m, ids))[l] == |UsersAt(t, l)| by {
      forall l ensures multiset(LevelsFor(m, ids))[l] == |UsersAt(t, l)| {
        LevelsForCount(m, ids, l);
        AllUsersListed(t, l);
      }
    }
    LevelsFor(m, ids)
  }

  /** The number of users in each bucket. */
  function UserCounts(t: seq<Record>): (c: Buckets<nat>)
    ensures forall l :: c.Get(l) == |UsersAt(t, l)|
    ensures TotalCount(c) == |UserIds(t)|
  {
    Tally(UserLevelList(t))
  }

  /** `user_activity_levels`: the percentage of distinct users in each bucket; `None` for an
      empty table. */
  function UserDistribution(t: seq<Record>): (d: Option<Buckets<real>>)
    ensures d.Some? <==> |t| > 0
    ensures d.Some? ==> TotalShare(d.value) == 100.0
    ensures d.Some? ==> |UserIds(t)| > 0
    ensures d.Some? ==> forall l ::
      |UsersAt(t, l)| <= |UserIds(t)| && d.value.Get(l) == Percent(|UsersAt(t, l)|, |UserIds(t)|)
  {
    UniqueUsersCount(t);
    if |t| == 0 then None else Some(Percentages(UserCounts(t)))
  }

  /** The user counts of the four buckets add up to the number of distinct users. */
  lemma UserCountsCoverUsers(t: seq<Record>)
    ensures |UsersAt(t, Sedentary)| + |UsersAt(t, LightlyActive)|
          + |UsersAt(t, FairlyActive)| + |UsersAt(t, VeryActive)| == |UserIds(t)|
  {
    var c := UserCounts(t);
    assert TotalCount(c) == c.Get(Sedentary) + c.Get(LightlyActive) + c.Get(FairlyActive) + c.Get(VeryActive);
  }

  /** Both distributions use one classifier: a user all of whose records lie in one bucket
      is placed in that same bucket, because each bucket is an interval of step counts. */
  lemma UniformUserKeepsBucket(t: seq<Record>, id: UserId, l: Level)
    requires Derived(t)
    requires id in UserIds(t)
    requires forall r :: r in t && r.raw.id == id ==> r.activityLevel == l
    ensures UserLevels(t)[id] == l
  {
    var g := Select(t, User(id));
    UserHasRecords(t, id);
    SelectMembers(t, User(id));
    assert forall i :: 0 <= i < |g| ==> g[i] in t && g[i].raw.id == id;
    assert forall i :: 0 <= i < |g| ==> Classify(Value(g[i], TotalSteps) as real) == l;
    var m := UserMeanSteps(t, id);
    assert m == Mean(g, TotalSteps).value;
    forall i | 0 <= i < |g|
      ensures InBucketSteps(Value(g[i], TotalSteps), l)
    {
      ClassifyBands(Value(g[i], TotalSteps) as real);
    }
    match l
    case Sedentary =>
      MeanAtMost(g, TotalSteps, 4999);
    case LightlyActive =>
      MeanAtLeast(g, TotalSteps, 5000);
      MeanAtMost(g, TotalSteps, 7499);
    case FairlyActive =>
      MeanAtLeast(g, TotalSteps, 7500);
      MeanAtMost(g, TotalSteps, 9999);
    case VeryActive =>
      MeanAtLeast(g, TotalSteps, 10000);
    ClassifyBands(m);
  }

  /** The integer step counts of a bucket. */
  predicate InBucketSteps(steps: int, l: Level)
  {
    match l
    case Sedentary => steps <= 4999
    case LightlyActive => 5000 <= steps <= 7499
    case FairlyActive => 7500 <= steps <= 9999
    case VeryActive => 10000 <= steps
  }
}
