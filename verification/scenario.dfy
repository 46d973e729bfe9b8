/**
 A worked example: two users over a Monday and a Tuesday, one record in each
 bucket. It pins the half-open threshold rule at the user level (a mean of
 exactly 7500 steps is Fairly Active) and the per-day means, and it reaches the
 user-level breakdown of the report text, which then raises.
 */
module Scenario {
  import opened Options
  import opened ActivityLevels
  import opened Records
  import opened Groups
  import opened Distribution
  import opened Analysis
  import opened Findings

  const UserA: UserId := 1
  const UserB: UserId := 2

  const Raw: seq<RawRecord> := [
    RawRecord(UserA, Monday, 3000, 1600, 0, 0, 10, 1430),
    RawRecord(UserA, Tuesday, 12000, 2600, 60, 20, 40, 1320),
    RawRecord(UserB, Monday, 8000, 2100, 10, 20, 150, 1260),
    RawRecord(UserB, Tuesday, 6000, 1900, 0, 10, 120, 1310)]

  /** The scenario's derived table. */
  function Table(): seq<Record>
  {
    DeriveAll(Raw)
  }

  /** What the lemmas below use of the table: its raw rows and their buckets. */
  predicate Shaped(t: seq<Record>)
  {
    && |t| == 4
    && (forall i :: 0 <= i < 4 ==> t[i].raw == Raw[i])
    && t[0].activityLevel == Sedentary && t[1].activityLevel == VeryActive
    && t[2].activityLevel == FairlyActive && t[3].activityLevel == LightlyActive
  }

  lemma TableIsShaped()
    ensures Shaped(Table())
  {
    var t := Table();
    assert t[0] == Derive(Raw[0]) && t[1] == Derive(Raw[1]);
    assert t[2] == Derive(Raw[2]) && t[3] == Derive(Raw[3]);
  }

  /** The one-row contribution of `r` to a group. */
  function Keep(r: Record, k: Key): seq<Record>
  {
    if InGroup(r, k) then [r] else []
  }

  /** A group of a four-row table, read off by unfolding the selection row by row. */
  lemma SelectFour(t: seq<Record>, k: Key)
    requires |t| == 4
    ensures Select(t, k) == Keep(t[0], k) + (Keep(t[1], k) + (Keep(t[2], k) + Keep(t[3], k)))
  {
    assert Select(t[4..], k) == [];
    assert Select(t[3..], k) == Keep(t[3], k) by {
      assert t[3..][1..] == t[4..];
    }
    assert Select(t[2..], k) == Keep(t[2], k) + Select(t[3..], k) by {
      assert t[2..][1..] == t[3..];
    }
    assert Select(t[1..], k) == Keep(t[1], k) + Select(t[2..], k) by {
      assert t[1..][1..] == t[2..];
    }
    assert Select(t, k) == Keep(t[0], k) + Select(t[1..], k);
  }

  /** The step total of a two-row group. */
  lemma SumTwo(a: Record, b: Record)
    ensures Sum([a, b], TotalSteps) == a.raw.totalSteps + b.raw.totalSteps
  {
    assert [a, b][1..] == [b];
    assert Sum([b], TotalSteps) == b.raw.totalSteps by {
      assert [b][1..] == [];
    }
  }

  lemma OneRecordPerLevel(t: seq<Record>, l: Level)
    requires Shaped(t)
    ensures |Select(t, AtLevel(l))| == 1
  {
    SelectFour(t, AtLevel(l));
  }

  /** Four records, one per bucket, give a quarter to each bucket. */
  lemma EvenSplit(t: seq<Record>)
    requires |t| == 4
    requires forall l :: |Select(t, AtLevel(l))| == 1
    ensures RecordDistribution(t) == Some(Buckets(25.0, 25.0, 25.0, 25.0))
  {
    var d := RecordDistribution(t).value;
    assert Percent(1, 4) == 25.0;
    assert d == Buckets(d.Get(Sedentary), d.Get(LightlyActive), d.Get(FairlyActive), d.Get(VeryActive));
  }

  /** Each bucket holds one of the four records. */
  lemma ScenarioRecordDistribution()
    ensures RecordDistribution(Table()) == Some(Buckets(25.0, 25.0, 25.0, 25.0))
  {
    var t := Table();
    TableIsShaped();
    forall l ensures |Select(t, AtLevel(l))| == 1 {
      OneRecordPerLevel(t, l);
    }
    EvenSplit(t);
  }

  lemma ShapedUsers(t: seq<Record>)
    requires Shaped(t)
    ensures UserIds(t) == {UserA, UserB}
  {
    assert t[0] in t && t[2] in t;
    forall r | r in t ensures r.raw.id == UserA || r.raw.id == UserB {
      var i :| 0 <= i < 4 && t[i] == r;
    }
  }

  /** User A averages exactly 7500 steps, which the half-open rule puts in Fairly Active. */
  lemma UserAIsFairlyActive(t: seq<Record>)
    requires Shaped(t)
    ensures UserA in UserIds(t)
    ensures UserMeanSteps(t, UserA) == 7500.0
    ensures UserLevels(t)[UserA] == FairlyActive
  {
    assert t[0] in t;
    SelectFour(t, User(UserA));
    assert Select(t, User(UserA)) == [t[0], t[1]];
    SumTwo(t[0], t[1]);
  }

  /** User B averages 7000 steps: Lightly Active. */
  lemma UserBIsLightlyActive(t: seq<Record>)
    requires Shaped(t)
    ensures UserB in UserIds(t)
    ensures UserMeanSteps(t, UserB) == 7000.0
    ensures UserLevels(t)[UserB] == LightlyActive
  {
    assert t[2] in t;
    SelectFour(t, User(UserB));
    assert Select(t, User(UserB)) == [t[2], t[3]];
    SumTwo(t[2], t[3]);
  }

  lemma ShapedUserLevels(t: seq<Record>)
    requires Shaped(t)
    ensures UserLevels(t) == map[UserA := FairlyActive, UserB := LightlyActive]
  {
    ShapedUsers(t);
    UserAIsFairlyActive(t);
    UserBIsLightlyActive(t);
  }

  /** The scenario's two users and their buckets. */
  lemma ScenarioUserLevels()
    ensures UserIds(Table()) == {UserA, UserB}
    ensures UserLevels(Table()) == map[UserA := FairlyActive, UserB := LightlyActive]
  {
    TableIsShaped();
    ShapedUsers(Table());
    ShapedUserLevels(Table());
  }

  /** Monday's mean is the mean of 3000 and 8000 steps. */
  lemma MondayMean(t: seq<Record>)
    requires Shaped(t)
    ensures DayMean(t, Monday) == Some(5500.0)
  {
    SelectFour(t, OnDay(Monday));
    assert Select(t, OnDay(Monday)) == [t[0], t[2]];
    SumTwo(t[0], t[2]);
  }

  lemma ScenarioMondayMean()
    ensures WeeklyPatterns(Table())[0] == Some(5500.0)
  {
    TableIsShaped();
    MondayMean(Table());
  }

  lemma ShapedUsersAt(t: seq<Record>)
    requires Shaped(t)
    ensures UsersAt(t, Sedentary) == {} && UsersAt(t, LightlyActive) == {UserB}
    ensures UsersAt(t, FairlyActive) == {UserA} && UsersAt(t, VeryActive) == {}
  {
    ShapedUsers(t);
    UserAIsFairlyActive(t);
    UserBIsLightlyActive(t);
  }

  /** Two users, one Lightly Active and one Fairly Active, split the users in half. */
  lemma ShapedUserDistribution(t: seq<Record>)
    requires Shaped(t)
    ensures UserDistribution(t) == Some(Buckets(0.0, 50.0, 50.0, 0.0))
  {
    ShapedUsers(t);
    ShapedUsersAt(t);
    assert |UserIds(t)| == 2;
    var d := UserDistribution(t).value;
    assert Percent(1, 2) == 50.0;
    assert Percent(0, 2) == 0.0;
    assert d == Buckets(d.Get(Sedentary), d.Get(LightlyActive), d.Get(FairlyActive), d.Get(VeryActive));
  }

  /** Every bucket has a record, so the record-level paragraph renders; no user is Sedentary,
      so the user-level paragraph raises at its first lookup. */
  lemma ShapedSectionRaisesAtUsers(t: seq<Record>)
    requires Shaped(t)
    ensures RecordBreakdownAsWritten(t).Ok?
    ensures UserBreakdownAsWritten(t) == Err(KeyError(Sedentary))
    ensures BreakdownSectionAsWritten(t) == Err(KeyError(Sedentary))
  {
    forall l ensures |Select(t, AtLevel(l))| > 0 {
      OneRecordPerLevel(t, l);
    }
    ShapedUsersAt(t);
    var u := UserBreakdownAsWritten(t);
    assert |UsersAt(t, Sedentary)| == 0;
    assert Rank(u.error.missing) == 0;
  }

  /** The worked example's report text fails at the user-level 'Sedentary' lookup. */
  lemma ScenarioSectionRaisesAtUsers()
    ensures RecordBreakdownAsWritten(Table()).Ok?
    ensures BreakdownSectionAsWritten(Table()) == Err(KeyError(Sedentary))
  {
    TableIsShaped();
    ShapedSectionRaisesAtUsers(Table());
  }

  /** Half the users are Lightly Active and half Fairly Active. */
  lemma ScenarioUserDistribution()
    ensures UserDistribution(Table()) == Some(Buckets(0.0, 50.0, 50.0, 0.0))
  {
    TableIsShaped();
    ShapedUserDistribution(Table());
  }
}
