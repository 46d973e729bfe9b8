/**
 Two defects of the script, each modelled as written next to the corrected
 behaviour the rest of the model uses.

 1. The classifier is defined inside `load_and_clean_data`, but `analyze_data`
    refers to it by name when classifying users' mean steps. Python resolves
    that name in the function's locals and then the script's globals, finds it
    in neither, and raises `NameError` on every non-empty table. (An empty table
    fails earlier, when the basic statistics format the date range.)

 2. `value_counts` yields a series indexed only by the labels that occur, while
    the report text looks up all four labels; a table in which some bucket is
    empty raises `KeyError`.
 */
module Findings {
  import opened Options
  import opened ActivityLevels
  import opened Records
  import opened Groups
  import opened Distribution
  import opened Analysis

  // ---------------------------------------------------------------------------
  // Name resolution of the classifier
  // ---------------------------------------------------------------------------

  const ClassifierName: string := "classify_activity_level"

  /** Names bound inside `analyze_data` itself. */
  const AnalyzeLocals: set<string> :=
    {"df", "analysis_results", "user_stats", "day_order", "weekly_patterns", "weekend_comparison"}

  /** The script's globals when `analyze_data` runs: its imports and top-level definitions. */
  const GlobalsAsWritten: set<string> :=
    {"pd", "np", "plt", "sns", "datetime", "PdfPages", "warnings",
     "load_and_clean_data", "df", "analyze_data"}

  /** The same globals with the classifier moved to the top level of the script. */
  const GlobalsCorrected: set<string> := GlobalsAsWritten + {ClassifierName}

  /** `analyze_data` run against the given globals. The `basic_stats` literal is evaluated
      first; then the user-level step looks the classifier up in the function's locals and
      then in the globals. */
  function AnalyzeWith(globals: set<string>, t: seq<Record>): (r: Result<AnalysisResult, Fault>)
    ensures |t| == 0 ==> r == Err(ValueError(NaTFormatError))
    ensures |t| > 0 ==> (r.Ok? <==> ClassifierName in globals)
    ensures r.Ok? ==> r == Analyze(t)
    ensures |t| > 0 && r.Err? ==> r.error == NameError(ClassifierName)
  {
    assert ClassifierName !in AnalyzeLocals;
    var stats := ComputeBasicStats(t);
    if stats.Err? then Err(stats.error)
    else if ClassifierName in AnalyzeLocals + globals then Analyze(t)
    else Err(NameError(ClassifierName))
  }

  /** As written, the analysis never completes: every non-empty table reaches the lookup
      and fails there, because the classifier is bound only among the locals of
      `load_and_clean_data`, which no other function sees. */
  lemma AnalyzeAsWrittenAlwaysFails(t: seq<Record>)
    ensures AnalyzeWith(GlobalsAsWritten, t).Err?
    ensures |t| > 0 ==> AnalyzeWith(GlobalsAsWritten, t) == Err(NameError(ClassifierName))
  {
    assert ClassifierName !in GlobalsAsWritten;
  }

  /** With the classifier at the top level, the analysis is the one `Analyze` describes,
      and it completes for every non-empty table. */
  lemma AnalyzeCorrectedSucceeds(t: seq<Record>)
    ensures AnalyzeWith(GlobalsCorrected, t) == Analyze(t)
    ensures AnalyzeWith(GlobalsCorrected, t).Ok? <==> |t| > 0
  {
  }

  // ---------------------------------------------------------------------------
  // Missing buckets in the report text
  // ---------------------------------------------------------------------------

  /** `value_counts(normalize=True) * 100`: a series indexed by exactly the labels that
      occur, each with its share of the labels in percent. */
  function ValueCounts(ls: seq<Level>): (m: map<Level, real>)
    ensures forall l :: l in m <==> l in ls
    ensures forall l :: l in m ==> multiset(ls)[l] <= |ls| && m[l] == Percent(multiset(ls)[l], |ls|)
  {
    if |ls| == 0 then map[]
    else
      var p := Percentages(Tally(ls));
      map l | l in ls :: p.Get(l)
  }

  /** The four lookups of one breakdown paragraph, in the order the text lists them:
      the first label missing from the series raises. */
  function BreakdownAsWritten(m: map<Level, real>): (r: Result<Buckets<real>, Fault>)
    ensures r.Ok? <==> forall l :: l in m
    ensures r.Ok? ==> forall l :: r.value.Get(l) == m[l]
    ensures r.Err? ==> r.error.KeyError? && r.error.missing !in m
    ensures r.Err? ==> forall l :: Rank(l) < Rank(r.error.missing) ==> l in m
  {
    if Sedentary !in m then Err(KeyError(Sedentary))
    else if LightlyActive !in m then Err(KeyError(LightlyActive))
    else if FairlyActive !in m then Err(KeyError(FairlyActive))
    else if VeryActive !in m then Err(KeyError(VeryActive))
    else
      assert forall l :: l in m by {
        forall l ensures l in m { assert l.Sedentary? || l.LightlyActive? || l.FairlyActive? || l.VeryActive?; }
      }
      Ok(Buckets(m[Sedentary], m[LightlyActive], m[FairlyActive], m[VeryActive]))
  }

  /** One breakdown paragraph over a column of labels: it renders when every label occurs,
      showing the `value_counts` entries, and otherwise raises on a label that does not. */
  function BreakdownOfColumn(ls: seq<Level>): (r: Result<Buckets<real>, Fault>)
    ensures r.Ok? <==> forall l :: l in ls
    ensures r.Ok? ==> forall l :: l in ValueCounts(ls) && r.value.Get(l) == ValueCounts(ls)[l]
    ensures r.Err? ==> r.error.KeyError? && r.error.missing !in ls
    ensures r.Err? ==> forall l :: Rank(l) < Rank(r.error.missing) ==> l in ls
  {
    var m := ValueCounts(ls);
    assert (forall l :: l in m) <==> (forall l :: l in ls);
    BreakdownAsWritten(m)
  }

  /** The record-level paragraph as written, over the `ActivityLevel` column. */
  function RecordBreakdownAsWritten(t: seq<Record>): (r: Result<Buckets<real>, Fault>)
    ensures r.Ok? <==> forall l :: |Select(t, AtLevel(l))| > 0
    ensures r.Err? ==> r.error.KeyError? && Select(t, AtLevel(r.error.missing)) == []
    ensures r.Err? ==> forall l :: Rank(l) < Rank(r.error.missing) ==> |Select(t, AtLevel(l))| > 0
  {
    var r := BreakdownOfColumn(LevelsOf(t));
    forall l ensures l in LevelsOf(t) <==> |Select(t, AtLevel(l))| > 0 {
      LevelOccurs(t, l);
    }
    r
  }

  /** The user-level paragraph as written, over the users' levels in first-appearance order. */
  function UserBreakdownAsWritten(t: seq<Record>): (r: Result<Buckets<real>, Fault>)
    ensures r.Ok? <==> forall l :: |UsersAt(t, l)| > 0
    ensures r.Err? ==> r.error.KeyError? && UsersAt(t, r.error.missing) == {}
    ensures r.Err? ==> forall l :: Rank(l) < Rank(r.error.missing) ==> |UsersAt(t, l)| > 0
  {
    var ls := UserLevelList(t);
    var r := BreakdownOfColumn(ls);
    forall l ensures l in ls <==> |UsersAt(t, l)| > 0 {
      assert l in ls <==> multiset(ls)[l] > 0;
    }
    r
  }

  /** A level occurs among a table's record levels exactly when its group is not empty. */
  lemma LevelOccurs(t: seq<Record>, l: Level)
    ensures l in LevelsOf(t) <==> |Select(t, AtLevel(l))| > 0
  {
    LevelCountIsGroupSize(t, l);
    assert l in LevelsOf(t) <==> multiset(LevelsOf(t))[l] > 0;
  }

  /** For any list of labels, the four lookups succeed exactly when every label occurs,
      and then read the same percentages as the total distribution. */
  lemma BreakdownOfLabels(ls: seq<Level>)
    ensures BreakdownAsWritten(ValueCounts(ls)).Ok? <==> forall l :: l in ls
    ensures BreakdownAsWritten(ValueCounts(ls)).Ok? ==>
      TotalCount(Tally(ls)) > 0 && BreakdownAsWritten(ValueCounts(ls)).value == Percentages(Tally(ls))
  {
    var r := BreakdownAsWritten(ValueCounts(ls));
    if r.Ok? {
      assert Sedentary in ls;
      var p := Percentages(Tally(ls));
      assert r.value == Buckets(p.Get(Sedentary), p.Get(LightlyActive), p.Get(FairlyActive), p.Get(VeryActive));
    }
  }

  /** The record-level paragraph renders exactly when every bucket has a record, and then
      shows the corrected distribution. */
  lemma RecordBreakdownAsWrittenAgrees(t: seq<Record>)
    ensures RecordBreakdownAsWritten(t).Ok? <==> forall l :: |Select(t, AtLevel(l))| > 0
    ensures RecordBreakdownAsWritten(t).Ok? ==>
      RecordDistribution(t).Some? && RecordBreakdownAsWritten(t).value == RecordDistribution(t).value
  {
    var ls := LevelsOf(t);
    BreakdownOfLabels(ls);
    if RecordBreakdownAsWritten(t).Ok? {
      assert |t| > 0;
      assert RecordDistribution(t).value == Percentages(Tally(ls));
    }
  }

  /** Where the as-written series has an entry it equals the corrected share; the labels it
      lacks are exactly the buckets the corrected distribution reports as 0. */
  lemma RecordValueCountsMatchDistribution(t: seq<Record>, l: Level)
    requires |t| > 0
    ensures l in ValueCounts(LevelsOf(t)) ==>
      ValueCounts(LevelsOf(t))[l] == RecordDistribution(t).value.Get(l)
    ensures l !in ValueCounts(LevelsOf(t)) <==> RecordDistribution(t).value.Get(l) == 0.0
  {
    LevelOccurs(t, l);
    LevelCountIsGroupSize(t, l);
    EmptyGroup(t, AtLevel(l));
  }

  /** The user-level paragraph renders exactly when every bucket has a user, and then shows
      the corrected user distribution. */
  lemma UserBreakdownAsWrittenAgrees(t: seq<Record>)
    ensures UserBreakdownAsWritten(t).Ok? <==> forall l :: |UsersAt(t, l)| > 0
    ensures UserBreakdownAsWritten(t).Ok? ==>
      UserDistribution(t).Some? && UserBreakdownAsWritten(t).value == UserDistribution(t).value
  {
    var ls := UserLevelList(t);
    BreakdownOfLabels(ls);
    assert UserBreakdownAsWritten(t) == BreakdownAsWritten(ValueCounts(ls));
    if UserBreakdownAsWritten(t).Ok? {
      assert |t| > 0 by {
        UniqueUsersCount(t);
      }
      assert UserDistribution(t).value == Percentages(Tally(ls));
    }
  }

  /** The activity breakdown of the report's detailed page as written: one f-string holding
      the record-level paragraph and then the user-level one. It is evaluated left to right,
      so the first lookup that raises ends it. When it renders, it shows the corrected
      record and user distributions. */
  function BreakdownSectionAsWritten(t: seq<Record>): (r: Result<(Buckets<real>, Buckets<real>), Fault>)
    ensures r.Ok? <==> (forall l :: |Select(t, AtLevel(l))| > 0) && (forall l :: |UsersAt(t, l)| > 0)
    ensures r.Ok? ==> RecordDistribution(t).Some? && UserDistribution(t).Some?
    ensures r.Ok? ==> r.value == (RecordDistribution(t).value, UserDistribution(t).value)
    ensures RecordBreakdownAsWritten(t).Err? ==> r == Err(RecordBreakdownAsWritten(t).error)
    ensures RecordBreakdownAsWritten(t).Ok? && UserBreakdownAsWritten(t).Err? ==>
      r == Err(UserBreakdownAsWritten(t).error)
  {
    var records := RecordBreakdownAsWritten(t);
    if records.Err? then Err(records.error)
    else
      var users := UserBreakdownAsWritten(t);
      if users.Err? then Err(users.error)
      else
        RecordBreakdownAsWrittenAgrees(t);
        UserBreakdownAsWrittenAgrees(t);
        Ok((records.value, users.value))
  }

  /** One user's single low-step day: the record and the user are both Sedentary. */
  const LowStepDay: RawRecord := RawRecord(1, Monday, 3000, 1800, 0, 0, 120, 1320)

  lemma LowStepTable()
    ensures DeriveAll([LowStepDay]) == [Derive(LowStepDay)]
    ensures Derive(LowStepDay).activityLevel == Sedentary
  {
  }

  /** As written, the record-level paragraph stops at its second lookup. */
  lemma OnlySedentaryRecordsRaiseKeyError()
    ensures RecordBreakdownAsWritten(DeriveAll([LowStepDay])) == Err(KeyError(LightlyActive))
  {
    LowStepTable();
    var t := DeriveAll([LowStepDay]);
    LevelOccurs(t, Sedentary);
    LevelOccurs(t, LightlyActive);
    EmptyGroup(t, AtLevel(LightlyActive));
    EmptyGroup(t, AtLevel(Sedentary));
    RecordBreakdownAsWrittenAgrees(t);
  }

  /** Corrected, the same table reports every record as Sedentary. */
  lemma OnlySedentaryRecordsDistribution()
    ensures RecordDistribution(DeriveAll([LowStepDay])) == Some(Buckets(100.0, 0.0, 0.0, 0.0))
  {
    LowStepTable();
    var t := DeriveAll([LowStepDay]);
    var d := RecordDistribution(t).value;
    assert Select(t, AtLevel(Sedentary)) == t;
    assert d.Get(Sedentary) == 100.0;
  }

  /** The table's only user, with mean steps 3000, is Sedentary. */
  lemma LowStepUser()
    ensures UserIds(DeriveAll([LowStepDay])) == {1}
    ensures UsersAt(DeriveAll([LowStepDay]), Sedentary) == {1}
    ensures forall l :: l != Sedentary ==> UsersAt(DeriveAll([LowStepDay]), l) == {}
  {
    LowStepTable();
    var t := DeriveAll([LowStepDay]);
    assert t[0] in t;
    assert UserIds(t) == {1};
    assert Select(t, User(1)) == t;
    assert Sum(t, TotalSteps) == 3000;
    assert UserMeanSteps(t, 1) == 3000.0;
  }

  /** The user-level paragraph of the same table would stop at its second lookup too, were it
      reached; the record-level paragraph before it has already raised. */
  lemma OnlySedentaryUserRaisesKeyError()
    ensures UserBreakdownAsWritten(DeriveAll([LowStepDay])) == Err(KeyError(LightlyActive))
  {
    var t := DeriveAll([LowStepDay]);
    LowStepUser();
    var ls := UserLevelList(t);
    assert Sedentary in ls by {
      assert multiset(ls)[Sedentary] == 1;
    }
    assert LightlyActive !in ls by {
      assert multiset(ls)[LightlyActive] == 0;
    }
  }

  /** On that table the section raises in its record-level paragraph, at 'Lightly Active'. */
  lemma OnlySedentarySectionRaisesKeyError()
    ensures BreakdownSectionAsWritten(DeriveAll([LowStepDay])) == Err(KeyError(LightlyActive))
  {
    OnlySedentaryRecordsRaiseKeyError();
  }

  /** Corrected, the same table reports its user as Sedentary. */
  lemma OnlySedentaryUserDistribution()
    ensures UserDistribution(DeriveAll([LowStepDay])) == Some(Buckets(100.0, 0.0, 0.0, 0.0))
  {
    LowStepUser();
    var t := DeriveAll([LowStepDay]);
    var d := UserDistribution(t).value;
    assert d.Get(Sedentary) == 100.0;
  }
}
