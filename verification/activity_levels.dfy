/**
 The step-count classifier `classify_activity_level`: every step count falls in
 exactly one of four buckets, split at 5000, 7500 and 10000 steps with each
 threshold belonging to the bucket above it.
 */
module ActivityLevels {

  /** The four buckets, declared from least to most active. */
  datatype Level = Sedentary | LightlyActive | FairlyActive | VeryActive

  const LightlyActiveFrom: real := 5000.0
  const FairlyActiveFrom: real := 7500.0
  const VeryActiveFrom: real := 10000.0

  /** Position of a bucket in the order Sedentary < LightlyActive < FairlyActive < VeryActive. */
  function Rank(l: Level): nat
  {
    match l
    case Sedentary => 0
    case LightlyActive => 1
    case FairlyActive => 2
    case VeryActive => 3
  }

  /** A step count reaches a bucket when it is at or above the bucket's lower threshold;
      every count reaches Sedentary, which has no lower threshold. */
  predicate Reaches(steps: real, l: Level)
  {
    match l
    case Sedentary => true
    case LightlyActive => LightlyActiveFrom <= steps
    case FairlyActive => FairlyActiveFrom <= steps
    case VeryActive => VeryActiveFrom <= steps
  }

  /** The bucket of a step count: the most active bucket whose threshold it reaches.
      The same function classifies a record's own steps and a user's mean steps. */
  function Classify(steps: real): (l: Level)
    ensures Reaches(steps, l)
    ensures forall m :: Reaches(steps, m) ==> Rank(m) <= Rank(l)
  {
    if steps < LightlyActiveFrom then Sedentary
    else if steps < FairlyActiveFrom then LightlyActive
    else if steps < VeryActiveFrom then FairlyActive
    else VeryActive
  }

  /** Each bucket is exactly one half-open band of step counts. */
  lemma ClassifyBands(steps: real)
    ensures Classify(steps) == Sedentary <==> steps < 5000.0
    ensures Classify(steps) == LightlyActive <==> 5000.0 <= steps < 7500.0
    ensures Classify(steps) == FairlyActive <==> 7500.0 <= steps < 10000.0
    ensures Classify(steps) == VeryActive <==> 10000.0 <= steps
  {
  }

  /** More steps never give a less active bucket. */
  lemma ClassifyMonotone(a: real, b: real)
    requires a <= b
    ensures Rank(Classify(a)) <= Rank(Classify(b))
  {
    assert Reaches(b, Classify(a));
  }

  /** The boundary cases on either side of each threshold. */
  lemma ClassifyBoundaries()
    ensures Classify(4999.0) == Sedentary && Classify(5000.0) == LightlyActive
    ensures Classify(7499.0) == LightlyActive && Classify(7500.0) == FairlyActive
    ensures Classify(9999.0) == FairlyActive && Classify(10000.0) == VeryActive
  {
  }
}
