/** Activity classification and scoring (lib/scoring/activities.ts), with the
    swimming type labels and name keywords of lib/strava/types.ts. */
module ActivityScoring {
  import opened Wrappers
  import opened Text

  /** A Strava activity as the API returns it. Timestamps are UTC
      milliseconds; distances in meters, durations in seconds. */
  datatype Activity = Activity(
    id: int,
    athleteId: int,
    name: string,
    distance: real,
    movingTime: real,
    elapsedTime: real,
    totalElevationGain: real,
    activityType: string,
    sportType: string,
    startDate: int,
    startDateLocal: string,
    timezone: string,
    averageSpeed: Option<real>,
    maxSpeed: Option<real>,
    averageHeartrate: Option<real>,
    maxHeartrate: Option<real>,
    hasHeartrate: bool)

  /** An activity with its two derived fields. */
  datatype ScoredActivity = ScoredActivity(activity: Activity, weightedScore: real, isSwimming: bool)

  const SwimmingActivityTypes: seq<string> := ["Swim", "Pool Swim", "Open Water Swim", "IceSwim"]
  const SwimmingKeywords: seq<string> := ["swim", "pool", "laps", "uwh", "underwater hockey", "aquatic"]

  /** `SWIMMING_KEYWORDS.some(k => nameLower.includes(k))` */
  predicate NameHasSwimmingKeyword(name: string)
  {
    var nameLower := ToLower(name);
    exists k :: k in SwimmingKeywords && Contains(nameLower, k)
  }

  /** `isSwimmingActivity`: the type, then the sport type, then the name. */
  predicate IsSwimming(a: Activity)
  {
    if a.activityType in SwimmingActivityTypes then true
    else if a.sportType in SwimmingActivityTypes then true
    else NameHasSwimmingKeyword(a.name)
  }

  /** Swimming, stated without the order of the checks: a swimming label in
      either type field, or a keyword occurring in the lower-cased name. */
  lemma IsSwimmingIff(a: Activity)
    ensures IsSwimming(a) <==>
      a.activityType in SwimmingActivityTypes || a.sportType in SwimmingActivityTypes
      || exists k, i :: k in SwimmingKeywords && OccursAt(ToLower(a.name), k, i)
  {
    forall k | k in SwimmingKeywords {
      ContainsIff(ToLower(a.name), k);
    }
  }

  /** A swimming type label decides on its own, whatever the name. */
  lemma SwimTypeWins(a: Activity, name: string, sport: string)
    requires a.activityType in SwimmingActivityTypes
    ensures IsSwimming(a.(name := name, sportType := sport))
  {
  }

  /** The sport type decides when the type does not match, whatever the name. */
  lemma SwimSportTypeWins(a: Activity, name: string)
    requires a.sportType in SwimmingActivityTypes
    ensures IsSwimming(a.(name := name))
  {
  }

  /** Without a swimming label in either field, the name decides. */
  lemma NameDecides(a: Activity)
    requires a.activityType !in SwimmingActivityTypes && a.sportType !in SwimmingActivityTypes
    ensures IsSwimming(a) <==> NameHasSwimmingKeyword(a.name)
  {
  }

  /** "UWH practice session" of type Workout is swimming: its lower-cased
      name contains "uwh". */
  lemma UnderwaterHockeyIsSwimming(a: Activity)
    requires a.activityType == "Workout" && a.sportType == "Workout"
    requires a.name == "UWH practice session"
    ensures IsSwimming(a)
  {
    assert ToLower(a.name) == "uwh practice session";
    assert "uwh" in SwimmingKeywords && StartsWith(ToLower(a.name), "uwh");
  }

  /** A string cannot contain a word with a character it lacks. */
  lemma NotContainsMissingChar(s: string, k: string, c: char)
    requires c in k && c !in s
    ensures !Contains(s, k)
  {
    var j :| 0 <= j < |k| && k[j] == c;
    forall i ensures !OccursAt(s, k, i) {
      if 0 <= i && i + |k| <= |s| {
        assert s[i + j] in s;
        assert s[i..i + |k|][j] != k[j];
      }
    }
    ContainsIff(s, k);
  }

  /** A name whose lower-cased form has none of 'w', 'p' and 'q' holds no
      swimming keyword: each keyword has one of those letters. */
  lemma NoKeywordWithoutLetters(name: string)
    requires 'w' !in ToLower(name) && 'p' !in ToLower(name) && 'q' !in ToLower(name)
    ensures !NameHasSwimmingKeyword(name)
  {
    var lower := ToLower(name);
    NotContainsMissingChar(lower, "swim", 'w');
    NotContainsMissingChar(lower, "pool", 'p');
    NotContainsMissingChar(lower, "laps", 'p');
    NotContainsMissingChar(lower, "uwh", 'w');
    NotContainsMissingChar(lower, "underwater hockey", 'w');
    NotContainsMissingChar(lower, "aquatic", 'q');
  }

  /** "Morning run" of type Run is not swimming: no keyword occurs in it. */
  lemma MorningRunIsNotSwimming(a: Activity)
    requires a.activityType == "Run" && a.sportType == "Run"
    requires a.name == "Morning run"
    ensures !IsSwimming(a)
  {
    var lower := ToLower(a.name);
    forall i | 0 <= i < |lower| ensures lower[i] != 'w' && lower[i] != 'p' && lower[i] != 'q' {
      assert lower[i] == ToLowerChar(a.name[i]);
    }
    NoKeywordWithoutLetters(a.name);
  }

  /** `calculateWeightedScore`: minutes moving plus kilometers covered. */
  function WeightedScore(a: Activity): (score: real)
    ensures a.movingTime >= 0.0 && a.distance >= 0.0 ==> score >= 0.0
    ensures a.movingTime == 0.0 && a.distance == 0.0 ==> score == 0.0
  {
    var timeMinutes := a.movingTime / 60.0;
    var distanceKm := a.distance / 1000.0;
    timeMinutes + distanceKm
  }

  /** The score depends only on moving time and distance: changing how the
      activity is classified (type, sport type, name) leaves it unchanged, so
      swimming gets no multiplier. */
  lemma WeightedScoreIgnoresClassification(a: Activity, t: string, st: string, n: string)
    ensures WeightedScore(a.(activityType := t, sportType := st, name := n)) == WeightedScore(a)
    ensures WeightedScore(a) == a.movingTime / 60.0 + a.distance / 1000.0
  {
  }

  /** A 60-minute, 2 km swim scores 62 (not the 93 a 1.5 multiplier would give). */
  lemma SwimScoreExample(a: Activity)
    requires a.activityType == "Swim" && a.movingTime == 3600.0 && a.distance == 2000.0
    ensures IsSwimming(a) && WeightedScore(a) == 62.0 && WeightedScore(a) != 93.0
  {
  }

  /** `calculateCompositeScore`: 60 points per activity plus 40% of the
      summed weighted score. */
  function CompositeScore(activityCount: real, totalWeightedScore: real): (c: real)
    ensures c == 60.0 * activityCount + 0.4 * totalWeightedScore
  {
    activityCount * 100.0 * 0.6 + totalWeightedScore * 0.4
  }

  /** Ten activities with a summed score of 850 give 940. */
  lemma CompositeExample()
    ensures CompositeScore(10.0, 850.0) == 940.0
  {
  }

  /** The composite never decreases when either argument grows. */
  lemma CompositeMonotone(n1: real, n2: real, w1: real, w2: real)
    requires n1 <= n2 && w1 <= w2
    ensures CompositeScore(n1, w1) <= CompositeScore(n2, w2)
  {
  }

  /** `scoreActivity`: the activity with its score and swimming flag. */
  function ScoreActivity(a: Activity): (s: ScoredActivity)
    ensures s.activity == a
    ensures s.weightedScore == WeightedScore(a) && s.isSwimming == IsSwimming(a)
  {
    ScoredActivity(a, WeightedScore(a), IsSwimming(a))
  }

  /** `scoreActivities`: scores every activity, keeping length and order. */
  function ScoreActivities(activities: seq<Activity>): (r: seq<ScoredActivity>)
    ensures |r| == |activities|
    ensures forall i :: 0 <= i < |r| ==> r[i] == ScoreActivity(activities[i])
  {
    seq(|activities|, i requires 0 <= i < |activities| => ScoreActivity(activities[i]))
  }

  /** Stripping the derived fields gives back the input list. */
  lemma ScoreActivitiesKeepsActivities(activities: seq<Activity>)
    ensures seq(|activities|, i requires 0 <= i < |activities| => ScoreActivities(activities)[i].activity) == activities
  {
  }
}
