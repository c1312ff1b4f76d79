/**
 * Achievement calculation (`getAchievements` and its memoised twin `useAchievements`,
 * `src/hooks/goal/useAchievements.ts`).
 *
 * Instants are milliseconds. The goal table and the longest absence are computed elsewhere and
 * come in as parameters; the clock reading `new Date()` is the single parameter `now`.
 */
module Achievements {
  import opened Wrappers
  import opened GoalTypes

  /** An absence interval; `end == None` is an interval still open (`{ start, end: null }`). */
  datatype Absence = Absence(start: int, end: Option<int>)

  /** How long the absence lasted in milliseconds, measuring an open absence up to `now`. */
  function AbsenceLength(absence: Absence, now: int): int {
    absence.end.GetOr(now) - absence.start
  }

  /** Every tier of the table has a positive duration. */
  predicate PositiveDiffs(table: seq<GoalTimeDiff>) {
    forall i :: 0 <= i < |table| ==> table[i].timeDiff > 0
  }

  /** The table lists its tiers shortest first. */
  predicate Ascending(table: seq<GoalTimeDiff>) {
    forall i, j :: 0 <= i < j < |table| ==> table[i].timeDiff <= table[j].timeDiff
  }

  function Min(a: real, b: real): real {
    if a <= b then a else b
  }

  /** A tier counts as achieved exactly when its record carries an `achievedAt` instant. */
  predicate Achieved(a: Achievement) {
    a.achievedAt.Some?
  }

  /**
   * The record for one tier. A tier is reached when either the longest absence or the current
   * one lasted at least its duration; a reached tier is dated from the start of the longest
   * absence, a pending one from the last relapse.
   */
  function AchievementFor(goal: GoalTimeDiff, longestAbsence: Absence, lastRelapse: int, now: int): (a: Achievement)
    requires goal.timeDiff > 0
    ensures a.goal.goalType == goal.goalType
    ensures Achieved(a) <==>
              AbsenceLength(longestAbsence, now) >= goal.timeDiff || now - lastRelapse >= goal.timeDiff
    ensures Achieved(a) ==>
              a.progress == 1.0 && a.achievedAt.value == a.goal.goalAt &&
              a.goal.goalAt == longestAbsence.start + goal.timeDiff
    ensures !Achieved(a) ==>
              a.progress == (now - lastRelapse) as real / goal.timeDiff as real && a.progress < 1.0 &&
              a.goal.goalAt == lastRelapse + goal.timeDiff && a.goal.goalAt > now
    ensures lastRelapse <= now ==> 0.0 <= a.progress <= 1.0
  {
    var currentAbsence := Absence(lastRelapse, None);
    var longestAbsenceDiff := AbsenceLength(longestAbsence, now);
    var currentAbsenceDiff := AbsenceLength(currentAbsence, now);
    var achieved := longestAbsenceDiff >= goal.timeDiff || currentAbsenceDiff >= goal.timeDiff;
    var progress :=
      if achieved then 1.0
      else (RatioBelowOne(currentAbsenceDiff, goal.timeDiff); Min(1.0, currentAbsenceDiff as real / goal.timeDiff as real));
    var goalAt := (if achieved then longestAbsence.start else currentAbsence.start) + goal.timeDiff;
    Achievement(Goal(goalAt, goal.goalType), progress, if achieved then Some(goalAt) else None)
  }

  /** The ratio of an elapsed time to a positive duration is below one exactly when the time is shorter. */
  lemma RatioBelowOne(elapsed: int, duration: int)
    requires duration > 0
    ensures elapsed < duration <==> elapsed as real / duration as real < 1.0
    ensures 0 <= elapsed <= duration ==> 0.0 <= elapsed as real / duration as real <= 1.0
  {
    var q := elapsed as real / duration as real;
    assert q * duration as real == elapsed as real;
  }

  /** One record per table row, in table order (`goalTimeDiffs.map(...)` in `getAchievements`). */
  function GetAchievements(table: seq<GoalTimeDiff>, longestAbsence: Absence, lastRelapse: int, now: int)
    : (r: seq<Achievement>)
    requires PositiveDiffs(table)
    ensures |r| == |table|
    ensures forall i :: 0 <= i < |r| ==> r[i].goal.goalType == table[i].goalType
  {
    seq(|table|, i requires 0 <= i < |table| => AchievementFor(table[i], longestAbsence, lastRelapse, now))
  }

  /**
   * The memoised hook's computation: the same map over the table, performed on the
   * `currentAbsence` record `{ start: lastRelapse, end: null }` that the hook builds.
   */
  function UseAchievements(table: seq<GoalTimeDiff>, longestAbsence: Absence, currentAbsence: Absence, now: int)
    : (r: seq<Achievement>)
    requires PositiveDiffs(table)
    ensures |r| == |table|
  {
    if table == [] then []
    else
      [AchievementFor(table[0], longestAbsence, currentAbsence.start, now)] +
      UseAchievements(table[1..], longestAbsence, currentAbsence, now)
  }

  /** For the same inputs and the same `now`, the hook and the plain function agree record for record. */
  lemma {:induction false} UseAchievementsAgrees(table: seq<GoalTimeDiff>, longestAbsence: Absence, lastRelapse: int, now: int)
    requires PositiveDiffs(table)
    ensures UseAchievements(table, longestAbsence, Absence(lastRelapse, None), now) ==
            GetAchievements(table, longestAbsence, lastRelapse, now)
  {
    var current := Absence(lastRelapse, None);
    if table != [] {
      UseAchievementsAgrees(table[1..], longestAbsence, lastRelapse, now);
      var rest := GetAchievements(table[1..], longestAbsence, lastRelapse, now);
      var all := GetAchievements(table, longestAbsence, lastRelapse, now);
      assert all == [all[0]] + rest by {
        forall i | 0 <= i < |all| ensures all[i] == ([all[0]] + rest)[i] {
          if i > 0 {
            assert table[1..][i - 1] == table[i];
          }
        }
      }
    }
  }

  /**
   * Monotonicity: with one `now`, a tier no longer than an achieved tier is achieved too.
   */
  lemma AchievedMonotone(table: seq<GoalTimeDiff>, longestAbsence: Absence, lastRelapse: int, now: int, i: nat, j: nat)
    requires PositiveDiffs(table)
    requires i < |table| && j < |table|
    requires table[i].timeDiff <= table[j].timeDiff
    requires Achieved(GetAchievements(table, longestAbsence, lastRelapse, now)[j])
    ensures Achieved(GetAchievements(table, longestAbsence, lastRelapse, now)[i])
  {
  }

  /** The number of leading records that are achieved. */
  function AchievedPrefixLength(r: seq<Achievement>): (k: nat)
    ensures k <= |r|
    ensures forall i :: 0 <= i < k ==> Achieved(r[i])
    ensures k < |r| ==> !Achieved(r[k])
  {
    if r == [] || !Achieved(r[0]) then 0 else 1 + AchievedPrefixLength(r[1..])
  }

  /**
   * For a table listed shortest first, the achieved tiers are exactly a prefix of the result:
   * no pending tier is followed by an achieved one.
   */
  lemma {:induction false} AchievedTiersArePrefix(table: seq<GoalTimeDiff>, longestAbsence: Absence, lastRelapse: int, now: int)
    requires PositiveDiffs(table) && Ascending(table)
    ensures var r := GetAchievements(table, longestAbsence, lastRelapse, now);
            var k := AchievedPrefixLength(r);
            forall i :: 0 <= i < |r| ==> (Achieved(r[i]) <==> i < k)
  {
    var r := GetAchievements(table, longestAbsence, lastRelapse, now);
    var k := AchievedPrefixLength(r);
    forall i | 0 <= i < |r| ensures Achieved(r[i]) <==> i < k {
      if k <= i && Achieved(r[i]) {
        AchievedMonotone(table, longestAbsence, lastRelapse, now, k, i);
      }
    }
  }

  /**
   * An achieved tier's `goalAt` lies inside the longest absence when that absence itself lasted
   * the tier's duration: the date shown is when that streak reached the milestone, not `now`.
   */
  lemma GoalAtWithinLongestAbsence(goal: GoalTimeDiff, longestAbsence: Absence, lastRelapse: int, now: int)
    requires goal.timeDiff > 0
    requires AbsenceLength(longestAbsence, now) >= goal.timeDiff
    ensures var a := AchievementFor(goal, longestAbsence, lastRelapse, now);
            Achieved(a) && longestAbsence.start < a.goal.goalAt <= longestAbsence.end.GetOr(now)
  {
  }

  /**
   * As written, a tier reached only by the current absence is still dated from the start of the
   * longest absence; the result then lies after that absence ended.
   */
  lemma CurrentOnlyDatedFromLongest(goal: GoalTimeDiff, longestAbsence: Absence, lastRelapse: int, now: int)
    requires goal.timeDiff > 0
    requires AbsenceLength(longestAbsence, now) < goal.timeDiff <= now - lastRelapse
    ensures var a := AchievementFor(goal, longestAbsence, lastRelapse, now);
            Achieved(a) && a.achievedAt == Some(longestAbsence.start + goal.timeDiff) &&
            a.goal.goalAt > longestAbsence.end.GetOr(now)
  {
  }

  /**
   * A freshly created item with no relapses, ten minutes after its start: the ten-minute tier is
   * achieved at exactly that instant and the thirty-minute tier is a third of the way.
   */
  lemma FreshItemAfterTenMinutes(start: int)
    ensures var table := [GoalTimeDiff(TenMinutes, 600000), GoalTimeDiff(ThirtyMinutes, 1800000)];
            var r := GetAchievements(table, Absence(start, None), start, start + 600000);
            r[0].achievedAt == Some(start + 600000) && !Achieved(r[1]) && r[1].progress == 1.0 / 3.0
  {
  }
}
