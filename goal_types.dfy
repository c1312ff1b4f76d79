/** The goal tiers and the achievement record of `src/hooks/goal/types.ts`. */
module GoalTypes {
  import opened Wrappers

  /** The milestone tiers, shortest first (`enum Goals`). */
  datatype Goals =
    | TenMinutes | ThirtyMinutes | OneHour | HalfDay | Day | ThreeDays
    | Week | Month | Quarter | HalfYear | Year

  /** One row of the goal table: a tier and its duration in milliseconds. */
  datatype GoalTimeDiff = GoalTimeDiff(goalType: Goals, timeDiff: int)

  /** The instant a tier is (or was) reached. */
  datatype Goal = Goal(goalAt: int, goalType: Goals)

  /**
   * The computed status of one tier. `progress` is an exact ratio (the source's `number`);
   * `achievedAt` is absent while the tier is pending.
   */
  datatype Achievement = Achievement(goal: Goal, progress: real, achievedAt: Option<int>)
}
