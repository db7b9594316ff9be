/** The statistics list: each habit's completion rate and completion total. */
module HabitStats {

  import opened Wrappers
  import opened Calendar
  import opened Habits
  import opened Counting

  /**
   * The expected number of completions since creation: days counted with
   * both ends for a daily habit, started weeks (`Math.ceil` of the week
   * count) for a weekly one, and at least 1 either way.
   */
  function ExpectedOccurrences(createdAt: Day, frequency: Frequency, today: Day): (e: int)
    ensures e >= 1
    ensures frequency == Daily ==> e == Max(1, today - createdAt + 1)
    ensures frequency == Weekly ==> e == Max(1, CeilDiv(today - createdAt, 7))
  {
    var days := today - createdAt;
    if frequency == Daily then Max(1, days + 1)
    else Max(1, CeilDiv(days * MsPerDay, MsPerWeek))
  }

  /** The time difference of two midnights, in weeks and rounded up, is the day difference over 7 rounded up. */
  lemma WeeksFromMidnights(days: int)
    ensures CeilDiv(days * MsPerDay, MsPerWeek) == CeilDiv(days, 7)
  {
    var q := CeilDiv(days, 7);
    assert (q - 1) * MsPerWeek < days * MsPerDay <= q * MsPerWeek;
  }

  /**
   * `calculateCompletionRate`: the completed entries as a rounded percentage
   * of the expected number, clamped to 0..100. The `<= 0` early return is
   * never taken, since the expected number is at least 1. More completed
   * entries than expected ones show as exactly 100.
   */
  function CompletionRate(completions: map<Day, CV>, createdAt: Day, frequency: Frequency, target: int, today: Day)
    : (r: int)
    ensures 0 <= r <= 100
    ensures |CompletedDays(completions, target)| > ExpectedOccurrences(createdAt, frequency, today) ==> r == 100
  {
    var expected := ExpectedOccurrences(createdAt, frequency, today);
    var completed := |CompletedDays(completions, target)|;
    if expected <= 0 then 0
    else if completed > expected then
      RoundPercentAtLeast100(completed, expected);
      Clamp(0, 100, RoundPercent(completed, expected))
    else Clamp(0, 100, RoundPercent(completed, expected))
  }

  /** Below the cap, the rate is the rounded percentage of the expected count. */
  lemma CompletionRateRounds(completions: map<Day, CV>, createdAt: Day, frequency: Frequency, target: int, today: Day)
    requires |CompletedDays(completions, target)| <= ExpectedOccurrences(createdAt, frequency, today)
    ensures var r, e, c := CompletionRate(completions, createdAt, frequency, target, today),
                           ExpectedOccurrences(createdAt, frequency, today), |CompletedDays(completions, target)|;
      2 * e * r <= 200 * c + e < 2 * e * (r + 1)
  {
    var e := ExpectedOccurrences(createdAt, frequency, today);
    RoundPercentAtMost100(|CompletedDays(completions, target)|, e);
  }

  /** A weekly habit created 21 days ago with two completed entries shows 67. */
  lemma WeeklyExample(today: Day)
    ensures CompletionRate(map[today := Bool(true), today - 7 := Num(3)], today - 21, Weekly, 1, today) == 67
  {
    var m := map[today := Bool(true), today - 7 := Num(3)];
    assert CompletedDays(m, 1) == {today, today - 7};
    WeeksFromMidnights(21);
    assert ExpectedOccurrences(today - 21, Weekly, today) == 3;
  }

  /** `totalCompletions`: the number of entries completed against the habit's target. */
  function TotalCompletions(h: Habit): (n: nat)
    ensures n <= |h.completions|
  {
    Counting.SubsetSize(CompletedDays(h.completions, TargetOf(h)), h.completions.Keys);
    |CompletedDays(h.completions, TargetOf(h))|
  }

  /** Exactly the completed entries are counted: a new completed day adds one, anything else none. */
  lemma TotalCompletionsCounts(h: Habit, d: Day, v: CV)
    requires d !in h.completions
    ensures TotalCompletions(h.(completions := h.completions[d := v]))
            == TotalCompletions(h) + (if Completed(Some(v), TargetOf(h)) then 1 else 0)
  {
    var h' := h.(completions := h.completions[d := v]);
    if Completed(Some(v), TargetOf(h)) {
      assert CompletedDays(h'.completions, TargetOf(h)) == CompletedDays(h.completions, TargetOf(h)) + {d};
    } else {
      assert CompletedDays(h'.completions, TargetOf(h)) == CompletedDays(h.completions, TargetOf(h));
    }
  }
}
