/**
 * The per-habit figures of the habit list: consistency, the "done today"
 * flag, the daily-only card statistics and the values the counter buttons
 * send.
 */
module HabitList {

  import opened Wrappers
  import opened Calendar
  import opened Habits
  import opened Streaks
  import opened Counting

  /**
   * `calculateConsistency`: the days since creation count both ends; when
   * that is not positive the result is 0, otherwise it is the completed
   * entries as a rounded percentage of those days, with no cap.
   */
  function Consistency(completions: map<Day, CV>, createdAt: Day, target: int, today: Day): (r: nat)
    ensures today - createdAt + 1 <= 0 ==> r == 0
    ensures today - createdAt + 1 > 0 ==>
      var days, c := today - createdAt + 1, |CompletedDays(completions, target)|;
      2 * days * r <= 200 * c + days < 2 * days * (r + 1)
  {
    var days := today - createdAt + 1;
    if days <= 0 then 0 else RoundPercent(|CompletedDays(completions, target)|, days)
  }

  /** When every completed entry lies between creation and today, consistency is at most 100. */
  lemma ConsistencyAtMost100(completions: map<Day, CV>, createdAt: Day, target: int, today: Day)
    requires forall d :: d in CompletedDays(completions, target) ==> createdAt <= d <= today
    ensures Consistency(completions, createdAt, target, today) <= 100
  {
    var days := today - createdAt + 1;
    if days > 0 {
      SizeWithinRange(CompletedDays(completions, target), createdAt, today);
      RoundPercentAtMost100(|CompletedDays(completions, target)|, days);
    }
  }

  /** Entries older than the creation day are still counted, so the figure can pass 100. */
  lemma ConsistencyCanPass100()
    ensures Consistency(map[0 := Bool(true), 1 := Bool(true)], 1, 1, 1) == 200
  {
    var m := map[0 := Bool(true), 1 := Bool(true)];
    assert CompletedDays(m, 1) == {0, 1};
  }

  /**
   * `isDoneToday`: a yes/no habit needs exactly `true`; a counter or timer
   * habit needs a number that reaches its target.
   */
  predicate IsDoneToday(h: Habit, today: Day)
  {
    var v := Entry(h.completions, today);
    if h.kind == YesNo then v == Some(Bool(true))
    else v.Some? && v.value.Num? && v.value.amount >= TargetOf(h)
  }

  /** Done today implies completed today; the converse fails when the value has the other shape. */
  lemma DoneTodayIsCompleted(h: Habit, today: Day)
    ensures IsDoneToday(h, today) ==> Completed(Entry(h.completions, today), TargetOf(h))
    ensures h.kind == YesNo && Entry(h.completions, today) == Some(Num(5)) && TargetOf(h) == 1 ==>
      !IsDoneToday(h, today) && Completed(Entry(h.completions, today), TargetOf(h))
    ensures h.kind != YesNo && Entry(h.completions, today) == Some(Bool(true)) ==>
      !IsDoneToday(h, today) && Completed(Entry(h.completions, today), TargetOf(h))
  {
  }

  /** The streak, best streak and consistency a daily habit's card shows. */
  datatype CardStats = CardStats(currentStreak: nat, bestStreak: int, consistency: nat)

  /**
   * The per-habit derivations: a daily habit gets its current streak, best
   * streak (`bestStreak || 0`) and consistency; a weekly habit gets none.
   */
  method CardStatsOf(h: Habit, today: Day) returns (stats: Option<CardStats>)
    ensures stats.None? <==> h.frequency == Weekly
    ensures stats.Some? ==>
      && stats.value.currentStreak == RunEndingAt(CompletedDays(h.completions, TargetOf(h)), today)
      && stats.value.bestStreak == h.bestStreak
      && stats.value.consistency == Consistency(h.completions, h.createdAt, TargetOf(h), today)
  {
    var target := TargetOf(h);
    if h.frequency == Daily {
      var streak := CurrentStreak(h.completions, target, today);
      stats := Some(CardStats(streak, h.bestStreak, Consistency(h.completions, h.createdAt, target, today)));
    } else {
      stats := None;
    }
  }

  /** The number a counter or timer card starts from: today's number, or 0. */
  function CurrentValue(h: Habit, today: Day): (v: int)
    ensures Entry(h.completions, today).Some? && Entry(h.completions, today).value.Num? ==>
      v == Entry(h.completions, today).value.amount
    ensures !(Entry(h.completions, today).Some? && Entry(h.completions, today).value.Num?) ==> v == 0
  {
    match Entry(h.completions, today)
    case Some(Num(n)) => n
    case _ => 0
  }

  /** The value and completed flag a counter button sends. */
  datatype Update = Update(value: int, completed: bool)

  /** Increment: one more, completed once it reaches the target. */
  function Increment(v: int, target: int): (u: Update)
    ensures u.value == v + 1
    ensures u.completed <==> Completed(Some(Num(u.value)), target)
  {
    Update(v + 1, v + 1 >= target)
  }

  /** Decrement: one less but never below 0; the flag is computed from `v - 1` before the floor. */
  function Decrement(v: int, target: int): (u: Update)
    ensures u.value >= 0
    ensures v >= 1 ==> u.value == v - 1
    ensures v <= 1 ==> u.value == 0
  {
    Update(Max(0, v - 1), v - 1 >= target)
  }

  /**
   * For a non-negative value and a target that `|| 1` produced (never 0),
   * the decrement's flag agrees with the stored value.
   */
  lemma DecrementFlagAgrees(v: int, target: int)
    requires v >= 0 && target != 0
    ensures Decrement(v, target).completed <==> Completed(Some(Num(Decrement(v, target).value)), target)
  {
  }

  /** Decrementing after incrementing restores a non-negative value. */
  lemma IncrementThenDecrement(v: int, target: int)
    requires v >= 0
    ensures Decrement(Increment(v, target).value, target).value == v
  {
  }
}
