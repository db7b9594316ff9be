/**
 * `calculateCurrentStreak`, in its two versions: the habit list's, which
 * reads values with the target test, and the home page's, which reads
 * them by truthiness. Both walk back one day at a time from today.
 */
module Streaks {

  import opened Calendar
  import opened Habits

  /**
   * The number of consecutive days of `done` that end at day `d`: 0 when
   * `d` is not in it. It never exceeds the number of days in `done`.
   */
  function RunEndingAt(done: set<Day>, d: Day): (k: nat)
    ensures k <= |done|
    decreases |done|
  {
    if d in done then 1 + RunEndingAt(done - {d}, d - 1) else 0
  }

  /** Dropping a day after `d` does not change the run ending at `d`. */
  lemma {:induction false} RunIgnoresLater(done: set<Day>, x: Day, d: Day)
    requires d < x
    ensures RunEndingAt(done - {x}, d) == RunEndingAt(done, d)
    decreases |done|
  {
    if d in done {
      assert done - {x} - {d} == done - {d} - {x};
      RunIgnoresLater(done - {d}, x, d - 1);
    }
  }

  /** A run ending at a done day is one longer than the run ending the day before. */
  lemma RunStep(done: set<Day>, d: Day)
    requires d in done
    ensures RunEndingAt(done, d) == 1 + RunEndingAt(done, d - 1)
  {
    RunIgnoresLater(done, d, d - 1);
  }

  /** The run covers `d` and the days before it, and the day just before the run is not done. */
  lemma {:induction false} RunIsMaximal(done: set<Day>, d: Day)
    ensures var k := RunEndingAt(done, d);
      && (forall x :: d - k < x <= d ==> x in done)
      && d - k !in done
    decreases RunEndingAt(done, d)
  {
    if d in done {
      RunStep(done, d);
      RunIsMaximal(done, d - 1);
    }
  }

  /** Those two facts pin the run down: any `k` with them is the run's length. */
  lemma {:induction false} RunUnique(done: set<Day>, d: Day, k: nat)
    requires forall x :: d - k < x <= d ==> x in done
    requires d - k !in done
    ensures k == RunEndingAt(done, d)
    decreases k
  {
    if k > 0 {
      assert d in done;
      RunStep(done, d);
      RunUnique(done, d - 1, k - 1);
    }
  }

  /**
   * The habit list's `calculateCurrentStreak`: 0 unless today's value is
   * completed, and otherwise the count of completed days walking back from
   * today.
   */
  method CurrentStreak(completions: map<Day, CV>, target: int, today: Day) returns (streak: nat)
    ensures streak == RunEndingAt(CompletedDays(completions, target), today)
  {
    ghost var done := CompletedDays(completions, target);
    EntryInDays(completions, target, today);
    if !Completed(Entry(completions, today), target) {
      return 0;
    }
    streak := 0;
    var current := today;
    while Completed(Entry(completions, current), target)
      invariant current == today - streak
      invariant RunEndingAt(done, today) == streak + RunEndingAt(done, current)
      decreases RunEndingAt(done, current)
    {
      EntryInDays(completions, target, current);
      RunStep(done, current);
      streak := streak + 1;
      current := current - 1;
    }
    EntryInDays(completions, target, current);
  }

  /**
   * The home page's `calculateCurrentStreak`: 0 unless today's value is
   * truthy, and otherwise the count of truthy days walking back from today.
   */
  method TruthyStreak(completions: map<Day, CV>, today: Day) returns (streak: nat)
    ensures streak == RunEndingAt(TruthyDays(completions), today)
  {
    ghost var done := TruthyDays(completions);
    EntryInDays(completions, 1, today);
    if !Truthy(Entry(completions, today)) {
      return 0;
    }
    streak := 0;
    var current := today;
    while Truthy(Entry(completions, current))
      invariant current == today - streak
      invariant RunEndingAt(done, today) == streak + RunEndingAt(done, current)
      decreases RunEndingAt(done, current)
    {
      EntryInDays(completions, 1, current);
      RunStep(done, current);
      streak := streak + 1;
      current := current - 1;
    }
    EntryInDays(completions, 1, current);
  }

  /** A value-reading streak is 0 whenever today's value is not completed. */
  lemma StreakZeroUnlessToday(completions: map<Day, CV>, target: int, today: Day)
    requires !Completed(Entry(completions, today), target)
    ensures RunEndingAt(CompletedDays(completions, target), today) == 0
  {
    EntryInDays(completions, target, today);
  }

  /**
   * Otherwise it is some k >= 1: today back to today - (k - 1) are completed
   * and today - k is not, and k is at most the number of completed entries.
   */
  lemma StreakWhenToday(completions: map<Day, CV>, target: int, today: Day)
    requires Completed(Entry(completions, today), target)
    ensures var done, k := CompletedDays(completions, target), RunEndingAt(CompletedDays(completions, target), today);
      && 1 <= k <= |done|
      && (forall x :: today - k < x <= today ==> Completed(Entry(completions, x), target))
      && !Completed(Entry(completions, today - k), target)
  {
    var done := CompletedDays(completions, target);
    var k := RunEndingAt(done, today);
    EntryInDays(completions, target, today);
    RunIsMaximal(done, today);
    forall x | today - k < x <= today
      ensures Completed(Entry(completions, x), target)
    {
      EntryInDays(completions, target, x);
    }
    EntryInDays(completions, target, today - k);
  }

  /** The truthiness streak is 0 when today's value is falsy. */
  lemma TruthyStreakZeroUnlessToday(completions: map<Day, CV>, today: Day)
    requires !Truthy(Entry(completions, today))
    ensures RunEndingAt(TruthyDays(completions), today) == 0
  {
    EntryInDays(completions, 1, today);
  }

  /** Otherwise it counts the truthy days back from today, up to the first falsy one. */
  lemma TruthyStreakWhenToday(completions: map<Day, CV>, today: Day)
    requires Truthy(Entry(completions, today))
    ensures var k := RunEndingAt(TruthyDays(completions), today);
      && 1 <= k <= |TruthyDays(completions)|
      && (forall x :: today - k < x <= today ==> Truthy(Entry(completions, x)))
      && !Truthy(Entry(completions, today - k))
  {
    var done := TruthyDays(completions);
    var k := RunEndingAt(done, today);
    EntryInDays(completions, 1, today);
    RunIsMaximal(done, today);
    forall x | today - k < x <= today
      ensures Truthy(Entry(completions, x))
    {
      EntryInDays(completions, 1, x);
    }
    EntryInDays(completions, 1, today - k);
  }
}
