/** The home page's list operations: adding a habit and marking one done today. */
module Index {

  import opened Wrappers
  import opened Calendar
  import opened Habits
  import opened Streaks
  import opened Counting

  /** The habit `handleAddHabit` builds from the form's fields. */
  function NewHabit(id: string, name: string, kind: Kind, frequency: Frequency, today: Day): (h: Habit)
    ensures h.id == id && h.name == name && h.kind == kind && h.frequency == frequency
    ensures h.completions == map[] && h.createdAt == today && h.bestStreak == 0 && h.target.None?
  {
    Habit(id, name, kind, frequency, map[], today, 0, None)
  }

  /** `handleAddHabit`: the existing habits, in order and unchanged, then the new one. */
  function AddHabit(habits: seq<Habit>, id: string, name: string, kind: Kind, frequency: Frequency, today: Day)
    : (r: seq<Habit>)
    ensures |r| == |habits| + 1
    ensures r[..|habits|] == habits
    ensures r[|habits|] == NewHabit(id, name, kind, frequency, today)
  {
    habits + [NewHabit(id, name, kind, frequency, today)]
  }

  /**
   * The matching habit's new record: today's entry set to `true`, and the
   * best streak raised to the truthiness streak of the new completions.
   */
  function MarkHabit(h: Habit, today: Day): Habit
  {
    var completions := h.completions[today := Bool(true)];
    h.(completions := completions,
       bestStreak := Max(h.bestStreak, RunEndingAt(TruthyDays(completions), today)))
  }

  /** `handleMarkDone`: only habits with the given id change. */
  function MarkDone(habits: seq<Habit>, id: string, today: Day): (r: seq<Habit>)
    ensures |r| == |habits|
    ensures forall i :: 0 <= i < |habits| && habits[i].id != id ==> r[i] == habits[i]
    ensures forall i :: 0 <= i < |habits| && habits[i].id == id ==> r[i] == MarkHabit(habits[i], today)
  {
    seq(|habits|, i requires 0 <= i < |habits| =>
      if habits[i].id == id then MarkHabit(habits[i], today) else habits[i])
  }

  /**
   * Marking keeps every field but the completions and the best streak; today
   * reads `true`, every other day reads as before.
   */
  lemma MarkHabitEntries(h: Habit, today: Day)
    ensures var r := MarkHabit(h, today);
      && r.id == h.id && r.name == h.name && r.kind == h.kind && r.frequency == h.frequency
      && r.createdAt == h.createdAt && r.target == h.target
      && Entry(r.completions, today) == Some(Bool(true))
      && (forall d :: d != today ==> Entry(r.completions, d) == Entry(h.completions, d))
  {
  }

  /** The best streak never drops, and after marking it is at least 1. */
  lemma MarkHabitBest(h: Habit, today: Day)
    ensures var r := MarkHabit(h, today);
      && r.bestStreak >= h.bestStreak
      && r.bestStreak >= 1
      && r.bestStreak >= RunEndingAt(TruthyDays(r.completions), today)
  {
    var completions := h.completions[today := Bool(true)];
    EntryInDays(completions, 1, today);
    RunStep(TruthyDays(completions), today);
  }

  /** Marking a habit twice on the same day is the same as marking it once. */
  lemma MarkHabitIdempotent(h: Habit, today: Day)
    ensures MarkHabit(MarkHabit(h, today), today) == MarkHabit(h, today)
  {
    var once := MarkHabit(h, today);
    assert once.completions[today := Bool(true)] == once.completions;
  }

  /** So marking the same id twice on the same day gives the same list as marking once. */
  lemma MarkDoneIdempotent(habits: seq<Habit>, id: string, today: Day)
    ensures MarkDone(MarkDone(habits, id, today), id, today) == MarkDone(habits, id, today)
  {
    var once := MarkDone(habits, id, today);
    var twice := MarkDone(once, id, today);
    forall i | 0 <= i < |habits|
      ensures twice[i] == once[i]
    {
      if habits[i].id == id {
        MarkHabitIdempotent(habits[i], today);
      }
    }
  }
}
