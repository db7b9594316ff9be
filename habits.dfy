/**
 * The habit record the pages share, and the two readings of a stored
 * completion value the app uses: the target test of `isCompleted` and
 * plain JavaScript truthiness.
 */
module Habits {

  import opened Wrappers
  import opened Calendar

  /** The `type` of a habit, as offered by the add-habit form. */
  datatype Kind = YesNo | Counter | Timer

  /** The `frequency` of a habit: "daily" or "weekly". */
  datatype Frequency = Daily | Weekly

  /** A stored completion value: a flag for yes/no habits, a count or elapsed seconds otherwise. */
  datatype CV = Bool(flag: bool) | Num(amount: int)

  /**
   * A habit after loading: completions keyed by the day of their date key,
   * `createdAt` read back as a day, and the optional numeric target.
   */
  datatype Habit = Habit(
    id: string,
    name: string,
    kind: Kind,
    frequency: Frequency,
    completions: map<Day, CV>,
    createdAt: Day,
    bestStreak: int,
    target: Option<int>)

  /** `habit.target || 1`: a missing or zero target means 1. */
  function TargetOf(h: Habit): (t: int)
    ensures t != 0
    ensures h.target.None? ==> t == 1
    ensures h.target.Some? && h.target.value != 0 ==> t == h.target.value
  {
    if h.target.Some? && h.target.value != 0 then h.target.value else 1
  }

  /** `completions?.[key]` for the key of day `d`: absent is `undefined`. */
  function Entry(m: map<Day, CV>, d: Day): (v: Option<CV>)
    ensures v.Some? <==> d in m
    ensures v.Some? ==> v.value == m[d]
  {
    if d in m then Some(m[d]) else None
  }

  /** `isCompleted(value, target)`: absent is false, a flag is itself, a number must reach the target. */
  predicate Completed(v: Option<CV>, target: int)
  {
    match v
    case None => false
    case Some(Bool(b)) => b
    case Some(Num(n)) => n >= target
  }

  /** JavaScript truthiness of a stored value: absent, `false` and `0` are falsy. */
  predicate Truthy(v: Option<CV>)
  {
    match v
    case None => false
    case Some(Bool(b)) => b
    case Some(Num(n)) => n != 0
  }

  /** With a positive target, every completed value is truthy. */
  lemma CompletedIsTruthy(v: Option<CV>, target: int)
    requires target >= 1
    ensures Completed(v, target) ==> Truthy(v)
  {
    if v.Some? && v.value.Num? {
      assert Completed(v, target) ==> v.value.amount >= 1;
    }
  }

  /** The two readings differ: a count of 1 against a target of 2 is truthy but not completed. */
  lemma TruthyNotCompleted()
    ensures Truthy(Some(Num(1))) && !Completed(Some(Num(1)), 2)
  {
  }

  /** The days whose stored value is completed against `target`. */
  function CompletedDays(m: map<Day, CV>, target: int): (s: set<Day>)
    ensures s <= m.Keys
  {
    set d | d in m && Completed(Some(m[d]), target)
  }

  /** The days whose stored value is truthy. */
  function TruthyDays(m: map<Day, CV>): (s: set<Day>)
    ensures s <= m.Keys
  {
    set d | d in m && Truthy(Some(m[d]))
  }

  /** Looking a day up agrees with membership in the day sets. */
  lemma EntryInDays(m: map<Day, CV>, target: int, d: Day)
    ensures Completed(Entry(m, d), target) <==> d in CompletedDays(m, target)
    ensures Truthy(Entry(m, d)) <==> d in TruthyDays(m)
  {
  }

  /** A habit record as stored, where `createdAt` and `bestStreak` may be missing or empty. */
  datatype StoredHabit = StoredHabit(
    id: string,
    name: string,
    kind: Kind,
    frequency: Frequency,
    completions: map<Day, CV>,
    createdAt: Option<Day>,
    bestStreak: Option<int>,
    target: Option<int>)

  /**
   * The load-time migration: `createdAt || today`, `bestStreak || 0`, every
   * other field kept.
   */
  function Migrate(s: StoredHabit, today: Day): (h: Habit)
    ensures h.id == s.id && h.name == s.name && h.kind == s.kind && h.frequency == s.frequency
    ensures h.completions == s.completions && h.target == s.target
    ensures h.createdAt == (if s.createdAt.Some? then s.createdAt.value else today)
    ensures h.bestStreak == (if s.bestStreak.Some? then s.bestStreak.value else 0)
  {
    Habit(s.id, s.name, s.kind, s.frequency, s.completions,
          if s.createdAt.Some? then s.createdAt.value else today,
          if s.bestStreak.Some? then s.bestStreak.value else 0,
          s.target)
  }

  /** Saving a loaded habit writes every field. */
  function Store(h: Habit): (s: StoredHabit)
    ensures s.createdAt == Some(h.createdAt) && s.bestStreak == Some(h.bestStreak)
  {
    StoredHabit(h.id, h.name, h.kind, h.frequency, h.completions, Some(h.createdAt), Some(h.bestStreak), h.target)
  }

  /** Migrating a saved habit again, on any later day, changes nothing. */
  lemma MigrateIdempotent(s: StoredHabit, today: Day, later: Day)
    ensures Migrate(Store(Migrate(s, today)), later) == Migrate(s, today)
  {
  }

  /** A habit whose fields are all present comes through migration unchanged. */
  lemma MigrateComplete(h: Habit, today: Day)
    ensures Migrate(Store(h), today) == h
  {
  }

  /** The habits' best streaks, in order. */
  function BestStreaks(habits: seq<Habit>): (s: seq<int>)
    ensures |s| == |habits|
    ensures forall i :: 0 <= i < |habits| ==> s[i] == habits[i].bestStreak
  {
    seq(|habits|, i requires 0 <= i < |habits| => habits[i].bestStreak)
  }
}
