/** The two tables of the data store the habit functions touch, and the
    invariant the functions keep over them. */
module Schema {
  import opened Base

  /** A document of the `habits` table. `description` is optional. */
  datatype Habit = Habit(userId: UserId, name: string, description: Option<string>, emoji: string, color: string)

  /** A document of the `habitCompletions` table: `date` is a `yyyy-MM-dd` key. */
  datatype Completion = Completion(habitId: HabitId, userId: UserId, date: string)

  /** The store. Habits are keyed by id; ids are handed out by `nextHabitId` in
      creation order, so a larger id means a more recently created habit.
      Completions are kept in insertion order, which is the order the
      `by_user` index returns them in. */
  datatype Store = Store(habits: map<HabitId, Habit>, completions: seq<Completion>, nextHabitId: HabitId)

  /** A completion record for `date` on habit `habitId`. */
  predicate IsMark(c: Completion, habitId: HabitId, date: string)
  {
    c.habitId == habitId && c.date == date
  }

  /** How many completions the `by_habit_and_date` index finds for `(habitId, date)`. */
  function CountMarks(cs: seq<Completion>, habitId: HabitId, date: string): (n: nat)
    ensures n <= |cs|
    ensures n == 0 <==> forall c :: c in cs ==> !IsMark(c, habitId, date)
  {
    if cs == [] then 0
    else (if IsMark(cs[0], habitId, date) then 1 else 0) + CountMarks(cs[1..], habitId, date)
  }

  /** Counting distributes over concatenation. */
  lemma {:induction false} CountMarksConcat(a: seq<Completion>, b: seq<Completion>, habitId: HabitId, date: string)
    ensures CountMarks(a + b, habitId, date) == CountMarks(a, habitId, date) + CountMarks(b, habitId, date)
    decreases |a|
  {
    if a == [] {
      assert a + b == b;
    } else {
      assert (a + b)[1..] == a[1..] + b;
      CountMarksConcat(a[1..], b, habitId, date);
    }
  }

  /** The store invariant the habit functions maintain:
      every habit id was handed out by the counter, every completion belongs to
      an existing habit and carries that habit's owner, and no `(habit, date)`
      pair is marked twice. */
  ghost predicate Valid(s: Store)
  {
    && (forall id :: id in s.habits ==> id < s.nextHabitId)
    && (forall c :: c in s.completions ==> c.habitId in s.habits && s.habits[c.habitId].userId == c.userId)
    && (forall h, d :: CountMarks(s.completions, h, d) <= 1)
  }
}
