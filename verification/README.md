# Habit tracker core, modelled in Dafny

A model of the logic of the habit-tracking mini app: its three server data
functions over the `habits` and `habitCompletions` tables (`createHabit`,
`getHabits`, `toggleHabitCompletion`), the optimistic update the habit list
applies to its cached `getHabits` answer when a card's button is pressed, the
365-day completion heatmap, and the save handler of the create/edit form.

Modules, one per source file or component:

- `Base` (`base.dfy`): `Option`, user and habit ids, session tokens, and the
  authentication oracle `Auth` (`getAuthenticatedUser` as a function from
  session token to optional user).
- `Schema` (`schema.dfy`): the `habits` and `habitCompletions` documents, the
  `Store` holding both tables, and the invariant `Valid` that the server
  functions keep: every completion belongs to an existing habit and carries
  its owner, and no `(habit, date)` is marked twice.
- `HabitServer` (`habit_server.dfy`): `convex/entity/habit.ts`. A mutation
  maps a store to `Ok(value, newStore)` or `Err(error)`; an error means the
  mutation aborted and the store is unchanged.
- `HabitCard` (`habit_card.dfy`): `src/routes/index.tsx`: the optimistic update,
  `isCompletedToday` and `handleToggle`, and the proof that the optimistic
  update predicts the server's answer.
- `Heatmap` (`heatmap.dfy`): `src/components/HabitCalendar.tsx`. The calendar
  inlined at `src/routes/index.tsx:17-60` is the same code and is covered by
  the same model.
- `HabitForm` (`habit_form.dfy`): `src/components/HabitForm.tsx`: initial
  field values, the `useEffect` that copies the edited habit in, JavaScript's
  `trim`, and `handleSave`.

Representation choices:

- Habit ids come from a counter in the store, so id order is creation order.
  The descending index scan of `getHabits` is therefore "descending id".
- Completions are a sequence in insertion order, which is the order the
  `by_user` index yields them. A record is its `(habitId, userId, date)`
  value; document ids of completions are not modelled.
- `.unique()` on the `by_habit_and_date` index is modelled with its own
  failure: more than one match is the error `CompletionNotUnique`.
- A session token is "present" when it is not the empty string (the source
  tests `!sessionId`).
- Days are whole numbers counting from 1970-01-01. `getDay` is
  `(day + 4) % 7`, because 1970-01-01 was a Thursday. The `yyyy-MM-dd`
  formatter is a parameter `formatKey`. The start of the year is a parameter.

### Notes on the code

- `createHabit` does not check that name, emoji or colour are non-empty on
  the server; only the form checks them (`HabitForm.HandleSave`).
- `toggleHabitCompletion` reports a missing habit and a habit of another user
  with one and the same error (`HabitNotFound`).
- `getHabits` returns no streak; it only joins habits with their completion
  dates.
- Day keys are formatted from the local clock, not UTC.

## Model

| member | source | states |
|---|---|---|
| `HabitServer.CreateHabit` | mini-app/convex/entity/habit.ts:14-27 | Fails with `NotAuthenticated` exactly when the session has no user. Otherwise it adds exactly one habit, owned by the caller and carrying the given name, description, emoji and colour. Completions are untouched. In a valid store the new id is fresh and newer than every existing habit, no other habit changes, and validity is kept. |
| `HabitServer.CreateHabitScannedFirst` | mini-app/convex/entity/habit.ts:21-43 | After `createHabit` the caller's `by_userId` scan, newest first, is the new id followed by the earlier scan, and the id counter moves up by one. |
| `HabitServer.UnknownHabitHasNoDates` | mini-app/convex/entity/habit.ts:49-64 | In a valid store a habit id that no habit has yet is listed with no completion dates. |
| `HabitServer.CreateHabitListedFirst` | mini-app/convex/entity/habit.ts:21-43 | In a valid store, after `createHabit` the caller's `getHabits` list is the new habit, with no completions, followed by the previous list. |
| `HabitServer.OwnedNewestFirst` | mini-app/convex/entity/habit.ts:39-43 | The `by_userId` scan returns exactly the caller's habits (below the id bound), each once, in strictly descending creation order. |
| `HabitServer.GetHabits` | mini-app/convex/entity/habit.ts:31-67 | An unauthenticated caller gets `[]`. Each entry is one of the caller's habits with its stored document. Entries are newest first. Each entry's completions are the reference list `DatesOf` of the caller's completions of that habit. |
| `HabitServer.GetHabitsListsAllOwned` | mini-app/convex/entity/habit.ts:39-43 | In a valid store, every habit the caller owns appears in the answer. |
| `HabitServer.GetHabitsSameHabits` | mini-app/convex/entity/habit.ts:39-43 | Two stores with the same habits table and id counter give `getHabits` answers of the same length, with the same habits in the same order; only the dates can differ. |
| `HabitServer.GetHabitsEmptyWithoutHabits` | mini-app/convex/entity/habit.ts:45-47 | A caller who owns no habit gets `[]`. |
| `HabitServer.CompletionsOf` | mini-app/convex/entity/habit.ts:49-52 | The `by_user` scan holds exactly the caller's completion records, each as many times as it occurs in the store, and no record of another user. |
| `HabitServer.DatesOf` | mini-app/convex/entity/habit.ts:49-64 | Each date occurs in a habit's list exactly as many times as there are records for that habit and date. This is the multiset of the dates. |
| `HabitServer.GroupByHabit` | mini-app/convex/entity/habit.ts:54-60 | The `completionsByHabit` loop files every record's date under its habit, and a habit gets an entry only with at least one date. |
| `HabitServer.GroupByHabitIsDatesOf` | mini-app/convex/entity/habit.ts:54-64 | The map built by the loop holds, for every habit, exactly the reference list of its dates. A habit with no completions has no entry, so it gets `[]`. |
| `HabitServer.FindMark` | mini-app/convex/entity/habit.ts:86-89 | The lookup finds nothing exactly when no record marks `(habitId, date)`; otherwise it returns the position of a record that does. |
| `HabitServer.Toggle` | mini-app/convex/entity/habit.ts:75-104 | The errors come in gate order, each under its exact condition: `NotAuthenticated`, then `HabitNotFound` (missing or foreign habit), then `CompletionNotUnique`, then `CompletionForbidden` (the record belongs to someone else). On success habits are unchanged. The answer is "checked" exactly when no record was there. Afterwards exactly one or zero records mark `(habitId, date)`. The records change by exactly the caller's mark, added or removed. No other `(habit, date)` count changes. |
| `HabitServer.ToggleChangesOnlyItsMark` | mini-app/convex/entity/habit.ts:91-103 | Every record not for `(habitId, date)` is present after a toggle iff it was before. The only record for `(habitId, date)` afterwards is the caller's, and only after "checked". "Unchecked" removed the caller's record. "Checked" happened only when no record was there. |
| `HabitServer.ToggleKeepsValid` | mini-app/convex/entity/habit.ts:86-104 | Toggling keeps the store invariant, including "at most one completion per (habit, date)". |
| `HabitServer.ToggleFailsOnlyAtGates` | mini-app/convex/entity/habit.ts:76-94 | In a valid store a toggle fails only at the authentication or ownership gate. The uniqueness and completion-ownership checks never fire. |
| `HabitServer.ToggleTwiceRestores` | mini-app/convex/entity/habit.ts:86-104 | A second identical toggle after a successful one succeeds with the other answer and restores habits and the multiset of records. Starting from "absent", it restores the store exactly. |
| `HabitServer.RemoveAtCounts` | mini-app/convex/entity/habit.ts:95 | Deleting a document removes exactly that record and its one mark. |
| `HabitServer.AppendCounts` | mini-app/convex/entity/habit.ts:98-102 | Inserting a document adds exactly its one mark. |
| `Schema.CountMarks` | mini-app/convex/entity/habit.ts:86-89 | The number of records the `by_habit_and_date` lookup finds is zero exactly when no record marks the pair. |
| `HabitCard.Dedup` | mini-app/src/routes/index.tsx:87-93 | `Array.from(new Set(xs))` has no duplicates and the same elements as `xs`. |
| `HabitCard.Without` | mini-app/src/routes/index.tsx:89 | Deleting a date leaves every other element and none of that date, without adding duplicates. |
| `HabitCard.FlipDate` | mini-app/src/routes/index.tsx:87-93 | The new list has no duplicates. It holds `date` iff the old one did not, and every other date iff the old one did. |
| `HabitCard.ApplyToggle` | mini-app/src/routes/index.tsx:85-96 | Same length. Entries with another id are unchanged. The matching entry keeps its id and habit and has `date` flipped, all other dates kept, and no duplicates. |
| `HabitCard.OptimisticUpdate` | mini-app/src/routes/index.tsx:77-103 | No-op without a session or without a cached answer. Otherwise only the cached answer for that session is rewritten, by `ApplyToggle`. |
| `HabitCard.FlipDateTwice` | mini-app/src/routes/index.tsx:87-93 | Flipping a date twice restores the set of dates. On a duplicate-free list lacking the date it restores the list itself. |
| `HabitCard.OptimisticUpdateTwice` | mini-app/src/routes/index.tsx:85-96 | Applying the optimistic update twice gives every cached habit its original id, habit and date set back. |
| `HabitCard.IsCompletedToday` | mini-app/src/routes/index.tsx:105-106 | The card counts as done today exactly when today's key occurs somewhere in its completion list. |
| `HabitCard.HandleToggle` | mini-app/src/routes/index.tsx:108-118 | Nothing is sent exactly when there is no session. Otherwise the one call sent toggles today's key for this card's habit. |
| `HabitCard.HandleToggleFlipsToday` | mini-app/src/routes/index.tsx:105-118 | Pressing a cached card's button flips its "completed today" state (`includes` of today's key) and keeps every other date. |
| `HabitCard.ButtonMatchesLastCell` | mini-app/src/routes/index.tsx:105-151 | The card's button state agrees with the last (today's) cell of its heatmap. |
| `HabitCard.OptimisticMatchesServer` | mini-app/src/routes/index.tsx:85-96 | Take the `getHabits` answer after a successful server toggle, and the optimistic update of the answer before it. Both list the same habits in the same order, with the same date sets. |
| `HabitCard.OptimisticMatchesServerAt` | mini-app/src/routes/index.tsx:85-96 | The same agreement for one position `i` of the list: same id, same habit, same date set. |
| `HabitCard.ToggledDateSet` | mini-app/convex/entity/habit.ts:86-103 | After a successful toggle, the caller's dates for the toggled habit are the old dates with `date` flipped, and every other habit's dates are the same set as before. |
| `HabitCard.ToggledDates` | mini-app/convex/entity/habit.ts:86-103 | After a successful toggle, the caller's date list for the toggled habit holds the toggled date exactly after "checked", and held it before exactly when the answer is "unchecked". Every other date of every habit is listed after iff it was before. |
| `Heatmap.Window` | mini-app/src/components/HabitCalendar.tsx:14 | The window has 365 days, from today minus 364 to today, each exactly one day after the previous. |
| `Heatmap.WindowIsInterval` | mini-app/src/components/HabitCalendar.tsx:14 | A day is in the window iff it lies between today minus 364 and today. |
| `Heatmap.MondayIndex` | mini-app/src/components/HabitCalendar.tsx:15 | `dayOffset` is in 0..6 and equals `(getDay + 6) % 7`: Sunday gives 6, Monday gives 0. |
| `Heatmap.DayOffsetAsWritten` | mini-app/src/components/HabitCalendar.tsx:13-15 | The source's leading-blank count, from the weekday of the year start, lies in 0..6. |
| `Heatmap.RenderAsWritten` | mini-app/src/components/HabitCalendar.tsx:13-47 | The grid as drawn: the cells are the 365 window cells, and the first day cell sits in the row of the year start's Monday-first weekday, whatever day it is. Cell `i` sits `i` rows further on, modulo seven. |
| `Heatmap.Cells` | mini-app/src/components/HabitCalendar.tsx:17-34 | Cell `i` is day today minus 364 plus `i`, with that day's key. It is coloured iff the key is in the completions. |
| `Heatmap.CellsIgnoreDuplicatesAndOrder` | mini-app/src/routes/index.tsx:30-47 | Two completion lists with the same elements give identical cells: duplicates and order do not matter. |
| `Heatmap.CellKeysDistinct` | mini-app/src/components/HabitCalendar.tsx:32-37 | With an injective formatter, the cells' keys are pairwise distinct. |
| `Heatmap.AsWrittenAlignedIff` | mini-app/src/components/HabitCalendar.tsx:13-31 | The source's grid puts every day in its own Monday-first weekday row iff the year started on today's weekday. |
| `Heatmap.AsWrittenMisaligned` | mini-app/src/routes/index.tsx:26-44 | Take today as 2024-06-15 and the year start as 2024-01-01. The source draws no blanks, and the first cell, a Saturday, lands in the Monday row. |
| `Heatmap.Render` | mini-app/src/components/HabitCalendar.tsx:12-47 | The corrected grid has the same cells and fewer than seven blanks, and every day sits in its Monday-first weekday row. |
| `HabitForm.InitialFields` | mini-app/src/components/HabitForm.tsx:81-84 | Without a habit the form starts with emoji 🎉, empty name and description, and the first palette colour. With a habit it takes the habit's name, and its emoji, description and colour where non-empty. A habit with an empty emoji starts on 🎉, one with an empty colour on the first palette colour, and one without a description on `''`. Either way the form starts with an emoji and a colour. |
| `HabitForm.SyncFromHabit` | mini-app/src/components/HabitForm.tsx:92-99 | When a habit is present, every field is overwritten with the habit's value, and a missing description becomes `''`. Without one, nothing changes. |
| `HabitForm.SyncKeepsInitialFields` | mini-app/src/components/HabitForm.tsx:81-99 | For a habit with an emoji and a colour, or no habit at all, the effect leaves the initial state unchanged. |
| `HabitForm.TrimStart` | mini-app/src/components/HabitForm.tsx:107 | Drops exactly the leading run of JavaScript white space. |
| `HabitForm.TrimEnd` | mini-app/src/components/HabitForm.tsx:107 | Drops exactly the trailing run of JavaScript white space. |
| `HabitForm.Trim` | mini-app/src/components/HabitForm.tsx:107 | The trimmed name is no longer than the name, and when it is not empty it neither starts nor ends with white space. |
| `HabitForm.TrimIsSlice` | mini-app/src/components/HabitForm.tsx:107 | The trimmed name is one contiguous stretch of the name, and what lies before and after that stretch is white space. |
| `HabitForm.TrimEmptyIffBlank` | mini-app/src/components/HabitForm.tsx:107-110 | `name.trim()` is empty iff the name is empty or consists only of white space. |
| `HabitForm.FirstFailing` | mini-app/src/components/HabitForm.tsx:101-120 | The chain stops at the first failing check: every earlier check passes. |
| `HabitForm.SaveChecks` | mini-app/src/components/HabitForm.tsx:101-120 | There are four checks, for the session, the name, the emoji and the colour, in that order. Check 0 passes iff there is a session. Check 1 passes iff the name is not blank. Check 2 passes iff an emoji is chosen, and check 3 iff a colour is chosen. |
| `HabitForm.FirstFailingSaveCheck` | mini-app/src/components/HabitForm.tsx:101-120 | The checks run as session, then name, then emoji, then colour. |
| `HabitForm.HandleSave` | mini-app/src/components/HabitForm.tsx:101-145 | Each error is reported exactly when its check fails and all earlier ones pass. No call is sent unless all pass. Create mode sends one `createHabit` with the current fields. Edit mode sends `updateHabit` with the habit's id, and sends nothing when there is no habit. |
| `HabitForm.FreshFormNeedsName` | mini-app/src/components/HabitForm.tsx:81-110 | With a session, a fresh create form is rejected only for its empty name. |
| `HabitForm.SavedHabitIsWellFormed` | mini-app/src/components/HabitForm.tsx:123-130 | A create call sent by the form succeeds for a signed-in user. It stores a habit owned by that user, with a non-blank name, an emoji and a colour. |

## Left out

- The data-store runtime: index machinery, document ids of completions, `_creationTime`, transactions. Mutations are treated as serializable, as the platform provides; an aborted mutation leaves the store unchanged.
- `getAuthenticatedUser`: its logic lives in a file that is not part of this model; it is the `Auth` parameter.
- `HabitServer.CreateHabit`: the source returns nothing; the model returns the new habit's id so that lemmas can name it.
- `HabitServer.GetHabits`: completeness (every owned habit is listed) is proved only for valid stores, in `GetHabitsListsAllOwned`, because only there are all ids below the counter.
- `HabitServer.Toggle`: the converse of the `CompletionForbidden` condition is not stated; it follows from the other clauses.
- `updateHabit`, `getHabit`, `createOrUpdateStreakGoal` and streak counting: their implementations are not part of this model; the form's `updateHabit` call is modelled only as the call it sends.
- The streak-goal table, users, sessions, nonces and payments: unrelated to these functions.
- React rendering, refs, scroll position, popovers and the emoji picker, toasts, navigation and the `onSave` callback. Only the decisions they are driven by are modelled.
- The `try`/`catch` around the calls in `handleSave` and `handleToggle`: what happens after a call is sent, including rolling back an optimistic update, is up to the framework.
- Real dates: `new Date()`, `format`, `subDays`, `startOfYear`, `getDay` and the local time zone. Days are numbers, the formatter is a parameter, and the year start is a parameter that is not derived from today.
- `HabitDetailDrawer.tsx`, `add.tsx` and the edit route: UI glue around the modelled components.

## Findings

| source | as written | input that shows it | evidently intended | confidence | as-written member | corrected member |
|---|---|---|---|---|---|---|
| mini-app/src/components/HabitCalendar.tsx:15 (and its copy at mini-app/src/routes/index.tsx:28) | The Monday-based leading-blank count is taken from the weekday of January 1, but the first cell drawn is today minus 364, which is on today's weekday. | Today is Saturday 2024-06-15 and the year started on Monday 2024-01-01: no blanks are drawn and the Saturday cell sits in the Monday row. | The blanks come from the weekday of the first day shown, so that row `r` of the seven-row grid holds weekday `r`, Monday first. | medium, not executed | `Heatmap.AsWrittenMisaligned` | `Heatmap.Render` |
