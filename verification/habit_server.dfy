/** The server data functions for habits: `createHabit`, `getHabits` and
    `toggleHabitCompletion`. Each mutation maps a store to either an error (the
    mutation aborts and its writes are rolled back, so the store is unchanged)
    or a result together with the new store. */
module HabitServer {
  import opened Base
  import opened Schema

  /** The `ConvexError`s the functions throw, plus the one `.unique()` throws
      when an index lookup finds more than one document. */
  datatype Error =
    | NotAuthenticated      // "User not authenticated"
    | HabitNotFound         // "Habit not found or user does not have permission"
    | CompletionNotUnique   // `.unique()` found several completions for one (habit, date)
    | CompletionForbidden   // "Permission denied to modify this completion."

  /** Outcome of a mutation: a value and the committed store, or an error. */
  datatype Mutation<T> = Ok(value: T, store: Store) | Err(error: Error)
  {
    /** The store as seen after the mutation: an error leaves it untouched. */
    function StoreAfter(s: Store): Store
    {
      if Ok? then store else s
    }
  }

  /** The two answers of `toggleHabitCompletion`: "checked" and "unchecked". */
  datatype ToggleResult = Checked | Unchecked

  /** One entry of the `getHabits` answer: the habit document spread together
      with the dates it was completed on. */
  datatype HabitView = HabitView(id: HabitId, habit: Habit, completions: seq<string>)

  /** The habit exists and `user` owns it. */
  predicate OwnsHabit(s: Store, user: UserId, habitId: HabitId)
  {
    habitId in s.habits && s.habits[habitId].userId == user
  }

  // ---------------------------------------------------------------------------
  // createHabit

  /** `createHabit`: after the auth gate, inserts one habit owned by the caller.
      The source returns nothing; the model returns the new habit's id. */
  function CreateHabit(s: Store, auth: Auth, sessionId: SessionId,
                       name: string, description: Option<string>, emoji: string, color: string): (r: Mutation<HabitId>)
    ensures r.Err? <==> auth(sessionId).None?
    ensures r.Err? ==> r.error == NotAuthenticated
    ensures r.Ok? ==> r.store.habits.Keys == s.habits.Keys + {r.value}
    ensures r.Ok? ==> r.store.habits[r.value] == Habit(auth(sessionId).value, name, description, emoji, color)
    ensures r.Ok? ==> r.store.completions == s.completions
    ensures r.Ok? && Valid(s) ==>
      && r.value !in s.habits
      && (forall id :: id in s.habits ==> r.store.habits[id] == s.habits[id] && id < r.value)
      && Valid(r.store)
  {
    match auth(sessionId)
    case None => Err(NotAuthenticated)
    case Some(user) =>
      var id := s.nextHabitId;
      Ok(id, s.(habits := s.habits[id := Habit(user, name, description, emoji, color)], nextHabitId := id + 1))
  }

  // ---------------------------------------------------------------------------
  // getHabits

  /** The ids below `n` of the habits `user` owns, newest first: the scan of
      the `by_userId` index in descending creation order. */
  function OwnedNewestFirst(habits: map<HabitId, Habit>, user: UserId, n: nat): (ids: seq<HabitId>)
    ensures forall i :: 0 <= i < |ids| ==> ids[i] < n && ids[i] in habits && habits[ids[i]].userId == user
    ensures forall id :: id < n && id in habits && habits[id].userId == user ==> id in ids
    ensures forall i, j :: 0 <= i < j < |ids| ==> ids[i] > ids[j]
    decreases n
  {
    if n == 0 then []
    else
      var older := OwnedNewestFirst(habits, user, n - 1);
      if n - 1 in habits && habits[n - 1].userId == user then [n - 1] + older else older
  }

  /** The completions of `user`, in store order: the scan of the `by_user` index. */
  function CompletionsOf(cs: seq<Completion>, user: UserId): (r: seq<Completion>)
    ensures forall c :: c in r <==> c in cs && c.userId == user
    ensures forall c :: multiset(r)[c] == if c.userId == user then multiset(cs)[c] else 0
  {
    if cs == [] then []
    else
      assert cs == [cs[0]] + cs[1..];
      (if cs[0].userId == user then [cs[0]] else []) + CompletionsOf(cs[1..], user)
  }

  /** Reference definition: the dates of the completions of `habitId`, in order. */
  function DatesOf(cs: seq<Completion>, habitId: HabitId): (r: seq<string>)
    ensures forall d :: multiset(r)[d] == CountMarks(cs, habitId, d)
  {
    if cs == [] then []
    else (if cs[0].habitId == habitId then [cs[0].date] else []) + DatesOf(cs[1..], habitId)
  }

  /** A date is listed for a habit exactly when some completion marks it. */
  lemma DatesOfMembers(cs: seq<Completion>, habitId: HabitId)
    ensures forall d :: d in DatesOf(cs, habitId) <==> exists c :: c in cs && IsMark(c, habitId, d)
  {
    forall d
      ensures d in DatesOf(cs, habitId) <==> exists c :: c in cs && IsMark(c, habitId, d)
    {
      assert d in DatesOf(cs, habitId) <==> multiset(DatesOf(cs, habitId))[d] > 0;
    }
  }

  lemma {:induction false} DatesOfSnoc(cs: seq<Completion>, c: Completion, habitId: HabitId)
    ensures DatesOf(cs + [c], habitId) == DatesOf(cs, habitId) + (if c.habitId == habitId then [c.date] else [])
    decreases |cs|
  {
    if cs == [] {
      assert [c][1..] == [];
    } else {
      assert (cs + [c])[1..] == cs[1..] + [c];
      DatesOfSnoc(cs[1..], c, habitId);
    }
  }

  /** The `completionsByHabit` map of `getHabits`, built as the source builds it:
      one pass over the completions, appending each date to its habit's list. */
  function GroupByHabit(cs: seq<Completion>): (byHabit: map<HabitId, seq<string>>)
    ensures forall c :: c in cs ==> c.habitId in byHabit && c.date in byHabit[c.habitId]
    ensures forall h :: h in byHabit ==> byHabit[h] != []
  {
    if cs == [] then map[]
    else
      var byHabit := GroupByHabit(cs[..|cs| - 1]);
      var c := cs[|cs| - 1];
      byHabit[c.habitId := (if c.habitId in byHabit then byHabit[c.habitId] else []) + [c.date]]
  }

  /** The grouping holds, for each habit, exactly the reference list of its
      dates; a habit without completions has no entry. */
  lemma {:induction false} GroupByHabitIsDatesOf(cs: seq<Completion>)
    ensures forall h :: h in GroupByHabit(cs) ==> GroupByHabit(cs)[h] == DatesOf(cs, h)
    ensures forall h :: h !in GroupByHabit(cs) ==> DatesOf(cs, h) == []
    decreases |cs|
  {
    if cs != [] {
      var init := cs[..|cs| - 1];
      var c := cs[|cs| - 1];
      assert cs == init + [c];
      GroupByHabitIsDatesOf(init);
      forall h
        ensures DatesOf(cs, h) == (if h in GroupByHabit(init) then GroupByHabit(init)[h] else []) + (if c.habitId == h then [c.date] else [])
      {
        DatesOfSnoc(init, c, h);
      }
    }
  }

  /** `getHabits`: the caller's habits newest first, each joined with the dates
      of the caller's completions of it. An unauthenticated caller gets `[]`. */
  function GetHabits(s: Store, auth: Auth, sessionId: SessionId): (views: seq<HabitView>)
    ensures auth(sessionId).None? ==> views == []
    ensures auth(sessionId).Some? ==>
      forall i :: 0 <= i < |views| ==>
        views[i].id in s.habits && views[i].habit == s.habits[views[i].id] && views[i].habit.userId == auth(sessionId).value
    ensures forall i, j :: 0 <= i < j < |views| ==> views[i].id > views[j].id
    ensures auth(sessionId).Some? ==>
      forall i :: 0 <= i < |views| ==>
        views[i].completions == DatesOf(CompletionsOf(s.completions, auth(sessionId).value), views[i].id)
  {
    match auth(sessionId)
    case None => []
    case Some(user) =>
      var ids := OwnedNewestFirst(s.habits, user, s.nextHabitId);
      if |ids| == 0 then []
      else
        var mine := CompletionsOf(s.completions, user);
        var byHabit := GroupByHabit(mine);
        GroupByHabitIsDatesOf(mine);
        seq(|ids|, i requires 0 <= i < |ids| =>
          HabitView(ids[i], s.habits[ids[i]], if ids[i] in byHabit then byHabit[ids[i]] else []))
  }

  /** In a valid store, every habit the caller owns appears in the answer. */
  lemma GetHabitsListsAllOwned(s: Store, auth: Auth, sessionId: SessionId, id: HabitId)
    requires Valid(s)
    requires auth(sessionId).Some? && OwnsHabit(s, auth(sessionId).value, id)
    ensures exists i :: 0 <= i < |GetHabits(s, auth, sessionId)| && GetHabits(s, auth, sessionId)[i].id == id
  {
    var ids := OwnedNewestFirst(s.habits, auth(sessionId).value, s.nextHabitId);
    assert id in ids;
    var i :| 0 <= i < |ids| && ids[i] == id;
    assert GetHabits(s, auth, sessionId)[i].id == id;
  }

  /** A caller who owns no habit gets `[]`. */
  lemma GetHabitsEmptyWithoutHabits(s: Store, auth: Auth, sessionId: SessionId)
    requires auth(sessionId).Some?
    ensures (forall id :: id in s.habits ==> s.habits[id].userId != auth(sessionId).value) ==>
      GetHabits(s, auth, sessionId) == []
  {
    var views := GetHabits(s, auth, sessionId);
    if views != [] {
      assert OwnsHabit(s, auth(sessionId).value, views[0].id);
    }
  }

  // ---------------------------------------------------------------------------
  // toggleHabitCompletion

  /** The first completion for `(habitId, date)`, if any. */
  function FindMark(cs: seq<Completion>, habitId: HabitId, date: string): (r: Option<nat>)
    ensures r.None? <==> CountMarks(cs, habitId, date) == 0
    ensures r.Some? ==> r.value < |cs| && IsMark(cs[r.value], habitId, date)
  {
    if cs == [] then None
    else if IsMark(cs[0], habitId, date) then Some(0)
    else match FindMark(cs[1..], habitId, date)
      case None => None
      case Some(i) => Some(i + 1)
  }

  /** Deleting the document at position `i`. */
  function RemoveAt(cs: seq<Completion>, i: nat): seq<Completion>
    requires i < |cs|
  {
    cs[..i] + cs[i + 1..]
  }

  /** Deleting one document removes exactly that document and its one mark. */
  lemma RemoveAtCounts(cs: seq<Completion>, i: nat)
    requires i < |cs|
    ensures multiset(RemoveAt(cs, i)) + multiset{cs[i]} == multiset(cs)
    ensures forall h, d :: CountMarks(RemoveAt(cs, i), h, d) + (if IsMark(cs[i], h, d) then 1 else 0) == CountMarks(cs, h, d)
  {
    assert cs == cs[..i] + [cs[i]] + cs[i + 1..];
    forall h, d
      ensures CountMarks(RemoveAt(cs, i), h, d) + (if IsMark(cs[i], h, d) then 1 else 0) == CountMarks(cs, h, d)
    {
      CountMarksConcat(cs[..i], cs[i + 1..], h, d);
      CountMarksConcat(cs[..i] + [cs[i]], cs[i + 1..], h, d);
      CountMarksConcat(cs[..i], [cs[i]], h, d);
    }
  }

  /** Inserting one document adds exactly that document and its one mark. */
  lemma AppendCounts(cs: seq<Completion>, c: Completion)
    ensures forall h, d :: CountMarks(cs + [c], h, d) == CountMarks(cs, h, d) + (if IsMark(c, h, d) then 1 else 0)
  {
    forall h, d
      ensures CountMarks(cs + [c], h, d) == CountMarks(cs, h, d) + (if IsMark(c, h, d) then 1 else 0)
    {
      CountMarksConcat(cs, [c], h, d);
    }
  }

  /** `toggleHabitCompletion`: auth gate, ownership gate, unique lookup of the
      `(habitId, date)` completion, then delete it ("unchecked") or insert one
      for the caller ("checked"). */
  function Toggle(s: Store, auth: Auth, sessionId: SessionId, habitId: HabitId, date: string): (r: Mutation<ToggleResult>)
    ensures (r.Err? && r.error == NotAuthenticated) <==> auth(sessionId).None?
    ensures (r.Err? && r.error == HabitNotFound) <==>
      auth(sessionId).Some? && !OwnsHabit(s, auth(sessionId).value, habitId)
    ensures (r.Err? && r.error == CompletionNotUnique) <==>
      auth(sessionId).Some? && OwnsHabit(s, auth(sessionId).value, habitId) && CountMarks(s.completions, habitId, date) > 1
    ensures r.Err? && r.error == CompletionForbidden ==>
      && auth(sessionId).Some? && OwnsHabit(s, auth(sessionId).value, habitId)
      && exists c :: c in s.completions && IsMark(c, habitId, date) && c.userId != auth(sessionId).value
    ensures r.Ok? ==> r.store.habits == s.habits && r.store.nextHabitId == s.nextHabitId
    ensures r.Ok? ==> forall h, d :: !(h == habitId && d == date) ==>
      CountMarks(r.store.completions, h, d) == CountMarks(s.completions, h, d)
    ensures r.Ok? ==> (r.value == Checked <==> CountMarks(s.completions, habitId, date) == 0)
    ensures r.Ok? ==> CountMarks(r.store.completions, habitId, date) == (if r.value == Checked then 1 else 0)
    ensures r.Ok? && r.value == Checked ==>
      multiset(r.store.completions) == multiset(s.completions) + multiset{Completion(habitId, auth(sessionId).value, date)}
    ensures r.Ok? && r.value == Unchecked ==>
      multiset(r.store.completions) + multiset{Completion(habitId, auth(sessionId).value, date)} == multiset(s.completions)
  {
    match auth(sessionId)
    case None => Err(NotAuthenticated)
    case Some(user) =>
      if !OwnsHabit(s, user, habitId) then Err(HabitNotFound)
      else if CountMarks(s.completions, habitId, date) > 1 then Err(CompletionNotUnique)
      else match FindMark(s.completions, habitId, date)
        case Some(i) =>
          if s.completions[i].userId != user then Err(CompletionForbidden)
          else
            RemoveAtCounts(s.completions, i);
            Ok(Unchecked, s.(completions := RemoveAt(s.completions, i)))
        case None =>
          var c := Completion(habitId, user, date);
          AppendCounts(s.completions, c);
          Ok(Checked, s.(completions := s.completions + [c]))
  }

  /** Toggling keeps the store invariant; in particular no `(habit, date)`
      pair ever ends up marked twice. */
  lemma ToggleKeepsValid(s: Store, auth: Auth, sessionId: SessionId, habitId: HabitId, date: string)
    requires Valid(s)
    ensures Valid(Toggle(s, auth, sessionId, habitId, date).StoreAfter(s))
  {
  }

  /** In a valid store the two defensive checks never fire: a toggle fails
      only at the authentication gate or the ownership gate. */
  lemma ToggleFailsOnlyAtGates(s: Store, auth: Auth, sessionId: SessionId, habitId: HabitId, date: string)
    requires Valid(s)
    ensures Toggle(s, auth, sessionId, habitId, date).Err? ==>
      Toggle(s, auth, sessionId, habitId, date).error in {NotAuthenticated, HabitNotFound}
  {
  }

  /** A successful toggle followed by the same toggle succeeds with the other
      answer and restores the store's contents; starting from "absent" it
      restores the store exactly. */
  lemma ToggleTwiceRestores(s: Store, auth: Auth, sessionId: SessionId, habitId: HabitId, date: string)
    requires Toggle(s, auth, sessionId, habitId, date).Ok?
    ensures
      var r1 := Toggle(s, auth, sessionId, habitId, date);
      var r2 := Toggle(r1.store, auth, sessionId, habitId, date);
      && r2.Ok? && r2.value != r1.value
      && r2.store.habits == s.habits
      && multiset(r2.store.completions) == multiset(s.completions)
      && (r1.value == Checked ==> r2.store == s)
  {
  }

  /** Only habits below `n` matter to the newest-first listing. */
  lemma {:induction false} OwnedNewestFirstFrame(a: map<HabitId, Habit>, b: map<HabitId, Habit>, user: UserId, n: nat)
    requires forall id :: id < n ==> (id in a <==> id in b)
    requires forall id :: id < n && id in a ==> a[id] == b[id]
    ensures OwnedNewestFirst(a, user, n) == OwnedNewestFirst(b, user, n)
    decreases n
  {
    if n > 0 {
      OwnedNewestFirstFrame(a, b, user, n - 1);
    }
  }

  /** The entries of `getHabits`, position by position. */
  lemma GetHabitsEntries(s: Store, auth: Auth, sessionId: SessionId)
    requires auth(sessionId).Some?
    ensures
      var user := auth(sessionId).value;
      var ids := OwnedNewestFirst(s.habits, user, s.nextHabitId);
      var views := GetHabits(s, auth, sessionId);
      && |views| == |ids|
      && forall i :: 0 <= i < |ids| ==>
           views[i] == HabitView(ids[i], s.habits[ids[i]], DatesOf(CompletionsOf(s.completions, user), ids[i]))
  {
  }

  /** After `createHabit` the caller's id scan is the new id followed by the
      scan as it was before. */
  lemma CreateHabitScannedFirst(s: Store, auth: Auth, sessionId: SessionId,
                                name: string, description: Option<string>, emoji: string, color: string)
    requires Valid(s)
    requires auth(sessionId).Some?
    ensures
      var r := CreateHabit(s, auth, sessionId, name, description, emoji, color);
      var user := auth(sessionId).value;
      && r.store.nextHabitId == s.nextHabitId + 1
      && OwnedNewestFirst(r.store.habits, user, r.store.nextHabitId)
           == [s.nextHabitId] + OwnedNewestFirst(s.habits, user, s.nextHabitId)
  {
    var r := CreateHabit(s, auth, sessionId, name, description, emoji, color);
    OwnedNewestFirstFrame(s.habits, r.store.habits, auth(sessionId).value, s.nextHabitId);
  }

  /** Which habits `getHabits` lists, and in which order, depends only on the
      habits table and the id counter, not on the completions. */
  lemma GetHabitsSameHabits(s: Store, t: Store, auth: Auth, sessionId: SessionId)
    requires auth(sessionId).Some?
    requires s.habits == t.habits && s.nextHabitId == t.nextHabitId
    ensures |GetHabits(t, auth, sessionId)| == |GetHabits(s, auth, sessionId)|
    ensures forall i :: 0 <= i < |GetHabits(s, auth, sessionId)| ==>
      && GetHabits(t, auth, sessionId)[i].id == GetHabits(s, auth, sessionId)[i].id
      && GetHabits(t, auth, sessionId)[i].habit == GetHabits(s, auth, sessionId)[i].habit
  {
    GetHabitsEntries(s, auth, sessionId);
    GetHabitsEntries(t, auth, sessionId);
  }

  /** In a valid store a habit id not yet handed out has no completions. */
  lemma UnknownHabitHasNoDates(s: Store, user: UserId, id: HabitId)
    requires Valid(s) && id !in s.habits
    ensures DatesOf(CompletionsOf(s.completions, user), id) == []
  {
    var dates := DatesOf(CompletionsOf(s.completions, user), id);
    assert forall d :: multiset(dates)[d] == 0;
  }

  /** After `createHabit` the caller's list starts with the new habit, with no
      completions, followed by the list as it was before. */
  lemma CreateHabitListedFirst(s: Store, auth: Auth, sessionId: SessionId,
                               name: string, description: Option<string>, emoji: string, color: string)
    requires Valid(s)
    requires auth(sessionId).Some?
    ensures
      var r := CreateHabit(s, auth, sessionId, name, description, emoji, color);
      GetHabits(r.store, auth, sessionId)
        == [HabitView(r.value, Habit(auth(sessionId).value, name, description, emoji, color), [])] + GetHabits(s, auth, sessionId)
  {
    var user := auth(sessionId).value;
    var r := CreateHabit(s, auth, sessionId, name, description, emoji, color);
    var n := s.nextHabitId;
    var s' := r.store;
    var newest := HabitView(n, Habit(user, name, description, emoji, color), []);
    CreateHabitScannedFirst(s, auth, sessionId, name, description, emoji, color);
    var ids := OwnedNewestFirst(s.habits, user, n);
    var ids' := OwnedNewestFirst(s'.habits, user, n + 1);
    UnknownHabitHasNoDates(s, user, n);
    var before := GetHabits(s, auth, sessionId);
    var after := GetHabits(s', auth, sessionId);
    GetHabitsEntries(s, auth, sessionId);
    GetHabitsEntries(s', auth, sessionId);
    assert |after| == |before| + 1;
    assert after[0] == newest;
    forall i | 1 <= i < |after|
      ensures after[i] == before[i - 1]
    {
      assert ids'[i] == ids[i - 1];
    }
  }

  /** Record-level frame of a successful toggle: only the caller's record for
      `(habitId, date)` comes or goes; every other record stays as it was. */
  lemma ToggleChangesOnlyItsMark(s: Store, auth: Auth, sessionId: SessionId, habitId: HabitId, date: string)
    requires Toggle(s, auth, sessionId, habitId, date).Ok?
    ensures
      var r := Toggle(s, auth, sessionId, habitId, date);
      var mark := Completion(habitId, auth(sessionId).value, date);
      && (forall c :: !IsMark(c, habitId, date) ==> (c in r.store.completions <==> c in s.completions))
      && (forall c :: IsMark(c, habitId, date) ==> (c in r.store.completions <==> r.value == Checked && c == mark))
      && (r.value == Unchecked ==> mark in s.completions)
      && (r.value == Checked ==> forall c :: c in s.completions ==> !IsMark(c, habitId, date))
  {
  }
}
