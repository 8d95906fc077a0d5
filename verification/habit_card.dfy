/** The habit list page: the optimistic update the client applies to its
    cached `getHabits` answer when it sends a toggle, and the card's
    "done today" button. */
module HabitCard {
  import opened Base
  import opened Schema
  import opened HabitServer
  import Heatmap

  /** Arguments of a `toggleHabitCompletion` call. */
  datatype ToggleArgs = ToggleArgs(sessionId: SessionId, habitId: HabitId, date: string)

  /** The client's local `getHabits` answers, keyed by the `sessionId` argument
      they were fetched with; a missing key is a query not in the cache. */
  type QueryCache = map<SessionId, seq<HabitView>>

  /** `Array.from(new Set(xs))`: each element once. (The order of the result
      is not stated; only its elements matter to the callers.) */
  function Dedup(xs: seq<string>): (r: seq<string>)
    ensures NoDuplicates(r)
    ensures forall x :: x in r <==> x in xs
  {
    if xs == [] then []
    else
      var init := Dedup(xs[..|xs| - 1]);
      var last := xs[|xs| - 1];
      assert xs == xs[..|xs| - 1] + [last];
      if last in init then init else init + [last]
  }

  /** `Set.delete` followed by `Array.from`: every occurrence of `x` dropped. */
  function Without(xs: seq<string>, x: string): (r: seq<string>)
    ensures forall y :: y in r <==> y in xs && y != x
    ensures NoDuplicates(xs) ==> NoDuplicates(r)
  {
    if xs == [] then []
    else if xs[0] == x then Without(xs[1..], x)
    else
      var rest := Without(xs[1..], x);
      assert NoDuplicates(xs) ==> NoDuplicates(xs[1..]) && xs[0] !in xs[1..];
      [xs[0]] + rest
  }

  /** The completions of the toggled habit after the optimistic update: the
      date set with `date` flipped, as a list without duplicates. */
  function FlipDate(dates: seq<string>, date: string): (r: seq<string>)
    ensures NoDuplicates(r)
    ensures forall d :: d in r <==> (d in dates <==> d != date)
  {
    var present := Dedup(dates);
    if date in present then Without(present, date) else present + [date]
  }

  /** The `habits.map` of the optimistic update: the habit whose id matches
      gets its date flipped; every other entry is returned as it is. */
  function ApplyToggle(views: seq<HabitView>, habitId: HabitId, date: string): (r: seq<HabitView>)
    ensures |r| == |views|
    ensures forall i :: 0 <= i < |views| && views[i].id != habitId ==> r[i] == views[i]
    ensures forall i :: 0 <= i < |views| && views[i].id == habitId ==>
      && r[i].id == views[i].id && r[i].habit == views[i].habit
      && NoDuplicates(r[i].completions)
      && forall d :: d in r[i].completions <==> (d in views[i].completions <==> d != date)
  {
    seq(|views|, i requires 0 <= i < |views| =>
      if views[i].id == habitId then views[i].(completions := FlipDate(views[i].completions, date)) else views[i])
  }

  /** The optimistic update of `toggleHabitCompletion`: without a session (an
      empty token) or without a cached `getHabits` answer it does nothing;
      otherwise it rewrites that one cached answer. */
  function OptimisticUpdate(cache: QueryCache, args: ToggleArgs): (r: QueryCache)
    ensures args.sessionId == "" || args.sessionId !in cache ==> r == cache
    ensures r.Keys == cache.Keys
    ensures forall sid :: sid in cache && sid != args.sessionId ==> r[sid] == cache[sid]
    ensures args.sessionId != "" && args.sessionId in cache ==>
      r[args.sessionId] == ApplyToggle(cache[args.sessionId], args.habitId, args.date)
  {
    if args.sessionId == "" then cache
    else if args.sessionId in cache then cache[args.sessionId := ApplyToggle(cache[args.sessionId], args.habitId, args.date)]
    else cache
  }

  /** Dropping duplicates from a list that has none changes nothing. */
  lemma {:induction false} DedupKeepsDistinct(xs: seq<string>)
    requires NoDuplicates(xs)
    ensures Dedup(xs) == xs
    decreases |xs|
  {
    if xs != [] {
      var init := xs[..|xs| - 1];
      assert NoDuplicates(init);
      DedupKeepsDistinct(init);
      assert xs[|xs| - 1] !in init;
      assert xs == init + [xs[|xs| - 1]];
    }
  }

  /** Removing the last element, when it occurs only there, gives back the rest. */
  lemma {:induction false} WithoutLast(xs: seq<string>, x: string)
    requires x !in xs
    ensures Without(xs + [x], x) == xs
    decreases |xs|
  {
    if xs == [] {
      assert Without([x], x) == Without([x][1..], x);
      assert [x][1..] == [];
    } else {
      assert (xs + [x])[1..] == xs[1..] + [x];
      WithoutLast(xs[1..], x);
      assert xs == [xs[0]] + xs[1..];
    }
  }

  /** Flipping the same date twice gives back the same set of dates; on a list
      without duplicates that lacked the date it gives back the list itself. */
  lemma FlipDateTwice(dates: seq<string>, date: string)
    ensures Elements(FlipDate(FlipDate(dates, date), date)) == Elements(dates)
    ensures NoDuplicates(dates) && date !in dates ==> FlipDate(FlipDate(dates, date), date) == dates
  {
    if NoDuplicates(dates) && date !in dates {
      DedupKeepsDistinct(dates);
      assert FlipDate(dates, date) == dates + [date];
      assert NoDuplicates(dates + [date]);
      DedupKeepsDistinct(dates + [date]);
      WithoutLast(dates, date);
    }
  }

  /** Applying the optimistic update twice gives every habit back its date set. */
  lemma OptimisticUpdateTwice(cache: QueryCache, args: ToggleArgs, sid: SessionId, i: nat)
    requires sid in cache && i < |cache[sid]|
    ensures
      var twice := OptimisticUpdate(OptimisticUpdate(cache, args), args);
      && sid in twice && |twice[sid]| == |cache[sid]|
      && twice[sid][i].id == cache[sid][i].id && twice[sid][i].habit == cache[sid][i].habit
      && Elements(twice[sid][i].completions) == Elements(cache[sid][i].completions)
  {
  }

  // ---------------------------------------------------------------------------
  // The card's button

  /** `isCompletedToday`: today's key is among the habit's completions. */
  predicate IsCompletedToday(view: HabitView, todayKey: string): (done: bool)
    ensures done <==> exists i :: 0 <= i < |view.completions| && view.completions[i] == todayKey
  {
    todayKey in view.completions
  }

  /** `handleToggle`: without a session nothing is sent (the user is told they
      are not logged in); otherwise one toggle of today's key for this habit. */
  function HandleToggle(sessionId: SessionId, view: HabitView, todayKey: string): (call: Option<ToggleArgs>)
    ensures call.None? <==> sessionId == ""
    ensures call.Some? ==>
      call.value.sessionId == sessionId && call.value.habitId == view.id && call.value.date == todayKey
  {
    if sessionId == "" then None else Some(ToggleArgs(sessionId, view.id, todayKey))
  }

  /** Pressing the button of a cached card flips exactly that card's
      "done today" state and keeps every other date of it. */
  lemma HandleToggleFlipsToday(cache: QueryCache, sessionId: SessionId, k: nat, todayKey: string)
    requires sessionId in cache && k < |cache[sessionId]|
    requires HandleToggle(sessionId, cache[sessionId][k], todayKey).Some?
    ensures
      var view := cache[sessionId][k];
      var after := OptimisticUpdate(cache, HandleToggle(sessionId, view, todayKey).value)[sessionId][k];
      && after.id == view.id
      && IsCompletedToday(after, todayKey) == !IsCompletedToday(view, todayKey)
      && forall d :: d != todayKey ==> (d in after.completions <==> d in view.completions)
  {
  }

  /** The card's button and the last cell of its heatmap agree about today. */
  lemma ButtonMatchesLastCell(view: HabitView, today: int, formatKey: int -> string)
    ensures IsCompletedToday(view, formatKey(today))
      == Heatmap.Render(today, formatKey, view.completions).cells[Heatmap.WindowDays - 1].completed
  {
  }

  // ---------------------------------------------------------------------------
  // Agreement with the server

  /** A date is listed for habit `id` in `user`'s answer exactly when one of
      `user`'s records marks it. */
  lemma ListedIffMarked(cs: seq<Completion>, user: UserId, id: HabitId, d: string)
    ensures d in DatesOf(CompletionsOf(cs, user), id) <==> exists c :: c in cs && c.userId == user && IsMark(c, id, d)
  {
    DatesOfMembers(CompletionsOf(cs, user), id);
  }

  /** How a successful toggle changes the dates the caller sees for habit
      `id`: the toggled date of the toggled habit is listed afterwards exactly
      after "checked" and was listed before exactly when the answer is
      "unchecked"; every other date is listed after iff it was before. */
  lemma ToggledDates(s: Store, auth: Auth, sessionId: SessionId, habitId: HabitId, date: string, id: HabitId, d: string)
    requires Toggle(s, auth, sessionId, habitId, date).Ok?
    ensures
      var r := Toggle(s, auth, sessionId, habitId, date);
      var user := auth(sessionId).value;
      var before := DatesOf(CompletionsOf(s.completions, user), id);
      var after := DatesOf(CompletionsOf(r.store.completions, user), id);
      && (id == habitId && d == date ==> (d in after <==> r.value == Checked) && (d in before <==> r.value == Unchecked))
      && (!(id == habitId && d == date) ==> (d in after <==> d in before))
  {
    var r := Toggle(s, auth, sessionId, habitId, date);
    var user := auth(sessionId).value;
    ToggleChangesOnlyItsMark(s, auth, sessionId, habitId, date);
    ListedIffMarked(s.completions, user, id, d);
    ListedIffMarked(r.store.completions, user, id, d);
    if id == habitId && d == date {
      var mark := Completion(habitId, user, date);
      if r.value == Checked {
        assert mark in r.store.completions;
      } else {
        assert mark in s.completions;
      }
    }
  }

  /** Two lists with the same members have the same element set. */
  lemma SameElements(a: seq<string>, b: seq<string>)
    requires forall d :: d in a <==> d in b
    ensures Elements(a) == Elements(b)
  {
  }

  /** Over all dates: a successful toggle flips `date` in the caller's date
      list of the toggled habit and leaves every other habit's dates as a set. */
  lemma ToggledDateSet(s: Store, auth: Auth, sessionId: SessionId, habitId: HabitId, date: string, id: HabitId)
    requires Toggle(s, auth, sessionId, habitId, date).Ok?
    ensures
      var user := auth(sessionId).value;
      var before := DatesOf(CompletionsOf(s.completions, user), id);
      var after := DatesOf(CompletionsOf(Toggle(s, auth, sessionId, habitId, date).store.completions, user), id);
      && (id == habitId ==> forall d :: d in after <==> (d in before <==> d != date))
      && (id != habitId ==> forall d :: d in after <==> d in before)
  {
    forall d {
      ToggledDates(s, auth, sessionId, habitId, date, id, d);
    }
  }

  /** One entry of the agreement below: the `i`-th habit of the server's
      answer after a successful toggle is the `i`-th habit of the optimistic
      update, with the same date set. */
  lemma OptimisticMatchesServerAt(s: Store, auth: Auth, sessionId: SessionId, habitId: HabitId, date: string, i: nat)
    requires Toggle(s, auth, sessionId, habitId, date).Ok?
    requires i < |GetHabits(s, auth, sessionId)|
    ensures
      var predicted := ApplyToggle(GetHabits(s, auth, sessionId), habitId, date);
      var actual := GetHabits(Toggle(s, auth, sessionId, habitId, date).store, auth, sessionId);
      && i < |actual|
      && actual[i].id == predicted[i].id && actual[i].habit == predicted[i].habit
      && Elements(actual[i].completions) == Elements(predicted[i].completions)
  {
    var r := Toggle(s, auth, sessionId, habitId, date);
    var user := auth(sessionId).value;
    var before := GetHabits(s, auth, sessionId);
    var predicted := ApplyToggle(before, habitId, date);
    var actual := GetHabits(r.store, auth, sessionId);
    GetHabitsSameHabits(s, r.store, auth, sessionId);
    var id := before[i].id;
    assert actual[i].id == id && actual[i].habit == before[i].habit;
    var b, a, p := before[i].completions, actual[i].completions, predicted[i].completions;
    assert b == DatesOf(CompletionsOf(s.completions, user), id);
    assert a == DatesOf(CompletionsOf(r.store.completions, user), id);
    ToggledDateSet(s, auth, sessionId, habitId, date, id);
    if id == habitId {
      assert forall d :: d in p <==> (d in b <==> d != date);
    } else {
      assert p == b;
    }
    SameElements(a, p);
  }

  /** The optimistic update predicts the server: the `getHabits` answer after a
      successful toggle lists the same habits, in the same order, with the same
      date sets as the optimistic update of the answer before it. */
  lemma OptimisticMatchesServer(s: Store, auth: Auth, sessionId: SessionId, habitId: HabitId, date: string)
    requires Toggle(s, auth, sessionId, habitId, date).Ok?
    ensures
      var predicted := ApplyToggle(GetHabits(s, auth, sessionId), habitId, date);
      var actual := GetHabits(Toggle(s, auth, sessionId, habitId, date).store, auth, sessionId);
      && |actual| == |predicted|
      && forall i :: 0 <= i < |actual| ==>
        && actual[i].id == predicted[i].id && actual[i].habit == predicted[i].habit
        && Elements(actual[i].completions) == Elements(predicted[i].completions)
  {
    var before := GetHabits(s, auth, sessionId);
    var actual := GetHabits(Toggle(s, auth, sessionId, habitId, date).store, auth, sessionId);
    assert |actual| == |before|;
    forall i: nat | i < |before| {
      OptimisticMatchesServerAt(s, auth, sessionId, habitId, date, i);
    }
  }
}
