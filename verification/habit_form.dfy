/** The create/edit habit form: its starting field values and its save
    handler, an ordered chain of checks that either reports the first failure
    or sends exactly one create or update call. */
module HabitForm {
  import opened Base
  import opened Schema
  import opened HabitServer

  /** The colour palette the form offers, in display order. */
  const Colors: seq<string> := [
    "#FF6B6B", "#FF8E8E", "#FFBDBD", "#FFE0E0", "#FFD166", "#FFE08C", "#FFEEB3", "#FFF5D6",
    "#06D6A0", "#63E2B7", "#A9EED2", "#D4F5E9", "#118AB2", "#63B4CF", "#A9D9E6", "#D4ECF2",
    "#073B4C", "#537A86", "#91B0B8", "#C3D4D8", "#FFDDC1", "#FFD1A6", "#FFC58B", "#FFB970",
    "#FFB3DE", "#FFA6D2", "#FF99C6", "#FF8CB9", "#CDB4DB", "#C1A3D1", "#B592C7", "#A981BD",
    "#BDE0FE", "#A2D2FF", "#8AC4FF", "#72B6FF", "#F4A261", "#E76F51", "#E9C46A", "#2A9D8F"
  ]

  /** The emoji a new habit starts with (U+1F389, party popper). */
  const DefaultEmoji: string := "\U{1F389}"

  datatype Mode = Create | Edit

  /** The `habit` the form is opened with in edit mode. */
  datatype FormHabit = FormHabit(id: HabitId, name: string, description: Option<string>, emoji: string, color: string)

  /** The form's editable state. */
  datatype Fields = Fields(emoji: string, name: string, description: string, color: string)

  /** JavaScript's `a || b` on strings: the empty string is falsy. */
  function OrElse(a: string, b: string): string
  {
    if a != "" then a else b
  }

  /** The `useState` initial values: the habit's fields, where present and
      non-empty, else the defaults. */
  function InitialFields(habit: Option<FormHabit>): (f: Fields)
    ensures habit.None? ==> f == Fields(DefaultEmoji, "", "", Colors[0])
    ensures f.emoji != "" && f.color != ""
    ensures habit.Some? ==> f.name == habit.value.name
    ensures habit.Some? && habit.value.emoji != "" ==> f.emoji == habit.value.emoji
    ensures habit.Some? && habit.value.color != "" ==> f.color == habit.value.color
    ensures habit.Some? && habit.value.description.Some? ==> f.description == habit.value.description.value
    ensures habit.Some? && habit.value.emoji == "" ==> f.emoji == DefaultEmoji
    ensures habit.Some? && habit.value.color == "" ==> f.color == Colors[0]
    ensures habit.Some? && habit.value.description.None? ==> f.description == ""
  {
    match habit
    case None => Fields(DefaultEmoji, "", "", Colors[0])
    case Some(h) =>
      Fields(OrElse(h.emoji, DefaultEmoji), h.name,
             if h.description.Some? then h.description.value else "",
             OrElse(h.color, Colors[0]))
  }

  /** The effect that runs when `habit` changes: a present habit overwrites
      every field with its own value, without the defaults. */
  function SyncFromHabit(f: Fields, habit: Option<FormHabit>): (g: Fields)
    ensures habit.None? ==> g == f
    ensures habit.Some? ==> g.emoji == habit.value.emoji && g.name == habit.value.name && g.color == habit.value.color
    ensures habit.Some? ==> g.description == (if habit.value.description.Some? then habit.value.description.value else "")
  {
    match habit
    case None => f
    case Some(h) => Fields(h.emoji, h.name, if h.description.Some? then h.description.value else "", h.color)
  }

  /** For a habit with an emoji and a colour, the effect leaves the initial
      state as it is: both paths open the form on the habit's own values. */
  lemma SyncKeepsInitialFields(habit: Option<FormHabit>)
    requires habit.Some? ==> habit.value.emoji != "" && habit.value.color != ""
    ensures SyncFromHabit(InitialFields(habit), habit) == InitialFields(habit)
  {
  }

  // ---------------------------------------------------------------------------
  // String.prototype.trim

  /** The characters `trim` removes: white space and line terminators. */
  predicate IsJsWhitespace(c: char)
  {
    || c == '\t' || c == '\n' || c == '\U{B}' || c == '\U{C}' || c == '\r' || c == ' '
    || c == '\U{A0}' || c == '\U{1680}' || ('\U{2000}' <= c <= '\U{200A}')
    || c == '\U{2028}' || c == '\U{2029}' || c == '\U{202F}' || c == '\U{205F}'
    || c == '\U{3000}' || c == '\U{FEFF}'
  }

  /** Reference definition: nothing but white space. */
  ghost predicate IsBlank(s: string)
  {
    forall i :: 0 <= i < |s| ==> IsJsWhitespace(s[i])
  }

  /** Drops the leading run of white space. */
  function TrimStart(s: string): (r: string)
    ensures |r| <= |s| && r == s[|s| - |r|..]
    ensures IsBlank(s[..|s| - |r|])
    ensures r != [] ==> !IsJsWhitespace(r[0])
  {
    if s != [] && IsJsWhitespace(s[0]) then TrimStart(s[1..]) else s
  }

  /** Drops the trailing run of white space. */
  function TrimEnd(s: string): (r: string)
    ensures |r| <= |s| && r == s[..|r|]
    ensures IsBlank(s[|r|..])
    ensures r != [] ==> !IsJsWhitespace(r[|r| - 1])
  {
    if s != [] && IsJsWhitespace(s[|s| - 1]) then TrimEnd(s[..|s| - 1]) else s
  }

  /** `s.trim()`. */
  function Trim(s: string): (r: string)
    ensures |r| <= |s|
    ensures r != [] ==> !IsJsWhitespace(r[0]) && !IsJsWhitespace(r[|r| - 1])
  {
    TrimEnd(TrimStart(s))
  }

  /** `trim` keeps one contiguous stretch of its input: what it drops before
      and after that stretch is white space. */
  lemma TrimIsSlice(s: string) returns (k: nat)
    ensures k + |Trim(s)| <= |s| && Trim(s) == s[k..k + |Trim(s)|]
    ensures IsBlank(s[..k]) && IsBlank(s[k + |Trim(s)|..])
  {
    var t := TrimStart(s);
    var r := TrimEnd(t);
    k := |s| - |t|;
    assert t == s[k..];
    assert r == t[..|r|];
    assert s[k + |r|..] == t[|r|..];
  }

  /** `!s.trim()` holds exactly for the blank strings. */
  lemma TrimEmptyIffBlank(s: string)
    ensures Trim(s) == "" <==> IsBlank(s)
  {
  }

  // ---------------------------------------------------------------------------
  // handleSave

  /** The toasts `handleSave` shows when a check fails. */
  datatype SaveError =
    | NoSession     // "Authentication error. Please log in again."
    | NameMissing   // "Please enter a name for the habit."
    | EmojiMissing  // "Please select an emoji for the habit."
    | ColorMissing  // "Please select a color for the habit."

  /** One check of the chain: whether it passes, and what it reports if not. */
  datatype Check = Check(passes: bool, error: SaveError)

  /** Position of the first failing check, or `|checks|` when all pass. */
  function FirstFailing(checks: seq<Check>): (k: nat)
    ensures k <= |checks|
    ensures forall j :: 0 <= j < k ==> checks[j].passes
    ensures k < |checks| ==> !checks[k].passes
  {
    if checks == [] then 0
    else if !checks[0].passes then 0
    else 1 + FirstFailing(checks[1..])
  }

  /** The checks of `handleSave`, in the order it runs them. */
  function SaveChecks(sessionId: SessionId, f: Fields): (checks: seq<Check>)
    ensures |checks| == 4
    ensures (forall i :: 0 <= i < |checks| ==> checks[i].passes) <==>
      sessionId != "" && !IsBlank(f.name) && f.emoji != "" && f.color != ""
    ensures checks[0].error == NoSession && checks[1].error == NameMissing
    ensures checks[2].error == EmojiMissing && checks[3].error == ColorMissing
    ensures checks[0].passes == (sessionId != "") && checks[1].passes == !IsBlank(f.name)
    ensures checks[2].passes == (f.emoji != "") && checks[3].passes == (f.color != "")
  {
    var nameGiven := Trim(f.name) != "";
    TrimEmptyIffBlank(f.name);
    var checks := [ Check(sessionId != "", NoSession),
                    Check(nameGiven, NameMissing),
                    Check(f.emoji != "", EmojiMissing),
                    Check(f.color != "", ColorMissing) ];
    assert (forall i :: 0 <= i < |checks| ==> checks[i].passes) <==>
      checks[0].passes && checks[1].passes && checks[2].passes && checks[3].passes;
    checks
  }

  /** Which check of the chain fails first. */
  lemma FirstFailingSaveCheck(sessionId: SessionId, f: Fields)
    ensures FirstFailing(SaveChecks(sessionId, f)) ==
      if sessionId == "" then 0
      else if Trim(f.name) == "" then 1
      else if f.emoji == "" then 2
      else if f.color == "" then 3
      else 4
  {
  }

  /** The arguments both calls carry (the form always sends a description,
      the empty string when there is none). */
  datatype HabitArgs = HabitArgs(sessionId: SessionId, name: string, description: string, emoji: string, color: string)

  datatype SaveCall = CreateCall(args: HabitArgs) | UpdateCall(id: HabitId, args: HabitArgs)

  /** What one press of the save button does. */
  datatype SaveOutcome =
    | Rejected(reason: SaveError)   // a check failed: a toast, no call
    | Sent(call: SaveCall)          // exactly one call is issued
    | NothingSent                   // edit mode without a habit

  /** `handleSave`: the first failing check decides the toast; when all pass,
      create mode sends `createHabit` and edit mode sends `updateHabit` for the
      habit being edited, if there is one. */
  function HandleSave(sessionId: SessionId, f: Fields, mode: Mode, habit: Option<FormHabit>): (out: SaveOutcome)
    ensures out.Rejected? <==> sessionId == "" || IsBlank(f.name) || f.emoji == "" || f.color == ""
    ensures out == Rejected(NoSession) <==> sessionId == ""
    ensures out == Rejected(NameMissing) <==> sessionId != "" && IsBlank(f.name)
    ensures out == Rejected(EmojiMissing) <==> sessionId != "" && !IsBlank(f.name) && f.emoji == ""
    ensures out == Rejected(ColorMissing) <==> sessionId != "" && !IsBlank(f.name) && f.emoji != "" && f.color == ""
    ensures out.Sent? && mode == Create ==>
      out.call == CreateCall(HabitArgs(sessionId, f.name, f.description, f.emoji, f.color))
    ensures out.Sent? && mode == Edit ==>
      habit.Some? && out.call == UpdateCall(habit.value.id, HabitArgs(sessionId, f.name, f.description, f.emoji, f.color))
    ensures out == NothingSent <==> !out.Rejected? && mode == Edit && habit.None?
  {
    TrimEmptyIffBlank(f.name);
    FirstFailingSaveCheck(sessionId, f);
    var checks := SaveChecks(sessionId, f);
    var k := FirstFailing(checks);
    if k < |checks| then Rejected(checks[k].error)
    else
      var args := HabitArgs(sessionId, f.name, f.description, f.emoji, f.color);
      match mode
      case Create => Sent(CreateCall(args))
      case Edit => if habit.Some? then Sent(UpdateCall(habit.value.id, args)) else NothingSent
  }

  /** A fresh create form passes the emoji and colour checks, so with a
      session its only complaint is the empty name. */
  lemma FreshFormNeedsName(sessionId: SessionId)
    requires sessionId != ""
    ensures HandleSave(sessionId, InitialFields(None), Create, None) == Rejected(NameMissing)
  {
  }

  /** A create call the form sends succeeds on the server for a signed-in
      user and stores a habit with a non-blank name, an emoji and a colour. */
  lemma SavedHabitIsWellFormed(s: Store, auth: Auth, sessionId: SessionId, f: Fields)
    requires auth(sessionId).Some?
    requires HandleSave(sessionId, f, Create, None).Sent?
    ensures
      var a := HandleSave(sessionId, f, Create, None).call.args;
      var r := CreateHabit(s, auth, a.sessionId, a.name, Some(a.description), a.emoji, a.color);
      && r.Ok?
      && !IsBlank(r.store.habits[r.value].name)
      && r.store.habits[r.value].emoji != "" && r.store.habits[r.value].color != ""
      && r.store.habits[r.value].userId == auth(sessionId).value
  {
  }
}
