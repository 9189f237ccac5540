/** The application state of app.js and the handlers that change it: the
    start/stop button (`onToggleTimer`, app.js:192-235), the category and note
    fields, whose changes reach the timer state at any time, running or not
    (app.js:468-475), the rounding switch (app.js:119-123),
    adding a category (`onAddCategory`, app.js:179-190), editing an entry
    (`editEntry`, app.js:351-373) and deleting one (`deleteEntry`,
    app.js:375-380). What the user types into a field or a dialog, the current
    time and a fresh id are parameters. */
module Tracker {
  import opened Wrappers
  import opened Text
  import opened Rounding
  import opened Entries
  import opened Aggregation

  /** DEFAULT_CATEGORIES (app.js:15-24). */
  const DefaultCategories: seq<string> := [
    "Unterricht", "Vor-/Nachbereitung", "Korrekturen", "Konferenzen",
    "Pausenaufsicht", "Elternkontakte", "Fortbildung", "Sonstiges"]

  /** What a date/time dialog of `editEntry` yields: nothing (cancelled or left
      empty), text that is no date, or a timestamp. */
  datatype TimeInput = Dismissed | Unparseable | At(ms: int)

  datatype EditOutcome = Edited | NoSuchEntry | EditCancelled | InvalidTimes

  datatype AddOutcome = Added | NameCancelled | BlankName | DuplicateName

  /** The category an edit stores (app.js:358 and 368): the dialog's text,
      trimmed, unless it is blank. A cancelled or empty dialog falls back to
      the old category, which is then trimmed too (unless it is blank itself);
      a dialog holding only whitespace keeps the old category as it is. */
  function EditedCategory(previous: string, input: Option<string>): (r: string)
    ensures input.Some? && !IsBlank(input.value) ==> r == Trim(input.value)
    ensures input.Some? && input.value != "" && IsBlank(input.value) ==> r == previous
    ensures (input.None? || input.value == "") ==> r == if IsBlank(previous) then previous else Trim(previous)
  {
    var c := if input.None? || input.value == "" then previous else input.value;
    TrimEmptyIffBlank(previous);
    TrimEmptyIffBlank(c);
    if Trim(c) != "" then Trim(c) else previous
  }

  /** The note an edit stores (app.js:359 and 369): the dialog's text, or the
      old note when the dialog was cancelled, trimmed either way. */
  function EditedNote(previous: string, input: Option<string>): (r: string)
    // These only unfold the definition; EditedNoteMeaning says what the result is.
    ensures input.Some? ==> r == Trim(input.value)
    ensures input.None? ==> r == Trim(previous)
  {
    Trim(if input.None? then previous else input.value)
  }

  /** What the stored note is, whichever dialog answer produced it: the chosen
      text (the answer, or the old note when cancelled) with exactly its
      leading and trailing whitespace cut off. It is empty exactly when that
      text is blank, so an empty answer clears the note. */
  lemma EditedNoteMeaning(previous: string, input: Option<string>)
    ensures var t, r := if input.None? then previous else input.value, EditedNote(previous, input);
      var k := |t| - |TrimStart(t)|;
      && k + |r| <= |t| && r == t[k..k + |r|]
      && IsBlank(t[..k]) && IsBlank(t[k + |r|..])
      && (r == [] || (!IsWhitespace(r[0]) && !IsWhitespace(r[|r| - 1])))
      && (r == [] <==> IsBlank(t))
      && (input == Some("") ==> r == "")
  {
    var t := if input.None? then previous else input.value;
    TrimShape(t);
    TrimEdges(t);
    TrimEmptyIffBlank(t);
  }

  /** The duration a stop records (app.js:209-210). */
  function RecordedDuration(elapsed: int, rounding5: bool): (d: int)
    ensures !rounding5 ==> d == elapsed
    ensures rounding5 ==> d % FiveMinutesMs == 0 && elapsed - FiveMinutesMs / 2 < d <= elapsed + FiveMinutesMs / 2
  {
    if rounding5 then RoundTo5Minutes(elapsed) else elapsed
  }

  predicate AllConsistent(s: seq<Entry>)
  {
    forall i :: 0 <= i < |s| ==> Consistent(s[i])
  }

  lemma ReplaceKeepsConsistent(s: seq<Entry>, k: nat, e: Entry)
    requires k < |s| && AllConsistent(s) && Consistent(e)
    ensures AllConsistent(s[k := e])
  {
  }

  class App {
    var entries: seq<Entry>
    var categories: seq<string>
    /** The timer state `state` (app.js:28). */
    var running: bool
    var startTime: Option<int>
    var category: string
    var note: string
    /** The setting `settings.rounding5` (app.js:29). */
    var rounding5: bool

    /** The invariant the handlers keep: a running timer has a start time,
        categories are distinct, and every entry spans its duration. */
    ghost predicate Valid()
      reads this
    {
      && (running ==> startTime.Some?)
      && Distinct(categories)
      && AllConsistent(entries)
    }

    /** The state on first use, when storage holds nothing (app.js:26-29). */
    constructor ()
      ensures Valid()
      ensures entries == [] && categories == DefaultCategories
      ensures !running && startTime == None && category == DefaultCategories[0] && note == ""
      ensures !rounding5
    {
      entries := [];
      categories := DefaultCategories;
      running := false;
      startTime := None;
      category := if DefaultCategories[0] != "" then DefaultCategories[0] else "Sonstiges";
      note := "";
      rounding5 := false;
    }

    /** `onToggleTimer` (app.js:192-235). `now` is the current time,
        `freshId` the id generated for a new entry, `selected` the value of the
        category field and `noteText` the text of the note field. */
    method ToggleTimer(now: int, freshId: string, selected: string, noteText: string)
      requires Valid()
      modifies this
      ensures Valid()
      ensures categories == old(categories) && rounding5 == old(rounding5)
      // start: the timer runs from now with the chosen category and note
      ensures !old(running) ==>
        && running && startTime == Some(now)
        && category == selected && note == Trim(noteText)
        && entries == old(entries)
      // stop: one entry is appended, the timer is idle and keeps the fields
      ensures old(running) ==>
        && !running && startTime == None
        && category == selected && note == Trim(noteText)
        && |entries| == |old(entries)| + 1
        && entries[..|old(entries)|] == old(entries)
        && var e := entries[|old(entries)|];
        && e.id == freshId
        && e.start == old(startTime).value
        && e.durationMs == RecordedDuration(now - e.start, old(rounding5))
        && e.end == e.start + e.durationMs
        && e.category == (if old(category) != "" then old(category) else selected)
        && e.note == (if old(note) != "" then old(note) else Trim(noteText))
    {
      if !running {
        running := true;
        startTime := Some(now);
        category := selected;
        note := Trim(noteText);
      } else {
        var start := startTime.value;
        var duration := now - start;
        if rounding5 {
          duration := RoundTo5Minutes(duration);
        }
        var entry := Entry(
          freshId,
          start,
          start + duration,
          duration,
          if category != "" then category else selected,
          if note != "" then note else Trim(noteText));
        entries := entries + [entry];
        running, startTime, category, note := false, None, selected, Trim(noteText);
      }
    }

    /** A change of the category field (app.js:468-471). */
    method SelectCategory(selected: string)
      requires Valid()
      modifies this`category
      ensures Valid() && category == selected
    {
      category := selected;
    }

    /** Typing in the note field (app.js:472-475). */
    method TypeNote(noteText: string)
      requires Valid()
      modifies this`note
      ensures Valid() && note == Trim(noteText)
    {
      note := Trim(noteText);
    }

    /** The rounding switch (app.js:119-123). */
    method SetRounding5(on: bool)
      requires Valid()
      modifies this`rounding5
      ensures Valid() && rounding5 == on
    {
      rounding5 := on;
    }

    /** `onAddCategory` (app.js:179-190); `name` is what the dialog returned,
        None when it was cancelled. */
    method AddCategory(name: Option<string>) returns (outcome: AddOutcome)
      requires Valid()
      modifies this`categories
      ensures Valid()
      ensures outcome == NameCancelled <==> name.None? || name.value == ""
      ensures outcome == BlankName <==> name.Some? && name.value != "" && IsBlank(name.value)
      ensures outcome == DuplicateName <==> name.Some? && !IsBlank(name.value) && Trim(name.value) in old(categories)
      ensures outcome == Added ==> categories == old(categories) + [Trim(name.value)]
      ensures outcome != Added ==> categories == old(categories)
    {
      if name.None? || name.value == "" {
        return NameCancelled;
      }
      var trimmed := Trim(name.value);
      TrimEmptyIffBlank(name.value);
      if trimmed == "" {
        return BlankName;
      }
      if trimmed in categories {
        return DuplicateName;
      }
      categories := categories + [trimmed];
      outcome := Added;
    }

    /** `editEntry(id)` (app.js:351-373). `newStart` and `newEnd` are what the
        two time dialogs yield, `newCat` and `newNote` what the category and
        note dialogs return (None when cancelled). */
    method EditEntry(id: string, newStart: TimeInput, newEnd: TimeInput, newCat: Option<string>, newNote: Option<string>)
      returns (outcome: EditOutcome)
      requires Valid()
      modifies this`entries
      ensures Valid()
      ensures outcome == NoSuchEntry <==> FirstIndexWithId(old(entries), id).None?
      ensures outcome == EditCancelled <==>
        FirstIndexWithId(old(entries), id).Some? && (newStart.Dismissed? || newEnd.Dismissed?)
      ensures outcome == InvalidTimes <==>
        && FirstIndexWithId(old(entries), id).Some?
        && !newStart.Dismissed? && !newEnd.Dismissed?
        && !(newStart.At? && newEnd.At? && newEnd.ms > newStart.ms)
      ensures outcome == Edited <==>
        && FirstIndexWithId(old(entries), id).Some?
        && newStart.At? && newEnd.At? && newEnd.ms > newStart.ms
      ensures outcome != Edited ==> entries == old(entries)
      ensures outcome == Edited ==>
        var k := FirstIndexWithId(old(entries), id).value;
        var e := old(entries)[k];
        && |entries| == |old(entries)|
        && (forall j :: 0 <= j < |entries| && j != k ==> entries[j] == old(entries)[j])
        && entries[k] == Entry(id, newStart.ms, newEnd.ms, newEnd.ms - newStart.ms,
                               EditedCategory(e.category, newCat), EditedNote(e.note, newNote))
    {
      var found := FirstIndexWithId(entries, id);
      if found.None? {
        return NoSuchEntry;
      }
      if newStart.Dismissed? || newEnd.Dismissed? {
        return EditCancelled;
      }
      if newStart.Unparseable? || newEnd.Unparseable? || newEnd.ms <= newStart.ms {
        return InvalidTimes;
      }
      var k := found.value;
      var e := entries[k];
      var edited := Entry(id, newStart.ms, newEnd.ms, newEnd.ms - newStart.ms,
                          EditedCategory(e.category, newCat), EditedNote(e.note, newNote));
      assert Consistent(edited);
      ReplaceKeepsConsistent(entries, k, edited);
      entries := entries[k := edited];
      outcome := Edited;
    }

    /** `deleteEntry(id)` (app.js:375-380); `confirmed` is the answer to the
        confirmation dialog. */
    method DeleteEntry(id: string, confirmed: bool)
      requires Valid()
      modifies this`entries
      ensures Valid()
      ensures entries == if confirmed then WithoutId(old(entries), id) else old(entries)
    {
      if confirmed {
        entries := WithoutId(entries, id);
      }
    }
  }
}
