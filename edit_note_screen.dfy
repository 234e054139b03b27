/**
 * The edit screen's logic: the form it opens with, and its submit handler,
 * which copies the original note and overrides the edited fields.
 */
module EditNoteScreen {
  import opened Wrappers
  import opened Strings
  import opened Notes
  import opened NoteContext
  import AddNoteScreen

  /** `value || ''` for an optional locator: absent and empty both become ''. */
  function OrEmpty(value: Option<string>): (s: string)
    ensures value.Some? ==> s == value.value
    ensures value.None? ==> s == ""
  {
    value.GetOr("")
  }

  /**
   * The form state for a note, both as first rendered and as reset by the
   * effect when the note changes: the note's text, its locators with absent
   * ones as '', and its location or null.
   */
  function FormFor(note: Note): (f: NoteForm)
    ensures f.title == note.title && f.content == note.content && f.location == note.location
    ensures f.imageUri == "" <==> note.imageUri.None? || note.imageUri == Some("")
    ensures f.audioUri == "" <==> note.audioUri.None? || note.audioUri == Some("")
    ensures note.imageUri.Some? ==> f.imageUri == note.imageUri.value
    ensures note.audioUri.Some? ==> f.audioUri == note.audioUri.value
  {
    NoteForm(note.title, note.content, OrEmpty(note.imageUri), OrEmpty(note.audioUri), note.location)
  }

  /**
   * `handleUpdateNote`: blank fields are refused; otherwise `{...note, ...}`
   * with the form's text, media and location and `now` as `updatedAt`.
   */
  function HandleUpdateNote(note: Note, form: NoteForm, now: Timestamp): (s: Submission)
    ensures s.Rejected? <==> IsBlank(form.title) || IsBlank(form.content)
    ensures s.Rejected? ==> s.message == MissingFieldsMessage
    ensures s.Accepted? ==> s.note.id == note.id && s.note.createdAt == note.createdAt
    ensures s.Accepted? ==>
      s.note.title == form.title && s.note.content == form.content && s.note.updatedAt == now &&
      s.note.imageUri == Some(form.imageUri) && s.note.audioUri == Some(form.audioUri) &&
      s.note.location == form.location
  {
    if IsBlank(form.title) || IsBlank(form.content) then
      Rejected(MissingFieldsMessage)
    else
      Accepted(note.(
        title := form.title,
        content := form.content,
        updatedAt := now,
        imageUri := Some(form.imageUri),
        audioUri := Some(form.audioUri),
        location := form.location))
  }

  /** The note with absent media locators written out as ''. */
  function Normalized(note: Note): Note
  {
    note.(imageUri := Some(OrEmpty(note.imageUri)), audioUri := Some(OrEmpty(note.audioUri)))
  }

  /**
   * Saving without edits gives back the note itself, except for the new
   * `updatedAt` and the '' written for absent locators; a note whose stored
   * text is blank cannot be saved.
   */
  lemma SaveWithoutEdits(note: Note, now: Timestamp)
    ensures HandleUpdateNote(note, FormFor(note), now) ==
      if IsBlank(note.title) || IsBlank(note.content) then Rejected(MissingFieldsMessage)
      else Accepted(Normalized(note).(updatedAt := now))
  {
  }

  /** A note made by the add screen opens in the edit screen with exactly the form it was made from. */
  lemma AddThenEditForm(form: NoteForm, id: NoteId, created: Timestamp, updated: Timestamp)
    requires !IsBlank(form.title) && !IsBlank(form.content)
    ensures AddNoteScreen.HandleAddNote(form, id, created, updated).Accepted?
    ensures FormFor(AddNoteScreen.HandleAddNote(form, id, created, updated).note) == form
  {
  }

  /** With distinct ids, the edited note takes the original's place in the list and nothing else moves. */
  lemma {:induction false} EditReplacesInPlace(notes: seq<Note>, i: int, form: NoteForm, now: Timestamp)
    requires UniqueIds(notes) && 0 <= i < |notes|
    requires HandleUpdateNote(notes[i], form, now).Accepted?
    ensures ReplaceById(notes, HandleUpdateNote(notes[i], form, now).note) ==
      notes[i := HandleUpdateNote(notes[i], form, now).note]
  {
    ReplaceInPlace(notes, HandleUpdateNote(notes[i], form, now).note, i);
  }

  /** Submitting the form: `updateNote` is called only with an accepted note. */
  method SubmitUpdateNote(store: NoteStore, note: Note, form: NoteForm, now: Timestamp, writeSucceeds: bool)
    returns (s: Submission)
    modifies store
    ensures s == HandleUpdateNote(note, form, now)
    ensures s.Rejected? ==> store.notes == old(store.notes) && store.saved == old(store.saved)
    ensures s.Accepted? ==>
      store.notes == ReplaceById(old(store.notes), s.note) &&
      store.saved == (if writeSucceeds then Holds(store.notes) else old(store.saved))
  {
    s := HandleUpdateNote(note, form, now);
    if s.Accepted? {
      store.UpdateNote(s.note, writeSucceeds);
    }
  }
}
