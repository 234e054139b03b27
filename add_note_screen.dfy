/**
 * The add screen's submit handler: refuse a blank title or content, otherwise
 * build a new note from the raw form values and hand it to the store.
 */
module AddNoteScreen {
  import opened Wrappers
  import opened Strings
  import opened Notes
  import opened NoteContext
  import UuidUtils

  /** The form as the screen opens: no text, no recording, no image, no location. */
  const EmptyForm := NoteForm("", "", "", "", None)

  /**
   * `handleAddNote` with the generated id and the two clock readings passed
   * in (the handler reads the clock once per time stamp): blank fields are
   * refused, otherwise the new record keeps the untrimmed text, takes each
   * time stamp from its own reading and carries the form's media.
   */
  function HandleAddNote(form: NoteForm, id: NoteId, created: Timestamp, updated: Timestamp): (s: Submission)
    ensures s.Rejected? <==> IsBlank(form.title) || IsBlank(form.content)
    ensures s.Rejected? ==> s.message == MissingFieldsMessage
    ensures s.Accepted? ==>
      s.note.id == id && s.note.title == form.title && s.note.content == form.content &&
      s.note.createdAt == created && s.note.updatedAt == updated
    ensures s.Accepted? ==>
      s.note.audioUri == Some(form.audioUri) && s.note.imageUri == Some(form.imageUri) &&
      s.note.location == form.location
  {
    if IsBlank(form.title) || IsBlank(form.content) then
      Rejected(MissingFieldsMessage)
    else
      Accepted(Note(
        id := id,
        title := form.title,
        content := form.content,
        createdAt := created,
        updatedAt := updated,
        audioUri := Some(form.audioUri),
        imageUri := Some(form.imageUri),
        location := form.location))
  }

  /** The guard in terms of characters: a field made only of white space is refused. */
  lemma AddRejectsWhitespace(form: NoteForm, id: NoteId, created: Timestamp, updated: Timestamp)
    ensures HandleAddNote(form, id, created, updated).Rejected? <==>
      AllWhitespace(form.title) || AllWhitespace(form.content)
  {
  }

  /** Nothing was picked: the new note has empty media locators and no location. */
  lemma AddWithoutMedia(title: string, content: string, id: NoteId, created: Timestamp, updated: Timestamp)
    requires !IsBlank(title) && !IsBlank(content)
    ensures var s := HandleAddNote(EmptyForm.(title := title, content := content), id, created, updated);
      s.Accepted? && s.note.audioUri == Some("") && s.note.imageUri == Some("") && s.note.location.None?
  {
  }

  /**
   * Submitting the form: a refused form leaves the store (list and slot)
   * untouched and draws no id; an accepted one draws a fresh id from the
   * nibble source and appends exactly one note.
   */
  method SubmitAddNote(
    store: NoteStore, form: NoteForm, nibbles: seq<UuidUtils.Nibble>,
    created: Timestamp, updated: Timestamp, writeSucceeds: bool)
    returns (s: Submission)
    requires |nibbles| == UuidUtils.NibbleCount
    modifies store
    ensures s.Rejected? <==> IsBlank(form.title) || IsBlank(form.content)
    ensures s.Rejected? ==> store.notes == old(store.notes) && store.saved == old(store.saved)
    ensures s.Accepted? ==>
      s == HandleAddNote(form, UuidUtils.Layout(nibbles), created, updated) &&
      store.notes == old(store.notes) + [s.note] &&
      store.saved == (if writeSucceeds then Holds(store.notes) else old(store.saved))
  {
    if IsBlank(form.title) || IsBlank(form.content) {
      s := Rejected(MissingFieldsMessage);
      return;
    }
    var id := UuidUtils.GenerateUuid(nibbles);
    s := HandleAddNote(form, id, created, updated);
    store.AddNote(s.note, writeSucceeds);
  }
}
