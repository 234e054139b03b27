/**
 * The note record every screen passes around, and the form state the add and
 * edit screens hold before a note is built from it.
 */
module Notes {
  import opened Wrappers

  type NoteId = string

  /** An ISO-8601 time stamp, kept opaque: the model never compares or builds one. */
  type Timestamp = string

  datatype Coords = Coords(latitude: real, longitude: real)

  /**
   * A note as stored in the list. The media fields are `None` when absent from
   * a stored record (JavaScript `undefined` or `null`); notes built by the
   * screens always carry them.
   */
  datatype Note = Note(
    id: NoteId,
    title: string,
    content: string,
    createdAt: Timestamp,
    updatedAt: Timestamp,
    audioUri: Option<string>,
    imageUri: Option<string>,
    location: Option<Coords>)

  /** The state of the add and edit forms: title, content, picked image, recording, location. */
  datatype NoteForm = NoteForm(
    title: string,
    content: string,
    imageUri: string,
    audioUri: string,
    location: Option<Coords>)

  /** What a form's submit handler does: alert and stay, or hand a note to the store. */
  datatype Submission = Rejected(message: string) | Accepted(note: Note)

  const MissingFieldsMessage := "Please enter both title and content."

  /** Some note in `notes` carries `id`. */
  predicate HasId(notes: seq<Note>, id: NoteId)
  {
    exists i :: 0 <= i < |notes| && notes[i].id == id
  }

  /** No two notes in `notes` share an id. */
  predicate UniqueIds(notes: seq<Note>)
  {
    forall i, j :: 0 <= i < j < |notes| ==> notes[i].id != notes[j].id
  }
}
