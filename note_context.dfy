/**
 * The note store behind every screen: an ordered list of notes, three
 * mutators that replace the whole list, and the single storage slot (key
 * 'notes') that every mutator overwrites with the new list.
 */
module NoteContext {
  import opened Notes
  import opened Seqs

  // ---------------------------------------------------------------- the list transforms

  /** `[...notes, note]`: the new note goes last, nothing else moves. */
  function Appended(notes: seq<Note>, note: Note): (r: seq<Note>)
    ensures |r| == |notes| + 1 && r[|notes|] == note
    ensures forall i | 0 <= i < |notes| :: r[i] == notes[i]
  {
    notes + [note]
  }

  /** `notes.map(note => note.id === updated.id ? updated : note)`. */
  function ReplaceById(notes: seq<Note>, updated: Note): (r: seq<Note>)
    ensures |r| == |notes|
  {
    if notes == [] then []
    else [if notes[0].id == updated.id then updated else notes[0]] + ReplaceById(notes[1..], updated)
  }

  /** `notes.filter(note => note.id !== id)`. */
  function RemoveById(notes: seq<Note>, id: NoteId): (r: seq<Note>)
    ensures |r| <= |notes|
    ensures forall n :: n in r ==> n in notes && n.id != id
  {
    Filter(notes, (n: Note) => n.id != id)
  }

  // ---------------------------------------------------------------- addNote

  /**
   * No duplicate check: appending keeps the ids distinct exactly when the new
   * note's id is not already in the list.
   */
  lemma AppendedUniqueIff(notes: seq<Note>, note: Note)
    requires UniqueIds(notes)
    ensures UniqueIds(Appended(notes, note)) <==> !HasId(notes, note.id)
  {
    var r := Appended(notes, note);
    if HasId(notes, note.id) {
      var i :| 0 <= i < |notes| && notes[i].id == note.id;
      assert r[i].id == r[|notes|].id;
    }
  }

  // ---------------------------------------------------------------- updateNote

  /** Position by position: an entry with the updated id is replaced, every other entry stays. */
  lemma {:induction false} ReplaceByIdAt(notes: seq<Note>, updated: Note, i: int)
    requires 0 <= i < |notes|
    ensures ReplaceById(notes, updated)[i] == if notes[i].id == updated.id then updated else notes[i]
  {
    if i > 0 {
      ReplaceByIdAt(notes[1..], updated, i - 1);
    }
  }

  /** An update whose id is not in the list changes nothing and raises nothing. */
  lemma {:induction false} ReplaceAbsentIsIdentity(notes: seq<Note>, updated: Note)
    requires !HasId(notes, updated.id)
    ensures ReplaceById(notes, updated) == notes
  {
    forall i | 0 <= i < |notes| ensures ReplaceById(notes, updated)[i] == notes[i] {
      ReplaceByIdAt(notes, updated, i);
    }
  }

  /** With distinct ids, the update lands exactly where the old note was. */
  lemma {:induction false} ReplaceInPlace(notes: seq<Note>, updated: Note, i: int)
    requires UniqueIds(notes) && 0 <= i < |notes| && notes[i].id == updated.id
    ensures ReplaceById(notes, updated) == notes[i := updated]
  {
    forall j | 0 <= j < |notes| ensures ReplaceById(notes, updated)[j] == notes[i := updated][j] {
      ReplaceByIdAt(notes, updated, j);
    }
  }

  /** Replacing keeps every id where it was, so distinct ids stay distinct. */
  lemma {:induction false} ReplaceKeepsIds(notes: seq<Note>, updated: Note)
    ensures forall i | 0 <= i < |notes| :: ReplaceById(notes, updated)[i].id == notes[i].id
    ensures UniqueIds(notes) ==> UniqueIds(ReplaceById(notes, updated))
  {
    forall i | 0 <= i < |notes| ensures ReplaceById(notes, updated)[i].id == notes[i].id {
      ReplaceByIdAt(notes, updated, i);
    }
  }

  lemma {:induction false} ReplaceIdempotent(notes: seq<Note>, updated: Note)
    ensures ReplaceById(ReplaceById(notes, updated), updated) == ReplaceById(notes, updated)
  {
    var r := ReplaceById(notes, updated);
    forall i | 0 <= i < |notes| ensures ReplaceById(r, updated)[i] == r[i] {
      ReplaceByIdAt(notes, updated, i);
      ReplaceByIdAt(r, updated, i);
    }
  }

  // ---------------------------------------------------------------- removeNote

  /**
   * Exactly the entries with that id go: every other entry keeps all its
   * occurrences, and the survivors keep their relative order.
   */
  lemma RemoveByIdDropsExactly(notes: seq<Note>, id: NoteId)
    ensures forall n :: multiset(RemoveById(notes, id))[n] == if n.id == id then 0 else multiset(notes)[n]
    ensures IsSubsequence(RemoveById(notes, id), notes)
    ensures !HasId(RemoveById(notes, id), id)
  {
    var keep := (n: Note) => n.id != id;
    forall n ensures multiset(RemoveById(notes, id))[n] == if n.id == id then 0 else multiset(notes)[n] {
      FilterCount(notes, keep, n);
    }
    FilterIsSubsequence(notes, keep);
    var r := RemoveById(notes, id);
    forall i | 0 <= i < |r| ensures r[i].id != id {
      assert r[i] in r;
    }
  }

  /** Removing an id that is not there is a no-op. */
  lemma RemoveAbsentIsIdentity(notes: seq<Note>, id: NoteId)
    requires !HasId(notes, id)
    ensures RemoveById(notes, id) == notes
  {
    FilterAllKept(notes, (n: Note) => n.id != id);
  }

  lemma RemoveIdempotent(notes: seq<Note>, id: NoteId)
    ensures RemoveById(RemoveById(notes, id), id) == RemoveById(notes, id)
  {
    FilterIdempotent(notes, (n: Note) => n.id != id);
  }

  /** Removing keeps distinct ids distinct. */
  lemma {:induction false} RemoveKeepsUnique(notes: seq<Note>, id: NoteId)
    requires UniqueIds(notes)
    ensures UniqueIds(RemoveById(notes, id))
  {
    if notes != [] {
      RemoveKeepsUnique(notes[1..], id);
      var rest := RemoveById(notes[1..], id);
      if notes[0].id != id {
        forall n | n in rest ensures n.id != notes[0].id {
          var j :| 0 <= j < |notes[1..]| && notes[1..][j] == n;
          assert notes[j + 1] == n;
        }
        assert RemoveById(notes, id) == [notes[0]] + rest;
      }
    }
  }

  // ---------------------------------------------------------------- the store

  /**
   * What `AsyncStorage.getItem('notes')` yields: nothing (or an empty
   * string), text that does not parse, or a stored list.
   */
  datatype Slot = Missing | Unreadable | Holds(snapshot: seq<Note>)

  /** The initial load: only a readable stored list replaces the current notes. */
  function Loaded(current: seq<Note>, slot: Slot): (r: seq<Note>)
    ensures slot.Holds? ==> r == slot.snapshot
    ensures !slot.Holds? ==> r == current
  {
    match slot
    case Holds(stored) => stored
    case _ => current
  }

  /** The note provider: the in-memory list and the storage slot it writes. */
  class NoteStore {
    var notes: seq<Note>
    /** The value under the storage key 'notes'. */
    var saved: Slot

    /** The slot holds exactly the in-memory list. */
    ghost predicate Synced()
      reads this
    {
      saved == Holds(notes)
    }

    /** A fresh provider: `useState([])`, with whatever the device has stored. */
    constructor (stored: Slot)
      ensures notes == [] && saved == stored
    {
      notes := [];
      saved := stored;
    }

    /** The mount effect: read the slot; failures are logged and leave the list alone. */
    method LoadNotes()
      modifies this`notes
      ensures notes == Loaded(old(notes), saved)
      ensures saved.Holds? ==> Synced()
    {
      match saved {
        case Holds(stored) =>
          notes := stored;
        case Missing =>
        case Unreadable =>
      }
    }

    /**
     * `saveNotes`: overwrite the slot with the snapshot; `writeSucceeds` is the
     * outcome of the write, and a failure is only logged.
     */
    method SaveNotes(snapshot: seq<Note>, writeSucceeds: bool)
      modifies this`saved
      ensures saved == if writeSucceeds then Holds(snapshot) else old(saved)
    {
      if writeSucceeds {
        saved := Holds(snapshot);
      }
    }

    method AddNote(note: Note, writeSucceeds: bool)
      modifies this
      ensures notes == Appended(old(notes), note)
      ensures saved == if writeSucceeds then Holds(notes) else old(saved)
      ensures UniqueIds(old(notes)) && !HasId(old(notes), note.id) ==> UniqueIds(notes)
    {
      var updatedNotes := Appended(notes, note);
      if UniqueIds(notes) {
        AppendedUniqueIff(notes, note);
      }
      notes := updatedNotes;
      SaveNotes(updatedNotes, writeSucceeds);
    }

    method UpdateNote(updated: Note, writeSucceeds: bool)
      modifies this
      ensures notes == ReplaceById(old(notes), updated)
      ensures saved == if writeSucceeds then Holds(notes) else old(saved)
      ensures !HasId(old(notes), updated.id) ==> notes == old(notes)
      ensures UniqueIds(old(notes)) ==> UniqueIds(notes)
    {
      var updatedNotes := ReplaceById(notes, updated);
      ReplaceKeepsIds(notes, updated);
      if !HasId(notes, updated.id) {
        ReplaceAbsentIsIdentity(notes, updated);
      }
      notes := updatedNotes;
      SaveNotes(updatedNotes, writeSucceeds);
    }

    method RemoveNote(id: NoteId, writeSucceeds: bool)
      modifies this
      ensures notes == RemoveById(old(notes), id)
      ensures saved == if writeSucceeds then Holds(notes) else old(saved)
      ensures !HasId(notes, id)
      ensures !HasId(old(notes), id) ==> notes == old(notes)
      ensures UniqueIds(old(notes)) ==> UniqueIds(notes)
    {
      var updatedNotes := RemoveById(notes, id);
      RemoveByIdDropsExactly(notes, id);
      if !HasId(notes, id) {
        RemoveAbsentIsIdentity(notes, id);
      }
      if UniqueIds(notes) {
        RemoveKeepsUnique(notes, id);
      }
      notes := updatedNotes;
      SaveNotes(updatedNotes, writeSucceeds);
    }
  }

  /**
   * App start: the provider mounts with an empty list, then its effect loads
   * the slot. A stored list comes back as it was saved.
   */
  method StartProvider(stored: Slot) returns (store: NoteStore)
    ensures fresh(store)
    ensures store.saved == stored
    ensures store.notes == if stored.Holds? then stored.snapshot else []
  {
    store := new NoteStore(stored);
    store.LoadNotes();
  }
}
