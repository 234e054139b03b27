/**
 * The home screen's logic: the search view over the note list, and the guard
 * that lets a confirmed delete reach the store only for a listed id.
 */
module HomeScreen {
  import opened Notes
  import opened Seqs
  import opened Strings
  import opened NoteContext

  /** The search predicate: the lower-cased query occurs in the lower-cased title or content. */
  predicate Matches(note: Note, query: string)
    ensures Matches(note, query) <==>
      (exists i :: OccursAt(ToLower(note.title), ToLower(query), i)) ||
      (exists i :: OccursAt(ToLower(note.content), ToLower(query), i))
  {
    Includes(ToLower(note.title), ToLower(query)) || Includes(ToLower(note.content), ToLower(query))
  }

  /** `filteredNotes`: the notes that match the (untrimmed) search query, in list order. */
  function FilteredNotes(notes: seq<Note>, query: string): (r: seq<Note>)
    ensures |r| <= |notes|
    ensures forall n :: n in r ==> n in notes && Matches(n, query)
  {
    Filter(notes, (n: Note) => Matches(n, query))
  }

  /** The view keeps each note iff it matches, with all its occurrences, in list order. */
  lemma FilteredNotesSpec(notes: seq<Note>, query: string)
    ensures IsSubsequence(FilteredNotes(notes, query), notes)
    ensures forall n :: n in FilteredNotes(notes, query) <==> n in notes && Matches(n, query)
    ensures forall n :: multiset(FilteredNotes(notes, query))[n] == if Matches(n, query) then multiset(notes)[n] else 0
  {
    var keep := (n: Note) => Matches(n, query);
    FilterIsSubsequence(notes, keep);
    forall n ensures multiset(FilteredNotes(notes, query))[n] == if Matches(n, query) then multiset(notes)[n] else 0 {
      FilterCount(notes, keep, n);
    }
    forall n ensures n in FilteredNotes(notes, query) <==> n in notes && Matches(n, query) {
      FilterKeepsIff(notes, keep, n);
    }
  }

  /** An empty search box shows every note, unchanged and in order. */
  lemma EmptyQueryKeepsAll(notes: seq<Note>)
    ensures FilteredNotes(notes, "") == notes
  {
    forall i | 0 <= i < |notes| ensures Matches(notes[i], "") {
      IncludesEmpty(ToLower(notes[i].title));
    }
    FilterAllKept(notes, (n: Note) => Matches(n, ""));
  }

  /** Two queries that differ only in letter case give the same view. */
  lemma {:induction false} CaseInsensitive(notes: seq<Note>, q1: string, q2: string)
    requires |q1| == |q2|
    requires forall i | 0 <= i < |q1| :: LowerChar(q1[i]) == LowerChar(q2[i])
    ensures FilteredNotes(notes, q1) == FilteredNotes(notes, q2)
  {
    assert ToLower(q1) == ToLower(q2);
    FilterCongruent(notes, (n: Note) => Matches(n, q1), (n: Note) => Matches(n, q2));
  }

  /**
   * The query is not trimmed: one without letters (white space, say) keeps
   * exactly the notes whose title or content contains it literally.
   */
  lemma {:induction false} QueryWithoutLetters(note: Note, query: string)
    requires forall i | 0 <= i < |query| :: !IsLetter(query[i])
    ensures Matches(note, query) <==> Includes(note.title, query) || Includes(note.content, query)
  {
    ToLowerNoLetters(query);
    IncludesLowerNoLetters(note.title, query);
    IncludesLowerNoLetters(note.content, query);
  }

  /** A note without any space in it disappears from the view when the query is a single space. */
  lemma {:induction false} SpaceQueryHidesNote(note: Note)
    requires forall i | 0 <= i < |note.title| :: note.title[i] != ' '
    requires forall i | 0 <= i < |note.content| :: note.content[i] != ' '
    ensures FilteredNotes([note], " ") == []
  {
    QueryWithoutLetters(note, " ");
    IncludesChar(note.title, ' ');
    IncludesChar(note.content, ' ');
    FilterNoneKept([note], (n: Note) => Matches(n, " "));
  }

  /** A query that no note matches gives an empty view. */
  lemma NoMatchEmpty(notes: seq<Note>, query: string)
    requires forall i | 0 <= i < |notes| :: !Matches(notes[i], query)
    ensures FilteredNotes(notes, query) == []
  {
    FilterNoneKept(notes, (n: Note) => Matches(n, query));
  }

  /**
   * Two notes added in turn, "Groceries" / "milk, eggs" and "Meeting" /
   * "Discuss Q1 milk sales": searching "milk" shows both in insertion order,
   * and deleting the first leaves only the second.
   */
  lemma GroceriesScenario(first: Note, second: Note)
    requires first.title == "Groceries" && first.content == "milk, eggs"
    requires second.title == "Meeting" && second.content == "Discuss Q1 milk sales"
    requires first.id != second.id
    ensures Appended(Appended([], first), second) == [first, second]
    ensures FilteredNotes([first, second], "milk") == [first, second]
    ensures RemoveById([first, second], first.id) == [second]
  {
    LowerMilk();
    LowerSliceAt(first.content, 0, "milk");
    MatchesAt(first, "milk", 0);
    LowerSliceAt(second.content, 11, "milk");
    MatchesAt(second, "milk", 11);
    FilterAllKept([first, second], (n: Note) => Matches(n, "milk"));
    assert [first, second][1..] == [second];
    RemoveAbsentIsIdentity([second], first.id);
  }

  lemma LowerMilk()
    ensures ToLower("milk") == "milk"
  {
    assert forall i | 0 <= i < 4 :: !IsUpper("milk"[i]);
  }

  /** Lower-casing leaves a piece with no upper-case letter where it is. */
  lemma LowerSliceAt(s: string, i: nat, q: string)
    requires i + |q| <= |s| && s[i..i + |q|] == q
    requires forall j | 0 <= j < |q| :: !IsUpper(q[j])
    ensures ToLower(s)[i..i + |q|] == q
  {
    assert forall j | 0 <= j < |q| :: s[i + j] == q[j];
  }

  /** A note matches when the lower-cased query sits at position `i` of its lower-cased content. */
  lemma MatchesAt(note: Note, query: string, i: nat)
    requires i + |query| <= |note.content|
    requires ToLower(note.content)[i..i + |query|] == ToLower(query)
    ensures Matches(note, query)
  {
    assert OccursAt(ToLower(note.content), ToLower(query), i);
  }

  // ---------------------------------------------------------------- delete

  /** `notes.findIndex(note => note.id === id)`: the first index with that id, or -1. */
  function FindIndex(notes: seq<Note>, id: NoteId): (r: int)
    ensures -1 <= r < |notes|
    ensures r >= 0 ==> notes[r].id == id && forall j | 0 <= j < r :: notes[j].id != id
    ensures r == -1 <==> !HasId(notes, id)
  {
    if notes == [] then -1
    else if notes[0].id == id then 0
    else
      var k := FindIndex(notes[1..], id);
      if k == -1 then -1 else k + 1
  }

  /**
   * `startDeleteAnimation` after the fade: the store's `removeNote` runs, and
   * the slot is written, only when the id is in the list.
   */
  method StartDeleteAnimation(store: NoteStore, id: NoteId, writeSucceeds: bool)
    modifies store
    ensures HasId(old(store.notes), id) ==>
      store.notes == RemoveById(old(store.notes), id) &&
      store.saved == (if writeSucceeds then Holds(store.notes) else old(store.saved))
    ensures !HasId(old(store.notes), id) ==>
      store.notes == old(store.notes) && store.saved == old(store.saved)
  {
    var index := FindIndex(store.notes, id);
    if index > -1 {
      store.RemoveNote(id, writeSucceeds);
    }
  }
}
