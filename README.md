# Notes app core, modelled in Dafny

A model of the logic inside a React Native note-taking app (`my-notes-app`):
the note store that holds the ordered list of notes and writes the whole list
to one device-storage slot after every change, the home screen's search view
and delete guard, the add and edit screens' submit handlers, the pseudo-random
UUID generator that names new notes, the details screen's duration and share
text, and the light/dark theme switch.

One Dafny module per source file, plus four helper modules:

| file | module | models |
|---|---|---|
| `note_context.dfy` | `NoteContext` | `NoteContext.jsx`: the `NoteStore` class (`notes`, and `saved` for the storage slot), its load effect and the three mutators; the list transforms as functions |
| `home_screen.dfy` | `HomeScreen` | `HomeScreen.jsx`: `filteredNotes`, `findIndex` and the delete guard |
| `add_note_screen.dfy` | `AddNoteScreen` | `AddNoteScreen.jsx`: the initial form and `handleAddNote` |
| `edit_note_screen.dfy` | `EditNoteScreen` | `EditNoteScreen.jsx`: the initial and reset form values and `handleUpdateNote` |
| `uuid_utils.dfy` | `UuidUtils` | `uuidUtils.js`: `generateUUID` as a loop over the template |
| `note_details_screen.dfy` | `NoteDetailsScreen` | `NoteDetailsScreen.jsx`: `formatDuration` and the share message |
| `theme_context.dfy` | `ThemeContext` | `ThemeContext.jsx`: the `ThemeProvider` class, `toggleTheme`, the `themes` table |
| `notes.dfy` | `Notes` | the note record, the form state, the submit outcome |
| `seqs.dfy` | `Seqs` | `Array.prototype.filter` and its laws |
| `strings.dfy` | `Strings` | `toLowerCase`, `includes`, `trim`, decimal rendering |
| `wrappers.dfy` | `Wrappers` | `Option` for values that may be `null`/`undefined` |

Abstractions. The storage slot is a value `Slot` (`Missing`, `Unreadable`,
or `Holds` a list); JSON encoding is not modelled. Whether a storage write
succeeds is a `bool` parameter of each mutator. Clock readings are opaque
`Timestamp` strings passed in. The clock and `Math.random` inside
`generateUUID` become the sequence of 31 nibbles (values 0..15) that the
replacement callback draws, one per `x`/`y` of the template, left to right.

Behaviours of the code worth knowing, each proved:
- The search query is not trimmed (`my-notes-app/src/screens/HomeScreen.jsx:11-12`), so a query made of white space keeps only the notes that contain it literally, not every note (`HomeScreen.QueryWithoutLetters`, `HomeScreen.SpaceQueryHidesNote`).
- `updateNote` with an id that is not in the list changes nothing, raises nothing and still writes the slot (`my-notes-app/src/context/NoteContext.jsx:38-44`, `NoteContext.ReplaceAbsentIsIdentity`).
- The screens validate the fields and build the record, and `addNote` appends with no duplicate check (`my-notes-app/src/context/NoteContext.jsx:32-36`), so ids stay distinct only when the new id was absent (`NoteContext.AppendedUniqueIff`).
- A failed load is logged and the list stays as it was, which at start is empty (`my-notes-app/src/context/NoteContext.jsx:12-19`, `NoteContext.Loaded`).

## Model

| member | source | states |
|---|---|---|
| `NoteContext.Appended` | my-notes-app/src/context/NoteContext.jsx:33 | the new list is one longer, ends with the new note, and keeps every earlier entry at its index |
| `NoteContext.AppendedUniqueIff` | my-notes-app/src/context/NoteContext.jsx:33 | no duplicate check: from a list with distinct ids, the appended list has distinct ids iff the new id was absent |
| `NoteContext.ReplaceById` | my-notes-app/src/context/NoteContext.jsx:39-41 | the mapped list has the same length as the old one |
| `NoteContext.ReplaceByIdAt` | my-notes-app/src/context/NoteContext.jsx:39-41 | at every index, an entry whose id equals the update's is replaced by the update and every other entry is unchanged |
| `NoteContext.ReplaceAbsentIsIdentity` | my-notes-app/src/context/NoteContext.jsx:39-41 | an update whose id is not in the list leaves the list unchanged (no error) |
| `NoteContext.ReplaceInPlace` | my-notes-app/src/context/NoteContext.jsx:39-41 | with distinct ids, the update replaces the matching note at its own position and nothing else |
| `NoteContext.ReplaceKeepsIds` | my-notes-app/src/context/NoteContext.jsx:39-41 | the id at every position is unchanged, so distinct ids stay distinct |
| `NoteContext.ReplaceIdempotent` | my-notes-app/src/context/NoteContext.jsx:39-41 | applying the same update twice equals applying it once |
| `NoteContext.RemoveById` | my-notes-app/src/context/NoteContext.jsx:47 | the result is no longer than the list and holds only notes of the list whose id differs |
| `NoteContext.RemoveByIdDropsExactly` | my-notes-app/src/context/NoteContext.jsx:47 | every note with that id is dropped, every other note keeps all its occurrences, and the survivors keep their relative order |
| `NoteContext.RemoveAbsentIsIdentity` | my-notes-app/src/context/NoteContext.jsx:47 | removing an id that is not in the list is a no-op |
| `NoteContext.RemoveIdempotent` | my-notes-app/src/context/NoteContext.jsx:47 | removing the same id twice equals removing it once |
| `NoteContext.RemoveKeepsUnique` | my-notes-app/src/context/NoteContext.jsx:47 | removal keeps distinct ids distinct |
| `NoteContext.Loaded` | my-notes-app/src/context/NoteContext.jsx:12-18 | only a readable stored list replaces the current notes; a missing or unreadable slot leaves them as they are |
| `NoteContext.NoteStore.constructor` | my-notes-app/src/context/NoteContext.jsx:7 | the store starts with an empty list, the slot holding whatever the device stored |
| `NoteContext.NoteStore.LoadNotes` | my-notes-app/src/context/NoteContext.jsx:9-22 | the list becomes the stored list when there is one and is otherwise unchanged; the slot is not written |
| `NoteContext.NoteStore.SaveNotes` | my-notes-app/src/context/NoteContext.jsx:24-30 | a successful write puts the snapshot in the slot; a failed one leaves the slot as it was |
| `NoteContext.NoteStore.AddNote` | my-notes-app/src/context/NoteContext.jsx:32-36 | the list becomes the old list plus the note; the slot then holds the new list exactly when the write succeeds, and the list change stands either way; ids stay distinct if the new id was absent |
| `NoteContext.NoteStore.UpdateNote` | my-notes-app/src/context/NoteContext.jsx:38-44 | the list becomes the replaced list (unchanged for an unknown id), distinct ids stay distinct, and the slot holds the new list exactly when the write succeeds |
| `NoteContext.NoteStore.RemoveNote` | my-notes-app/src/context/NoteContext.jsx:46-50 | the list becomes the filtered list, no longer holds the id, is unchanged for an absent id, keeps ids distinct, and the slot holds it exactly when the write succeeds |
| `NoteContext.StartProvider` | my-notes-app/src/context/NoteContext.jsx:6-22 | at app start the list is the stored list when the slot holds one and empty otherwise |
| `HomeScreen.Matches` | my-notes-app/src/screens/HomeScreen.jsx:11-12 | a note matches iff the lower-cased query occurs at some position of the lower-cased title or of the lower-cased content |
| `HomeScreen.FilteredNotes` | my-notes-app/src/screens/HomeScreen.jsx:11-14 | the view is no longer than the list and holds only notes of the list that match the query |
| `HomeScreen.FilteredNotesSpec` | my-notes-app/src/screens/HomeScreen.jsx:11-14 | the view is a subsequence of the list (same relative order); a note is in it iff it is in the list and its lower-cased title or content contains the lower-cased query, with all its occurrences |
| `HomeScreen.EmptyQueryKeepsAll` | my-notes-app/src/screens/HomeScreen.jsx:11-14 | an empty query shows the list unchanged |
| `HomeScreen.CaseInsensitive` | my-notes-app/src/screens/HomeScreen.jsx:12-13 | queries that differ only in letter case give the same view |
| `HomeScreen.QueryWithoutLetters` | my-notes-app/src/screens/HomeScreen.jsx:12-13 | the query is not trimmed: a query without letters, such as white space, matches iff the title or content contains it literally |
| `HomeScreen.SpaceQueryHidesNote` | my-notes-app/src/screens/HomeScreen.jsx:12-13 | a single-space query hides a note with no space in it, so a whitespace query does not show every note |
| `HomeScreen.NoMatchEmpty` | my-notes-app/src/screens/HomeScreen.jsx:11-14 | a query that no note matches gives an empty view |
| `HomeScreen.GroceriesScenario` | my-notes-app/src/screens/HomeScreen.jsx:11-14 | two notes added in turn are both found by a query in their content, in insertion order, and deleting the first leaves the second |
| `HomeScreen.FindIndex` | my-notes-app/src/screens/HomeScreen.jsx:32 | the result is the first index holding the id, or -1 exactly when no note has it |
| `HomeScreen.StartDeleteAnimation` | my-notes-app/src/screens/HomeScreen.jsx:31-42 | the store's removal runs, and the slot is written, only when the id is in the list; otherwise list and slot are unchanged |
| `AddNoteScreen.HandleAddNote` | my-notes-app/src/screens/AddNoteScreen.jsx:103-119 | a title or content blank after trimming is refused with the alert text; otherwise the note carries the given id, the untrimmed title and content, each time stamp from its own clock reading, and the form's locators and location |
| `AddNoteScreen.AddRejectsWhitespace` | my-notes-app/src/screens/AddNoteScreen.jsx:104-107 | the submission is refused iff the title or the content consists only of white space |
| `AddNoteScreen.AddWithoutMedia` | my-notes-app/src/screens/AddNoteScreen.jsx:11-19 | with nothing recorded, picked or located, the new note has '' locators and a null location |
| `AddNoteScreen.SubmitAddNote` | my-notes-app/src/screens/AddNoteScreen.jsx:103-119 | a refused form leaves list and slot untouched; otherwise exactly one note, named by the generated uuid, is appended |
| `EditNoteScreen.OrEmpty` | my-notes-app/src/screens/EditNoteScreen.jsx:13 | the `''` default gives the locator when present and '' when absent |
| `EditNoteScreen.FormFor` | my-notes-app/src/screens/EditNoteScreen.jsx:11-30 | the form starts (and is reset) with the note's text and location; a locator field holds the note's locator when there is one, and is '' iff the note's is absent or empty |
| `EditNoteScreen.HandleUpdateNote` | my-notes-app/src/screens/EditNoteScreen.jsx:39-54 | blank title or content is refused; otherwise the note keeps its id and `createdAt` and takes the form's text, locators and location and `now` as `updatedAt` |
| `EditNoteScreen.SaveWithoutEdits` | my-notes-app/src/screens/EditNoteScreen.jsx:11-52 | saving an untouched form gives the original note except for the new `updatedAt` and '' for absent locators |
| `EditNoteScreen.AddThenEditForm` | my-notes-app/src/screens/EditNoteScreen.jsx:11-19 | a note made by the add screen opens in the edit screen with exactly the form it was made from |
| `EditNoteScreen.EditReplacesInPlace` | my-notes-app/src/screens/EditNoteScreen.jsx:44-52 | with distinct ids, the edited note replaces the original at its position and nothing else changes |
| `EditNoteScreen.SubmitUpdateNote` | my-notes-app/src/screens/EditNoteScreen.jsx:39-54 | `updateNote` runs only for an accepted form; a refused one leaves list and slot untouched |
| `UuidUtils.HexDigit` | my-notes-app/src/utils/uuidUtils.js:10 | `toString(16)` of a value below 16 is a lower-case hex digit that reads back as that value |
| `UuidUtils.VariantNibble` | my-notes-app/src/utils/uuidUtils.js:10 | the variant mask lies in 8..11 and keeps the two low bits of `r` |
| `UuidUtils.Replacement` | my-notes-app/src/utils/uuidUtils.js:7-10 | the callback returns a lower-case hex digit: for 'x' the drawn nibble itself, for 'y' a value in 8..11 with the nibble's two low bits |
| `UuidUtils.Layout` | my-notes-app/src/utils/uuidUtils.js:7-11 | the reference definition of the generated id, group by group (8 digits, '-', 4, '-4', 3, '-', the variant digit and 3, '-', 12); it is 36 characters long |
| `UuidUtils.GenerateUuid` | my-notes-app/src/utils/uuidUtils.js:1-12 | the template walk, drawing one nibble per placeholder, produces exactly the grouped layout 8-4-4-4-12 |
| `UuidUtils.LayoutAt` | my-notes-app/src/utils/uuidUtils.js:7-11 | each position holds the template's fixed character or the callback's digit for the nibble drawn there, in left-to-right order |
| `UuidUtils.LayoutShape` | my-notes-app/src/utils/uuidUtils.js:7-10 | every id has length 36, '-' at 8, 13, 18 and 23, '4' at 14, one of '8', '9', 'a', 'b' at 19, and lower-case hex digits elsewhere |
| `UuidUtils.LayoutRoundTrip` | my-notes-app/src/utils/uuidUtils.js:7-11 | reading the digits back gives the supplied nibbles in order, except that the variant digit keeps only its two low bits |
| `NoteDetailsScreen.Minutes` | my-notes-app/src/screens/NoteDetailsScreen.jsx:96 | the whole minutes `m` of a duration satisfy `m * 60000 <= ms < (m + 1) * 60000` |
| `NoteDetailsScreen.Seconds` | my-notes-app/src/screens/NoteDetailsScreen.jsx:97 | the seconds value lies in 0..59 |
| `NoteDetailsScreen.FormatDuration` | my-notes-app/src/screens/NoteDetailsScreen.jsx:95-99 | the text has at least four characters with ':' third from the end |
| `NoteDetailsScreen.FormatDurationParts` | my-notes-app/src/screens/NoteDetailsScreen.jsx:96-98 | the part before ':' is `ms / 60000` in decimal, and the part after is exactly two digits worth `(ms % 60000) / 1000` |
| `NoteDetailsScreen.FormatDurationRoundTrip` | my-notes-app/src/screens/NoteDetailsScreen.jsx:95-99 | reading the text back gives the duration in whole seconds |
| `NoteDetailsScreen.UnderOneMinute` | my-notes-app/src/screens/NoteDetailsScreen.jsx:95-99 | any duration under a minute shows as "0:ss" |
| `NoteDetailsScreen.FormatZero` | my-notes-app/src/screens/NoteDetailsScreen.jsx:10-11 | the initial duration and position 0 show as "0:00" |
| `NoteDetailsScreen.ShareMessage` | my-notes-app/src/screens/NoteDetailsScreen.jsx:70 | the message is the title, then "\n\n" right after it, then the content, and nothing else |
| `NoteDetailsScreen.ShareMessageSplits` | my-notes-app/src/screens/NoteDetailsScreen.jsx:70 | title, "\n\n", content: the first blank line splits the message back into a newline-free title and the content |
| `NoteDetailsScreen.ShareMessageOfNote` | my-notes-app/src/screens/NoteDetailsScreen.jsx:67-75 | the shared message of a note with a one-line title splits back into its title and content |
| `ThemeContext.Themes` | my-notes-app/src/context/ThemeContext.jsx:5-20 | the table has exactly the names 'light' and 'dark', with the light and the dark palette |
| `ThemeContext.StylesFor` | my-notes-app/src/context/ThemeContext.jsx:5-20 | the `themes` lookup gives the light palette for 'light', the dark one for 'dark', and nothing for any other name |
| `ThemeContext.InitialTheme` | my-notes-app/src/context/ThemeContext.jsx:25 | the initial theme is the device's scheme, or 'light' when it reports none |
| `ThemeContext.Toggled` | my-notes-app/src/context/ThemeContext.jsx:28 | 'light' becomes 'dark' and every other value, 'dark' included, becomes 'light' |
| `ThemeContext.ToggleTwice` | my-notes-app/src/context/ThemeContext.jsx:28 | two toggles from 'light' or 'dark' return to it |
| `ThemeContext.ToggledHasStyles` | my-notes-app/src/context/ThemeContext.jsx:28 | after a toggle the palette lookup is defined and gives the palette of the new theme |
| `ThemeContext.ThemeProvider.constructor` | my-notes-app/src/context/ThemeContext.jsx:25 | the provider starts with the initial theme |
| `ThemeContext.ThemeProvider.ToggleTheme` | my-notes-app/src/context/ThemeContext.jsx:27-29 | the theme becomes the toggled previous theme, which is 'light' or 'dark' |
| `ThemeContext.ThemeProvider.Styles` | my-notes-app/src/context/ThemeContext.jsx:39-42 | `useThemeStyles` returns the light palette for 'light', the dark palette for 'dark', and nothing for any other theme |
| `Seqs.Filter` | my-notes-app/src/screens/HomeScreen.jsx:10-13 | `filter` returns no more elements than it was given, each from the input and accepted by the callback |
| `Seqs.FilterIsSubsequence` | my-notes-app/src/screens/HomeScreen.jsx:11 | `filter` keeps its survivors in their original relative order |
| `Seqs.FilterCount` | my-notes-app/src/context/NoteContext.jsx:47 | `filter` keeps every occurrence of a kept value and none of a dropped one |
| `Strings.ToLower` | my-notes-app/src/screens/HomeScreen.jsx:11-12 | `toLowerCase` keeps the length, leaves no upper-case letter, and changes only upper-case letters |
| `Strings.ToLowerFolds` | my-notes-app/src/screens/HomeScreen.jsx:11-12 | `toLowerCase` maps each upper-case letter 'A'..'Z' to its lower-case partner 32 code points on and keeps every other character |
| `Strings.Includes` | my-notes-app/src/screens/HomeScreen.jsx:12 | `includes` holds iff the query occurs at some position |
| `Strings.Trim` | my-notes-app/src/screens/AddNoteScreen.jsx:104 | `trim()` returns a contiguous piece of the text with no white space at either end |
| `Strings.TrimStrips` | my-notes-app/src/screens/AddNoteScreen.jsx:104 | what `trim()` cuts off is white space: the result sits in the text between an all-white-space prefix and an all-white-space suffix |
| `Strings.IsBlank` | my-notes-app/src/screens/EditNoteScreen.jsx:40 | `trim() === ''` holds iff every character is white space |
| `Strings.BlankIffAllWhitespace` | my-notes-app/src/screens/AddNoteScreen.jsx:104 | the trimmed text is empty iff every character is white space, proved from the two trimming passes |
| `Strings.NatToString` | my-notes-app/src/screens/NoteDetailsScreen.jsx:98 | `${n}` is a non-empty run of decimal digits with no leading zero except for 0 itself, one digit iff `n < 10` and two iff `10 <= n < 100` |
| `Strings.DecimalRoundTrip` | my-notes-app/src/screens/NoteDetailsScreen.jsx:98 | the decimal text of a number reads back as that number |

## Left out

- Storage I/O and JSON: `AsyncStorage.getItem`/`setItem` and `JSON.stringify`/`JSON.parse` are abstracted into the `Slot` value and a write-succeeded flag; encoding and parsing are not modelled.
- Asynchrony: the race between the initial load and an early `addNote` (a load that resolves later overwrites the new list) and React's stale-closure reads of `notes` are not modelled; each operation runs to completion in order.
- Rendering, navigation, style objects and `App.js` (navigator wiring only).
- Device SDKs: audio recording and playback, the camera and image picker, location, `Share.share`, `Linking.openURL`, permission prompts; the model starts from the locators and coordinates they produce.
- HomeScreen.StartDeleteAnimation: the fade-out animation is not modelled, only the found-guard, and the removal is taken to follow it. In the code the index found in `notes` picks an animation from `opacityAnims`, which is built over `filteredNotes` (`my-notes-app/src/screens/HomeScreen.jsx:32-34 and 45`). With `notes = [A, B]` and a query that matches only B, deleting B gives index 1 while `opacityAnims` has one entry, so `Animated.timing` gets `undefined`. The animation library is not part of this model, and if it throws there the removal never runs. The contract's "an id in the list is removed" therefore holds only when the index has an animation.
- `confirmDeleteNote` in the details screen, a stub that deletes nothing.
- Time stamps are opaque strings: ISO-8601 generation and the ordering `updatedAt >= createdAt` are not modelled. The add screen reads the clock twice (`my-notes-app/src/screens/AddNoteScreen.jsx:112-113`), so the model takes two readings and does not promise that they are equal.
- Strings.ToLower: folds ASCII letters only; Unicode case mapping is not modelled.
- Strings.IsWhitespace: covers the ASCII white space, no-break space, line and paragraph separators and byte-order mark; other Unicode space separators are not modelled.
- UuidUtils.GenerateUuid: the floating-point arithmetic that turns the clock and `Math.random` into each digit (`(d + Math.random() * 16) % 16 | 0`, `d = Math.floor(d / 16)`) is replaced by the supplied nibbles; uniqueness of generated ids is probabilistic and not modelled.
- NoteDetailsScreen.FormatDuration: takes a non-negative integer count of milliseconds; negative, fractional or missing (`NaN`) durations are not modelled.
- Coordinate text (`toFixed(4)`) on the edit screen and the map URL on the details screen (floating-point formatting).
- Notes.Note: `undefined` and `null` locations are one value (`None`), and title and content are always present strings, so the `note.title || ''` default of the edit form is the title itself.
