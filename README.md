# NoteList: the note and to-do screens, modelled in Dafny

NoteList is an Android app that keeps notes and a to-do list.  This project
models the logic of its screens and view models:

- the search highlighter.  It marks every occurrence of the search text in a
  note's title, in its description and in a to-do item.  Matching ignores
  spaces on both sides and ignores case.  Each occurrence found in the
  space-free text is mapped back to a range of the displayed text.
- the note search filter and the to-do search filter;
- the to-do list's sections: open items, the "Completed" header, done items
  and the empty state;
- the to-do dialog: its state record, the 280-character guard, the error flag
  and the Save/Update caption;
- `ToDoListViewModel` and every one of its action handlers;
- the note editor: `UpsertState`, the floating menu and its items, the
  top-bar buttons, the back handler and the save sent when the editor is left;
- `UpsertViewModel`: loading the note, saving, deleting and editing the text;
- the mappings between the Room rows and the domain records;
- the main activity's scroll-direction detector, its navigation layout choice
  and its navigation-item clicks;
- the window size-class breakpoints.

Modules follow the source files:

| module | what it models |
|---|---|
| `Kotlin` | `Int`, `Long`, nullable values and `Result` |
| `Text` | the string functions the screens call: `replace(" ", "")`, `trim`, `isBlank`, `indexOf`, `contains` and `startsWith` with `ignoreCase` |
| `Seqs` | `filter`, `filterNot` and `any` on lists |
| `Highlighter` | the highlighting loop, written once for its three copies |
| `HighlighterScenarios` | the highlighter on concrete inputs |
| `NoteDomain`, `ToDoDomain`, `UpsertAction` | the records, their row mappings and the action types |
| `NotesScreen`, `ToDoScreen`, `UpsertScreen`, `Components`, `MainActivity` | the screens' decisions |
| `ToDoViewModel`, `NoteUpsertViewModel` | the view models as classes with their handlers |

The highlighter is a method with the source's nested `while` loops.  Its
specification is `ExpectedRanges`.  That function finds the leftmost
occurrence of the query in the space-free text, resumes after it, and maps
each hit back to a range of the displayed text.  The method is proved to
return exactly `ExpectedRanges`.  Lemmas prove four properties of those
ranges:

- every range starts and ends on a non-space character;
- every range holds the query, ignoring case, once its spaces are removed;
- the ranges are disjoint and in increasing order;
- no occurrence is skipped: every occurrence overlaps a reported one.

The view models are classes.  Their repository is a ghost log of the upserts
and deletes they ask for, and their clock is a `now` argument.  Each handler
is tied to a specification function (`Step`, `UpsertOutcome`,
`UpsertCalls`, `DeleteCalls`), and lemmas describe what whole button
presses do.

## Model

| member | source | states |
|---|---|---|
| Text.IndexOf | app/src/main/java/com/note/list/ui/view/screens/NotesScreen.kt:276-281 | `indexOf(q, from, ignoreCase = true)` gives -1 or an index at or after `from` where the query occurs |
| Text.IndexOfLeftmost | app/src/main/java/com/note/list/ui/view/screens/NotesScreen.kt:276-281 | any occurrence at or after `from` means `indexOf` finds one at or before it, so it finds the leftmost |
| Text.EqualsIgnoreCaseIsEquivalence | app/src/main/java/com/note/list/ui/view/screens/NotesScreen.kt:147-155 | ignore-case character equality is reflexive, symmetric and transitive, and only a space equals a space |
| Text.ContainsIffOccurs | app/src/main/java/com/note/list/ui/view/screens/NotesScreen.kt:147-155 | `contains` holds iff the query occurs somewhere; `startsWith` implies `contains` |
| Text.StripSpacesRemovesOnlySpaces | app/src/main/java/com/note/list/ui/view/screens/NotesScreen.kt:138 | `replace(" ", "")` leaves no U+0020 and keeps every other character as often as before |
| Text.StripSpacesAppend | app/src/main/java/com/note/list/ui/view/screens/NotesScreen.kt:138 | stripping a concatenation strips each part |
| Text.StripSpacesSlice | app/src/main/java/com/note/list/ui/view/screens/NotesScreen.kt:285-324 | stripping a slice of the text gives the matching slice of the stripped text (the index mapping the loops rely on) |
| Text.NthNonSpaceMonotone | app/src/main/java/com/note/list/ui/view/screens/NotesScreen.kt:285-300 | the k-th non-space character comes before the k'-th when k < k' |
| Text.Trim | app/src/main/java/com/note/list/ui/view/screens/NotesScreen.kt:264 | `trim()` is the slice of the text between its leading and its trailing whitespace: its ends are not whitespace, everything cut off is, and it is empty exactly when the text is blank |
| Highlighter.SearchQuery | app/src/main/java/com/note/list/ui/view/screens/NotesScreen.kt:241-242 | the query has no space, and is empty exactly when the typed text is blank after removing spaces |
| Highlighter.HighlightRanges | app/src/main/java/com/note/list/ui/view/screens/NotesScreen.kt:269-340 | the loop returns exactly `ExpectedRanges`, all well formed and ordered; no ranges for an empty query or text |
| Highlighter.MapBack | app/src/main/java/com/note/list/ui/view/screens/NotesScreen.kt:285-324 | one hit at stripped index `found` becomes the range from its first to just past its last non-space character; the fallback for a hit at 0 is never taken |
| Highlighter.FindStart | app/src/main/java/com/note/list/ui/view/screens/NotesScreen.kt:285-300 | the first inner loop stops at the `found`-th non-space character, so a start is always found |
| Highlighter.FindEnd | app/src/main/java/com/note/list/ui/view/screens/NotesScreen.kt:310-324 | the second inner loop ends just past the last character of the hit |
| Highlighter.Annotate | app/src/main/java/com/note/list/ui/view/screens/NotesScreen.kt:264-342 | a title or description is shown trimmed, with `ExpectedRanges` of the trimmed text highlighted |
| Highlighter.MatchStartsAreMatches | app/src/main/java/com/note/list/ui/view/screens/NotesScreen.kt:275-283 | every position the scan reports is an occurrence of the query |
| Highlighter.MatchStartsApart | app/src/main/java/com/note/list/ui/view/screens/NotesScreen.kt:334-339 | reported positions are at least the query's length apart |
| Highlighter.MatchStartsCoverEveryMatch | app/src/main/java/com/note/list/ui/view/screens/NotesScreen.kt:275-339 | every occurrence after the cursor overlaps a reported one |
| Highlighter.RangeAtContent | app/src/main/java/com/note/list/ui/view/screens/NotesScreen.kt:285-324 | a range starts and ends on non-space characters and strips to exactly the hit |
| Highlighter.RangeAtMatches | app/src/main/java/com/note/list/ui/view/screens/NotesScreen.kt:326-332 | the highlighted range holds the query, ignoring spaces and case |
| Highlighter.ExpectedRangesWellFormed | app/src/main/java/com/note/list/ui/view/screens/NotesScreen.kt:326-332 | every highlighted range is inside the text and holds the query |
| Highlighter.ExpectedRangesOrdered | app/src/main/java/com/note/list/ui/view/screens/NotesScreen.kt:334-339 | the highlighted ranges are disjoint and increasing |
| HighlighterScenarios.NewMeeting | app/src/main/java/com/note/list/ui/view/screens/NotesScreen.kt:269-340 | "newmeeting" in "new meeting today" highlights indices 0 up to 11 |
| HighlighterScenarios.BuyMilk | app/src/main/java/com/note/list/ui/view/screens/NotesScreen.kt:269-340 | "milk" in "Buy Milk" highlights "Milk", 4 up to 8 |
| HighlighterScenarios.TwoOccurrences | app/src/main/java/com/note/list/ui/view/screens/NotesScreen.kt:269-340 | "abc" in "abc abc" highlights both words separately |
| HighlighterScenarios.NoOccurrence | app/src/main/java/com/note/list/ui/view/screens/NotesScreen.kt:269-340 | "xyz" in "hello" highlights nothing |
| HighlighterScenarios.OnlySpaces | app/src/main/java/com/note/list/ui/view/screens/NotesScreen.kt:269-340 | a text of spaces highlights nothing |
| Seqs.Filter | app/src/main/java/com/note/list/ui/view/screens/NotesScreen.kt:144-157 | `filter` keeps an order-preserving subsequence holding each kept element as often as the input |
| Seqs.FilterPartition | app/src/main/java/com/note/list/ui/view/screens/To-DoScreen.kt:334-373 | `filterNot` and `filter` on one predicate together hold every element exactly once |
| Seqs.AnyIffFilterNonEmpty | app/src/main/java/com/note/list/ui/view/screens/To-DoScreen.kt:351 | `any` holds iff `filter` keeps something |
| NoteDomain.ToNote | app/src/main/java/com/note/list/domain/note/Notes.kt:15-22 | every field of the row is copied |
| NoteDomain.ToNotes | app/src/main/java/com/note/list/domain/note/Notes.kt:24-31 | every field is copied, and mapping back gives the same note |
| NoteDomain.RowRoundTrip | app/src/main/java/com/note/list/domain/note/Notes.kt:15-31 | a row mapped to a note and back is the same row |
| NoteDomain.IdDefaultsToZero | app/src/main/java/com/note/list/domain/note/Notes.kt:7-12 | a note built without an id has id 0 |
| ToDoDomain.ToToDo | app/src/main/java/com/note/list/domain/todo/ToDo.kt:15-22 | every field of the row is copied |
| ToDoDomain.ToToDoList | app/src/main/java/com/note/list/domain/todo/ToDo.kt:25-32 | every field is copied, and mapping back gives the same item |
| ToDoDomain.RowRoundTrip | app/src/main/java/com/note/list/domain/todo/ToDo.kt:15-32 | a row mapped to an item and back is the same row |
| ToDoDomain.Defaults | app/src/main/java/com/note/list/domain/todo/ToDo.kt:7-12 | an item built without flag or id is open and has id 0 |
| NotesScreen.FilteredNotes | app/src/main/java/com/note/list/ui/view/screens/NotesScreen.kt:139-160 | a blank search shows every note; otherwise the shown notes are a subsequence of the notes |
| NotesScreen.NoteMatchesIffContains | app/src/main/java/com/note/list/ui/view/screens/NotesScreen.kt:144-156 | the four-way test amounts to the space-free title or description containing the search text |
| NotesScreen.FilteredNotesKeepsMatches | app/src/main/java/com/note/list/ui/view/screens/NotesScreen.kt:139-160 | a non-blank search shows each matching note as often as it is stored, and nothing else |
| NotesScreen.NoteCard | app/src/main/java/com/note/list/ui/view/screens/NotesScreen.kt:260-264 | title and description each appear iff non-empty, trimmed and highlighted |
| Components.ToDoRowText | app/src/main/java/com/note/list/ui/view/components/components.kt:53-131 | a to-do row shows its trimmed description with the hits highlighted |
| Components.CheckboxActions | app/src/main/java/com/note/list/ui/view/components/components.kt:139-150 | the checkbox sends one `IsDone` with the item's id and description and the new checked value |
| Components.EditButtonActions | app/src/main/java/com/note/list/ui/view/components/components.kt:161-173 | the edit button exists iff the item is open, and sends `GetData` and `Edit` for the item's id, then `ShowDialog` |
| Components.DeleteButtonActions | app/src/main/java/com/note/list/ui/view/components/components.kt:177-183 | the delete button sends one `Delete` carrying the item itself |
| Components.SizeClassBoundsIncrease | app/src/main/java/com/note/list/ui/view/components/components.kt:238-315 | the width breakpoints 0, 600, 840, 1200, 1600 and the height breakpoints 0, 480, 900 increase |
| ToDoScreen.FilteredToDoList | app/src/main/java/com/note/list/ui/view/screens/To-DoScreen.kt:228-250 | a blank search lists open then done items; otherwise a subsequence of them |
| ToDoScreen.FilteredToDoListKeepsMatches | app/src/main/java/com/note/list/ui/view/screens/To-DoScreen.kt:228-250 | a non-blank search keeps exactly the items whose space-free description contains it |
| ToDoScreen.SectionsPartition | app/src/main/java/com/note/list/ui/view/screens/To-DoScreen.kt:334-373 | the open and the done section split the list: each item in exactly one, in order |
| ToDoScreen.CompletedHeaderIffDoneItems | app/src/main/java/com/note/list/ui/view/screens/To-DoScreen.kt:351 | the "Completed" header shows iff the done section is not empty |
| ToDoScreen.ConfirmBlockedIffError | app/src/main/java/com/note/list/ui/view/screens/To-DoScreen.kt:157 | confirming does nothing exactly when the field shows its error (more than 280 characters) |
| ToDoScreen.ConfirmActions | app/src/main/java/com/note/list/ui/view/screens/To-DoScreen.kt:116-123 | confirming saves iff the description is at most 280 characters, and then saves before closing the dialog |
| ToDoScreen.ConfirmLabel | app/src/main/java/com/note/list/ui/view/screens/To-DoScreen.kt:128 | the caption is "Save" for a new item (id 0) and "Update" otherwise |
| ToDoScreen.EmptyStateIffNothingListed | app/src/main/java/com/note/list/ui/view/screens/To-DoScreen.kt:204 | the empty message shows iff both lists are empty, and then the filter lists nothing |
| ToDoViewModel.Cleared | app/src/main/java/com/note/list/viewmodel/ToDoListViewModel.kt:43-51 | the copy with every field reset is the default `ToDoState` |
| ToDoViewModel.ToDoListViewModel.constructor | app/src/main/java/com/note/list/viewmodel/ToDoListViewModel.kt:22 | the state starts as the default `ToDoState`, with no repository call |
| ToDoViewModel.ToDoListViewModel.OnAction | app/src/main/java/com/note/list/viewmodel/ToDoListViewModel.kt:25-41 | each action is dispatched to its handler: new state and calls as `Step` says |
| ToDoViewModel.Step | app/src/main/java/com/note/list/viewmodel/ToDoListViewModel.kt:25-41 | one action calls the repository at most once, and only `Upsert`, `Delete` and `IsDone` may; `Delete` and `IsDone` always do; `Delete` and `HideDialog` reset the state; only `Edit` among the others changes the id |
| ToDoViewModel.UpsertOutcome | app/src/main/java/com/note/list/viewmodel/ToDoListViewModel.kt:110-144 | a save happens iff the description is not blank, carrying that description, the clock and the state's id; the state is reset exactly when an existing item was saved |
| ToDoViewModel.ToDoListViewModel.HideDialog | app/src/main/java/com/note/list/viewmodel/ToDoListViewModel.kt:43-51 | the state is reset to its defaults |
| ToDoViewModel.ToDoListViewModel.ShowDialog | app/src/main/java/com/note/list/viewmodel/ToDoListViewModel.kt:53-55 | only `showDialog` becomes true |
| ToDoViewModel.ToDoListViewModel.Edit | app/src/main/java/com/note/list/viewmodel/ToDoListViewModel.kt:57-59 | only the id changes |
| ToDoViewModel.ToDoListViewModel.IsDone | app/src/main/java/com/note/list/viewmodel/ToDoListViewModel.kt:61-73 | only the done flag changes, and the item is saved with the new flag and time |
| ToDoViewModel.ToDoListViewModel.Delete | app/src/main/java/com/note/list/viewmodel/ToDoListViewModel.kt:76-89 | the item is deleted and the state reset |
| ToDoViewModel.ToDoListViewModel.GetData | app/src/main/java/com/note/list/viewmodel/ToDoListViewModel.kt:91-101 | the stored item's text, time and flag are copied; the id and dialog flag are kept |
| ToDoViewModel.ToDoListViewModel.UpdateDescription | app/src/main/java/com/note/list/viewmodel/ToDoListViewModel.kt:103-108 | the text changes and the time is stamped |
| ToDoViewModel.ToDoListViewModel.UpsertData | app/src/main/java/com/note/list/viewmodel/ToDoListViewModel.kt:110-144 | the new state and calls are those of `UpsertOutcome` |
| ToDoViewModel.ToDoListViewModel.OnCleared | app/src/main/java/com/note/list/viewmodel/ToDoListViewModel.kt:146-155 | the state is reset to its defaults |
| ToDoViewModel.ClosingActionsReset | app/src/main/java/com/note/list/viewmodel/ToDoListViewModel.kt:43-89 | hiding the dialog and deleting both end in the default state; deleting calls the repository once |
| ToDoViewModel.FieldUpdates | app/src/main/java/com/note/list/viewmodel/ToDoListViewModel.kt:53-108 | showing, choosing and typing each change only their own fields |
| ToDoViewModel.IsDoneSavesItem | app/src/main/java/com/note/list/viewmodel/ToDoListViewModel.kt:61-73 | checking an item saves it with the new flag |
| ToDoViewModel.UpsertCases | app/src/main/java/com/note/list/viewmodel/ToDoListViewModel.kt:110-144 | blank text saves nothing; a new item is inserted with id 0 and the dialog kept; an existing one is updated and the dialog reset |
| ToDoViewModel.GetDataCopiesRecord | app/src/main/java/com/note/list/viewmodel/ToDoListViewModel.kt:91-101 | loading copies the record's fields and calls nothing |
| ToDoViewModel.GetDataCommutes | app/src/main/java/com/note/list/viewmodel/ToDoListViewModel.kt:91-101 | loading commutes with `Edit` and `ShowDialog`, so its completion order does not matter |
| ToDoViewModel.ConfirmCloses | app/src/main/java/com/note/list/ui/view/screens/To-DoScreen.kt:117-122 | confirming resets the dialog and makes `UpsertOutcome`'s save (none for a blank description), unless the text is over 280 characters, when nothing happens |
| ToDoViewModel.EditButtonOpensItem | app/src/main/java/com/note/list/ui/view/components/components.kt:162-169 | the edit button of an open item opens the dialog on that item, with no repository call |
| ToDoViewModel.RowButtonsCallRepository | app/src/main/java/com/note/list/ui/view/components/components.kt:139-183 | the checkbox saves the item with the new flag; the delete button deletes it and resets the dialog |
| UpsertScreen.MenuItems | app/src/main/java/com/note/list/ui/view/screens/Upsert.kt:129-138 | a stored note's menu has "Delete Note" then "Save Note"; a new note's menu has only "Save Note" |
| UpsertScreen.EveryMenuItemDeletes | app/src/main/java/com/note/list/ui/view/screens/Upsert.kt:222-237 | every menu item, "Save Note" included, dispatches `Delete` |
| UpsertScreen.MenuDispatch | app/src/main/java/com/note/list/ui/view/screens/Upsert.kt:222-237 | a menu item's text "Add Note" sends a save, and any other text a delete |
| UpsertScreen.DisposeActions | app/src/main/java/com/note/list/ui/view/screens/Upsert.kt:123-127 | leaving the screen sends a save and never a delete |
| UpsertScreen.OneSetOfControls | app/src/main/java/com/note/list/ui/view/screens/Upsert.kt:159-184 | exactly one of the top-bar buttons and the floating menu is visible |
| UpsertScreen.TopBarActions | app/src/main/java/com/note/list/ui/view/screens/Upsert.kt:161-177 | the top bar ends with save and has delete iff the note is stored |
| UpsertScreen.FabMenu.constructor | app/src/main/java/com/note/list/ui/view/screens/Upsert.kt:139 | the menu starts closed |
| UpsertScreen.FabMenu.Toggle | app/src/main/java/com/note/list/ui/view/screens/Upsert.kt:192 | the toggle flips the menu |
| UpsertScreen.FabMenu.ItemClick | app/src/main/java/com/note/list/ui/view/screens/Upsert.kt:222-237 | an item click closes the menu and dispatches on the item's text |
| UpsertScreen.FabMenu.CloseMenu | app/src/main/java/com/note/list/ui/view/screens/Upsert.kt:210-219 | the accessibility action closes the menu and reports it handled |
| UpsertScreen.FabMenu.Back | app/src/main/java/com/note/list/ui/view/screens/Upsert.kt:146 | back is consumed, closing the menu, iff the menu is open and visible |
| NoteUpsertViewModel.UpsertViewModel.constructor | app/src/main/java/com/note/list/viewmodel/UpsertViewModel.kt:22-27 | the view model starts with the route's id, empty text and no loaded note |
| NoteUpsertViewModel.UpsertViewModel.GetData | app/src/main/java/com/note/list/viewmodel/UpsertViewModel.kt:33-50 | with an id, the last note delivered becomes `result` and replaces the text; failures change nothing |
| NoteUpsertViewModel.UpsertViewModel.OnAction | app/src/main/java/com/note/list/viewmodel/UpsertViewModel.kt:53-58 | `Delete` runs the delete and `NoteUpsert` the save |
| NoteUpsertViewModel.UpsertViewModel.UpsertNote | app/src/main/java/com/note/list/viewmodel/UpsertViewModel.kt:60-74 | the calls are those of `UpsertCalls` |
| NoteUpsertViewModel.UpsertViewModel.DeleteNote | app/src/main/java/com/note/list/viewmodel/UpsertViewModel.kt:77-96 | the calls are those of `DeleteCalls` |
| NoteUpsertViewModel.UpsertViewModel.OnTitleChange | app/src/main/java/com/note/list/viewmodel/UpsertViewModel.kt:98-99 | only the title changes |
| NoteUpsertViewModel.UpsertViewModel.OnTextChange | app/src/main/java/com/note/list/viewmodel/UpsertViewModel.kt:113-114 | only the description changes |
| NoteUpsertViewModel.UpsertCalls | app/src/main/java/com/note/list/viewmodel/UpsertViewModel.kt:60-74 | at most one save, made iff the title or text is not blank; it stores the trimmed title and text, stamped with the clock, under the loaded note's id or 0 |
| NoteUpsertViewModel.DeleteCalls | app/src/main/java/com/note/list/viewmodel/UpsertViewModel.kt:77-96 | at most one delete, made iff a note was loaded and the fields are not both blank (so the `result != null` conjunct is redundant); it carries the untrimmed text with the loaded note's time and id |
| NoteUpsertViewModel.MenuClickThenLeave | app/src/main/java/com/note/list/ui/view/screens/Upsert.kt:222-237 | a menu click and leaving the editor send `DeleteCalls` then `UpsertCalls`; when a delete is sent, the save that follows has the same id |
| NoteUpsertViewModel.SaveButtonThenLeave | app/src/main/java/com/note/list/ui/view/screens/Upsert.kt:123-127 | the top bar's save button and leaving the editor make the same save twice when some field is not blank, and nothing otherwise |
| MainActivity.ScrollingUpIffNotFurtherDown | app/src/main/java/com/note/list/ui/view/MainActivity.kt:74-90 | the list counts as scrolling up iff its new position is not after the old one |
| MainActivity.ScrollingUp | app/src/main/java/com/note/list/ui/view/MainActivity.kt:74-90 | moving to an earlier first item counts as scrolling up, and to a later one as scrolling down |
| MainActivity.StillListScrollsUp | app/src/main/java/com/note/list/ui/view/MainActivity.kt:95-111 | a list that has not moved counts as scrolling up |
| MainActivity.ScrollTracker.constructor | app/src/main/java/com/note/list/ui/view/MainActivity.kt:76-77 | both remembered values start at the current position |
| MainActivity.ScrollTracker.IsScrollingUp | app/src/main/java/com/note/list/ui/view/MainActivity.kt:74-90 | the direction is decided against the remembered position, which is then updated |
| MainActivity.NavigationLayout | app/src/main/java/com/note/list/ui/view/MainActivity.kt:224-237 | the bottom bar is used iff the width class is compact |
| MainActivity.NavigationLayoutIgnoresPostureAndHeight | app/src/main/java/com/note/list/ui/view/MainActivity.kt:224-237 | posture and height never change the layout |
| MainActivity.NavItemClick | app/src/main/java/com/note/list/ui/view/MainActivity.kt:241-255 | a click navigates to the item's route iff the item is not selected |
| MainActivity.NavClickSettles | app/src/main/java/com/note/list/ui/view/MainActivity.kt:241-255 | at most one item is selected, and clicking again the item just reached does nothing |

## Left out

- ToDoScreen.FilteredToDoList, ToDoScreen.ShowEmptyState: only successful
  loads are modelled.  The screen unwraps both to-do lists with `getOrThrow()`
  (To-DoScreen.kt:204, 236, 239), so a failed load crashes the screen; the
  model takes the two lists as plain sequences and has no such error path.
- Compose rendering is not modelled: layout, colours, animations, icons and
  toasts.  The "Only 280 words allow" toast is the empty list of actions.
- Room, Hilt and the repository wrappers are not modelled.  A repository
  call is an entry in a ghost log.  The detail query of the to-do screen is a
  function argument.  The note detail flow is the sequence of results it
  emits.
- Coroutines: every launched block is taken to run when it is launched, in
  launch order.  Cancellation of `viewModelScope` and interleaving with
  other events are not modelled.  The lemmas about leaving the editor
  (`MenuClickThenLeave`, `SaveButtonThenLeave`) describe the calls issued,
  under that assumption.
- `System.currentTimeMillis()` is the `now` argument.
- Characters: `isBlank` and `trim` use the ASCII whitespace characters
  only.  `ignoreCase` folds ASCII letters only.
- String length: Kotlin's `length` counts UTF-16 code units, and Dafny
  strings count characters.  The 280-character guard counts characters,
  and highlight ranges are character indices where `addStyle` takes UTF-16
  offsets; the two differ on text with characters outside the Basic
  Multilingual Plane, such as emoji.
- `Int` and `Long` are bounded ranges.  No arithmetic in the model can
  overflow, so there is no wrap-around to model.
- Highlighter.MapBack: the source's fallback for a hit at index 0
  (NotesScreen.kt:301-308) is proved unreachable, so its body is not
  modelled; the branch holds only `assert false`.
- MainActivity.ScrollTracker: Compose's `derivedStateOf` re-reads are
  modelled as explicit calls of `IsScrollingUp`.  Both overloads (list and
  staggered grid) share this one class.
- MainActivity.NavItemClick: the back-stack options (`popUpTo`,
  `launchSingleTop`, `restoreState`) are not modelled.  The current route
  is given.
- The window size class is given as its breakpoint values.  The window
  library's classification of a size is not modelled.
- The app-update check, the splash screen and the navigation graph are not
  part of this model.
