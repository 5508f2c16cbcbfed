/** The to-do screen: its state record, the search filter over the merged
    open and done lists, the two sections the list shows, and the dialog's
    confirm guard, error flag and button label. */
module ToDoScreen {
  import opened Kotlin
  import opened Text
  import opened Seqs
  import opened ToDoDomain

  /** The dialog's state; every field has the default of a closed, empty dialog. */
  datatype ToDoState = ToDoState(
    description: string := "",
    lastUpdated: Int64 := 0,
    isDone: bool := false,
    showDialog: bool := false,
    id: Int32 := 0)

  /** The longest description the dialog accepts. */
  const MaxDescriptionLength := 280

  /** The filter's condition for one item, as written: the space-stripped
      description contains, or starts with, the search text, ignoring case. */
  predicate DescriptionMatches(todo: ToDo, searchText: string) {
    var description := StripSpaces(todo.description);
    ContainsIgnoreCase(description, searchText) || StartsWithIgnoreCase(description, searchText)
  }

  /** `filteredTodoList`: the open items followed by the done items, all of
      them when the search field is blank after dropping spaces, otherwise the
      matching ones. */
  function FilteredToDoList(notDone: seq<ToDo>, done: seq<ToDo>, fieldText: string): (r: seq<ToDo>)
    ensures IsBlank(StripSpaces(fieldText)) ==> r == notDone + done
    ensures IsSubsequence(r, notDone + done)
  {
    var searchText := StripSpaces(fieldText);
    var mergeList := notDone + done;
    if IsBlank(searchText) then
      IsSubsequenceOfItself(mergeList);
      mergeList
    else Filter(mergeList, todo => DescriptionMatches(todo, searchText))
  }

  /** With a non-blank search an item is kept exactly when its stripped
      description contains the stripped search text (the `startsWith` test
      adds nothing), as often as it occurs in the merged list. */
  lemma FilteredToDoListKeepsMatches(notDone: seq<ToDo>, done: seq<ToDo>, fieldText: string)
    requires !IsBlank(StripSpaces(fieldText))
    ensures forall todo :: (multiset(FilteredToDoList(notDone, done, fieldText))[todo]
      == if ContainsIgnoreCase(StripSpaces(todo.description), StripSpaces(fieldText))
         then multiset(notDone + done)[todo] else 0)
  {
    forall todo: ToDo {
      ContainsIffOccurs(StripSpaces(todo.description), StripSpaces(fieldText));
    }
  }

  /** The item selector the two sections split on. */
  function Completed(todo: ToDo): bool {
    todo.isDone
  }

  /** The first section: `filterNot { it.isDone }`. */
  function NotDoneSection(list: seq<ToDo>): seq<ToDo> {
    FilterNot(list, Completed)
  }

  /** The second section: `filter { it.isDone }`. */
  function DoneSection(list: seq<ToDo>): seq<ToDo> {
    Filter(list, Completed)
  }

  /** The two sections hold only open, respectively only done, items, each
      in list order, and together hold every item exactly as often as the
      list does. */
  lemma SectionsPartition(list: seq<ToDo>)
    ensures forall todo :: todo in NotDoneSection(list) ==> !todo.isDone
    ensures forall todo :: todo in DoneSection(list) ==> todo.isDone
    ensures IsSubsequence(NotDoneSection(list), list) && IsSubsequence(DoneSection(list), list)
    ensures multiset(NotDoneSection(list)) + multiset(DoneSection(list)) == multiset(list)
  {
    FilterPartition(list, Completed);
    forall todo | todo in NotDoneSection(list) ensures !todo.isDone {
      assert multiset(NotDoneSection(list))[todo] > 0;
    }
    forall todo | todo in DoneSection(list) ensures todo.isDone {
      assert multiset(DoneSection(list))[todo] > 0;
    }
  }

  /** The "Completed" header: `any { it.isDone }`. */
  predicate ShowCompletedHeader(list: seq<ToDo>) {
    Any(list, Completed)
  }

  /** The header is shown exactly when the done section is not empty. */
  lemma CompletedHeaderIffDoneItems(list: seq<ToDo>)
    ensures ShowCompletedHeader(list) <==> DoneSection(list) != []
  {
    AnyIffFilterNonEmpty(list, Completed);
  }

  /** What the confirm button and the keyboard's done key send: an over-long
      description only raises a toast. */
  function ConfirmActions(state: ToDoState): (actions: seq<OnToDoAction>)
    ensures Upsert in actions <==> |state.description| <= MaxDescriptionLength
    ensures actions != [] ==> actions == [Upsert, HideDialog]
  {
    if |state.description| > MaxDescriptionLength then [] else [Upsert, HideDialog]
  }

  /** The text field's error flag. */
  predicate IsDescriptionError(state: ToDoState) {
    |state.description| > MaxDescriptionLength
  }

  /** Confirming does nothing exactly when the field shows an error, and
      otherwise saves and closes, in that order. */
  lemma ConfirmBlockedIffError(state: ToDoState)
    ensures ConfirmActions(state) == [] <==> IsDescriptionError(state)
    ensures !IsDescriptionError(state) <==> ConfirmActions(state) == [Upsert, HideDialog]
    ensures IsDescriptionError(state) <==> |state.description| >= 281
  {
  }

  /** The confirm button's label. */
  function ConfirmLabel(state: ToDoState): (caption: string)
    ensures caption == "Save" <==> state.id == 0
    ensures caption == "Update" <==> state.id != 0
  {
    if state.id == 0 then "Save" else "Update"
  }

  /** The "Nothing Here" message in place of the list. */
  predicate ShowEmptyState(notDone: seq<ToDo>, done: seq<ToDo>) {
    |notDone| == 0 && |done| == 0
  }

  /** When the empty state shows there is nothing any search could list, and
      otherwise a blank search lists something. */
  lemma EmptyStateIffNothingListed(notDone: seq<ToDo>, done: seq<ToDo>, fieldText: string)
    ensures ShowEmptyState(notDone, done) ==> FilteredToDoList(notDone, done, fieldText) == []
    ensures IsBlank(StripSpaces(fieldText))
      ==> (ShowEmptyState(notDone, done) <==> FilteredToDoList(notDone, done, fieldText) == [])
  {
  }
}
