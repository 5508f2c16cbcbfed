/** The to-do row (`ToDoList` composable): its highlighted description and
    the actions its checkbox, edit and delete buttons send; and the window
    size-class breakpoints the layouts compare against. */
module Components {
  import opened Kotlin
  import opened Text
  import opened ToDoDomain
  import opened Highlighter

  /** The row's text: the trimmed description with the search hits of
      `currentSearchText` highlighted. */
  method ToDoRowText(todo: ToDo, currentSearchText: string) returns (a: Annotated)
    ensures a.text == Trim(todo.description)
    ensures a.spans == ExpectedRanges(a.text, currentSearchText)
    ensures WellFormed(a.text, currentSearchText, a.spans) && Ordered(a.spans)
  {
    a := Annotate(todo.description, currentSearchText);
  }

  /** Toggling the checkbox to `checked`. */
  function CheckboxActions(todo: ToDo, checked: bool): (actions: seq<OnToDoAction>)
    ensures |actions| == 1 && actions[0].IsDone?
    ensures actions[0].id == todo.id && actions[0].description == todo.description
    ensures actions[0].isDone == checked
  {
    [IsDone(todo.id, checked, todo.description)]
  }

  /** The edit button, which only an open item shows. */
  function EditButtonActions(todo: ToDo): (actions: Option<seq<OnToDoAction>>)
    ensures actions.Some? <==> !todo.isDone
    ensures actions.Some? ==> (|actions.value| == 3
      && actions.value[0].GetData? && actions.value[0].id == todo.id
      && actions.value[1].Edit? && actions.value[1].id == todo.id
      && actions.value[2] == ShowDialog)
  {
    if todo.isDone then None else Some([GetData(todo.id), Edit(todo.id), ShowDialog])
  }

  /** The delete button. */
  function DeleteButtonActions(todo: ToDo): (actions: seq<OnToDoAction>)
    ensures |actions| == 1 && actions[0].Delete? && actions[0].toDo == todo
  {
    [Delete(todo)]
  }

  // Window size classes: the lower bounds, in dp, of each class.

  const WidthCompact := 0
  const WidthMedium := 600
  const WidthExpanded := 840
  const WidthLarge := 1200
  const WidthExtraLarge := 1600

  const HeightCompact := 0
  const HeightMedium := 480
  const HeightExpanded := 900

  /** The breakpoints increase, as the classes' documentation says. */
  lemma SizeClassBoundsIncrease()
    ensures WidthCompact < WidthMedium < WidthExpanded < WidthLarge < WidthExtraLarge
    ensures HeightCompact < HeightMedium < HeightExpanded
  {
  }
}
