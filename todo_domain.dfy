/** The to-do item as the app passes it around (`ToDo`) and as Room stores
    it (`ToDoList`), the two mappers between them, and the actions the to-do
    screen sends to its view model (`OnToDoAction`). */
module ToDoDomain {
  import opened Kotlin

  /** The domain to-do; a new one is not done and has id 0. */
  datatype ToDo = ToDo(description: string, lastUpdated: Int64, isDone: bool := false, id: Int32 := 0)

  /** The `ToDoList` table row, with the same defaults. */
  datatype ToDoList = ToDoList(description: string, lastUpdated: Int64, isDone: bool := false, id: Int32 := 0)

  /** `ToDoList.toToDo()`: every column becomes the field of the same name. */
  function ToToDo(r: ToDoList): (t: ToDo)
    ensures t.description == r.description && t.lastUpdated == r.lastUpdated
    ensures t.isDone == r.isDone && t.id == r.id
  {
    ToDo(r.description, r.lastUpdated, r.isDone, r.id)
  }

  /** `ToDo.toToDoList()`: every field becomes the column of the same name,
      so mapping back gives the to-do again. */
  function ToToDoList(t: ToDo): (r: ToDoList)
    ensures r.description == t.description && r.lastUpdated == t.lastUpdated
    ensures r.isDone == t.isDone && r.id == t.id
    ensures ToToDo(r) == t
  {
    ToDoList(t.description, t.lastUpdated, t.isDone, t.id)
  }

  /** The other round trip: a stored row survives a trip through the domain. */
  lemma RowRoundTrip(r: ToDoList)
    ensures ToToDoList(ToToDo(r)) == r
  {
  }

  /** A to-do built from a description and a time alone is open and has id 0. */
  lemma Defaults(description: string, lastUpdated: Int64)
    ensures ToDo(description, lastUpdated).isDone == false && ToDo(description, lastUpdated).id == 0
    ensures ToDoList(description, lastUpdated).isDone == false && ToDoList(description, lastUpdated).id == 0
  {
  }

  /** What the to-do screen and its rows ask the view model to do. */
  datatype OnToDoAction =
    | Upsert
    | ShowDialog
    | HideDialog
    | Delete(toDo: ToDo)
    | Edit(id: Int32)
    | IsDone(id: Int32, isDone: bool, description: string)
    | GetData(id: Int32)
    | UpdateDescription(description: string)
}
