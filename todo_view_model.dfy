/** `ToDoListViewModel`: the dialog state the to-do screen shows and the
    handlers for every `OnToDoAction`.  The repository is a ghost log of the
    upserts and deletes the view model asks for, the clock is the `now`
    argument, and `detail` stands for the repository's answer to
    `getToDoListDetail(id)`.  A launched coroutine is taken to run when it is
    launched. */
module ToDoViewModel {
  import opened Kotlin
  import opened Text
  import opened ToDoDomain
  import opened ToDoScreen
  import Components

  /** A call on the to-do repository. */
  datatype RepositoryCall = UpsertCall(toDo: ToDo) | DeleteCall(toDo: ToDo)

  /** The new state and the repository calls of one or more actions. */
  datatype Outcome = Outcome(state: ToDoState, calls: seq<RepositoryCall>)

  /** The copy every closing handler makes: each field back to empty. */
  function Cleared(s: ToDoState): (r: ToDoState)
    ensures r == ToDoState()
  {
    s.(description := "", lastUpdated := 0, isDone := false, showDialog := false, id := 0)
  }

  /** `upsertData`: a blank description does nothing; a new item is
      inserted and the dialog state kept; an existing item is saved with
      its done flag and id, and the state cleared. */
  function UpsertOutcome(s: ToDoState, now: Int64): (o: Outcome)
    ensures o.calls == [] <==> IsBlank(s.description)
    ensures o.calls != [] ==> (|o.calls| == 1 && o.calls[0].UpsertCall?
      && o.calls[0].toDo.description == s.description
      && o.calls[0].toDo.lastUpdated == now
      && o.calls[0].toDo.id == s.id)
    ensures o.state == (if o.calls != [] && s.id != 0 then ToDoState() else s)
  {
    if !IsBlank(s.description) && s.id == 0 then
      Outcome(s, [UpsertCall(ToDo(s.description, now, isDone := false))])
    else if !IsBlank(s.description) && s.id != 0 then
      Outcome(Cleared(s), [UpsertCall(ToDo(s.description, now, isDone := s.isDone, id := s.id))])
    else
      Outcome(s, [])
  }

  /** `onAction`: what one action does to the state and the repository. */
  function Step(s: ToDoState, action: OnToDoAction, now: Int64, detail: Int32 -> ToDo): (o: Outcome)
    ensures |o.calls| <= 1
    ensures o.calls != [] ==> action.Upsert? || action.Delete? || action.IsDone?
    ensures action.Delete? || action.IsDone? ==> o.calls != []
    ensures action.Delete? || action.HideDialog? ==> o.state == ToDoState()
    ensures !action.Delete? && !action.HideDialog? && !action.Upsert? ==> o.state.id == (if action.Edit? then action.id else s.id)
  {
    match action
    case Upsert => UpsertOutcome(s, now)
    case UpdateDescription(description) => Outcome(s.(description := description, lastUpdated := now), [])
    case GetData(id) =>
      var it := detail(id);
      Outcome(s.(description := it.description, lastUpdated := it.lastUpdated, isDone := it.isDone), [])
    case Delete(toDo) => Outcome(Cleared(s), [DeleteCall(toDo)])
    case IsDone(id, isDone, description) =>
      Outcome(s.(isDone := isDone), [UpsertCall(ToDo(description, now, isDone := isDone, id := id))])
    case Edit(id) => Outcome(s.(id := id), [])
    case ShowDialog => Outcome(s.(showDialog := true), [])
    case HideDialog => Outcome(Cleared(s), [])
  }

  /** Several actions in a row, as the screen sends them. */
  function Run(s: ToDoState, actions: seq<OnToDoAction>, now: Int64, detail: Int32 -> ToDo): Outcome
    decreases |actions|
  {
    if actions == [] then Outcome(s, [])
    else
      var first := Step(s, actions[0], now, detail);
      var rest := Run(first.state, actions[1..], now, detail);
      Outcome(rest.state, first.calls + rest.calls)
  }

  class ToDoListViewModel {
    var state: ToDoState
    ghost var calls: seq<RepositoryCall>

    constructor()
      ensures state == ToDoState() && calls == []
    {
      state := ToDoState();
      calls := [];
    }

    method OnAction(action: OnToDoAction, now: Int64, detail: Int32 -> ToDo)
      modifies this
      ensures state == Step(old(state), action, now, detail).state
      ensures calls == old(calls) + Step(old(state), action, now, detail).calls
    {
      match action
      case Upsert => UpsertData(now);
      case UpdateDescription(description) => UpdateDescription(description, now);
      case GetData(id) => GetData(id, detail);
      case Delete(toDo) => Delete(toDo);
      case IsDone(id, isDone, description) => IsDone(id, isDone, description, now);
      case Edit(id) => Edit(id);
      case ShowDialog => ShowDialog();
      case HideDialog => HideDialog();
    }

    method HideDialog()
      modifies this
      ensures state == ToDoState() && calls == old(calls)
    {
      state := Cleared(state);
    }

    method ShowDialog()
      modifies this
      ensures state == old(state).(showDialog := true) && calls == old(calls)
    {
      state := state.(showDialog := true);
    }

    method Edit(id: Int32)
      modifies this
      ensures state == old(state).(id := id) && calls == old(calls)
    {
      state := state.(id := id);
    }

    method IsDone(id: Int32, isDone: bool, description: string, now: Int64)
      modifies this
      ensures state == old(state).(isDone := isDone)
      ensures calls == old(calls) + [UpsertCall(ToDo(description, now, isDone := isDone, id := id))]
    {
      state := state.(isDone := isDone);
      calls := calls + [UpsertCall(ToDo(description, now, isDone := isDone, id := id))];
    }

    method Delete(toDo: ToDo)
      modifies this
      ensures state == ToDoState() && calls == old(calls) + [DeleteCall(toDo)]
    {
      calls := calls + [DeleteCall(toDo)];
      state := Cleared(state);
    }

    method GetData(id: Int32, detail: Int32 -> ToDo)
      modifies this
      ensures state == old(state).(description := detail(id).description,
                                   lastUpdated := detail(id).lastUpdated,
                                   isDone := detail(id).isDone)
      ensures calls == old(calls)
    {
      var it := detail(id);
      state := state.(description := it.description, lastUpdated := it.lastUpdated, isDone := it.isDone);
    }

    method UpdateDescription(description: string, now: Int64)
      modifies this
      ensures state == old(state).(description := description, lastUpdated := now) && calls == old(calls)
    {
      state := state.(description := description, lastUpdated := now);
    }

    method UpsertData(now: Int64)
      modifies this
      ensures state == UpsertOutcome(old(state), now).state
      ensures calls == old(calls) + UpsertOutcome(old(state), now).calls
    {
      if !IsBlank(state.description) && state.id == 0 {
        calls := calls + [UpsertCall(ToDo(state.description, now, isDone := false))];
        return;
      }
      if !IsBlank(state.description) && state.id != 0 {
        calls := calls + [UpsertCall(ToDo(state.description, now, isDone := state.isDone, id := state.id))];
        state := Cleared(state);
        return;
      }
    }

    method OnCleared()
      modifies this
      ensures state == ToDoState() && calls == old(calls)
    {
      state := Cleared(state);
    }
  }

  // ---------------------------------------------------------------------
  // What the handlers promise

  /** Closing the dialog and deleting an item leave the default state;
      deleting asks the repository to delete exactly the given item. */
  lemma ClosingActionsReset(s: ToDoState, toDo: ToDo, now: Int64, detail: Int32 -> ToDo)
    ensures Step(s, HideDialog, now, detail) == Outcome(ToDoState(), [])
    ensures Step(s, Delete(toDo), now, detail) == Outcome(ToDoState(), [DeleteCall(toDo)])
  {
  }

  /** Opening the dialog, choosing the item to edit and typing each change
      only their own fields; typing also stamps the time. */
  lemma FieldUpdates(s: ToDoState, id: Int32, description: string, now: Int64, detail: Int32 -> ToDo)
    ensures Step(s, ShowDialog, now, detail) == Outcome(s.(showDialog := true), [])
    ensures Step(s, Edit(id), now, detail) == Outcome(s.(id := id), [])
    ensures Step(s, UpdateDescription(description), now, detail)
         == Outcome(s.(description := description, lastUpdated := now), [])
  {
  }

  /** Checking an item sets only the dialog's done flag and saves the item
      with the new flag and the current time. */
  lemma IsDoneSavesItem(s: ToDoState, id: Int32, isDone: bool, description: string, now: Int64, detail: Int32 -> ToDo)
    ensures Step(s, IsDone(id, isDone, description), now, detail)
         == Outcome(s.(isDone := isDone), [UpsertCall(ToDo(description, now, isDone, id))])
  {
  }

  /** The three cases of saving. */
  lemma UpsertCases(s: ToDoState, now: Int64, detail: Int32 -> ToDo)
    ensures IsBlank(s.description) ==> Step(s, Upsert, now, detail) == Outcome(s, [])
    ensures !IsBlank(s.description) && s.id == 0
        ==> Step(s, Upsert, now, detail) == Outcome(s, [UpsertCall(ToDo(s.description, now, false, 0))])
    ensures !IsBlank(s.description) && s.id != 0
        ==> Step(s, Upsert, now, detail) == Outcome(ToDoState(), [UpsertCall(ToDo(s.description, now, s.isDone, s.id))])
  {
  }

  /** Loading an item copies its text, time and done flag, and leaves the
      id and the dialog flag alone. */
  lemma GetDataCopiesRecord(s: ToDoState, id: Int32, now: Int64, detail: Int32 -> ToDo)
    ensures var r := Step(s, GetData(id), now, detail).state;
      && r.description == detail(id).description && r.lastUpdated == detail(id).lastUpdated
      && r.isDone == detail(id).isDone && r.id == s.id && r.showDialog == s.showDialog
      && Step(s, GetData(id), now, detail).calls == []
  {
  }

  /** The load touches other fields than `Edit` and `ShowDialog`, so the
      order in which its coroutine finishes does not matter. */
  lemma GetDataCommutes(s: ToDoState, id: Int32, other: Int32, now: Int64, detail: Int32 -> ToDo)
    ensures Step(Step(s, GetData(id), now, detail).state, Edit(other), now, detail)
         == Step(Step(s, Edit(other), now, detail).state, GetData(id), now, detail)
    ensures Step(Step(s, GetData(id), now, detail).state, ShowDialog, now, detail)
         == Step(Step(s, ShowDialog, now, detail).state, GetData(id), now, detail)
  {
  }

  /** One step of `Run`. */
  lemma RunCons(s: ToDoState, a: OnToDoAction, rest: seq<OnToDoAction>, now: Int64, detail: Int32 -> ToDo)
    ensures Run(s, [a] + rest, now, detail)
         == Outcome(Run(Step(s, a, now, detail).state, rest, now, detail).state,
                    Step(s, a, now, detail).calls + Run(Step(s, a, now, detail).state, rest, now, detail).calls)
  {
    assert ([a] + rest)[1..] == rest;
  }

  /** Confirming the dialog always ends in the default state unless the
      description is too long, in which case nothing happens. */
  lemma {:induction false} ConfirmCloses(s: ToDoState, now: Int64, detail: Int32 -> ToDo)
    ensures Run(s, ConfirmActions(s), now, detail).state
         == if IsDescriptionError(s) then s else ToDoState()
    ensures Run(s, ConfirmActions(s), now, detail).calls
         == if IsDescriptionError(s) then [] else UpsertOutcome(s, now).calls
  {
    if !IsDescriptionError(s) {
      var saved := UpsertOutcome(s, now);
      RunCons(s, Upsert, [HideDialog], now, detail);
      RunCons(saved.state, HideDialog, [], now, detail);
      assert saved.calls + ([] + []) == saved.calls;
    }
  }

  /** The row's edit button on an open item opens the dialog on that item:
      its text, time, done flag and id, with no repository call. */
  lemma {:induction false} EditButtonOpensItem(s: ToDoState, todo: ToDo, now: Int64, detail: Int32 -> ToDo)
    requires !todo.isDone && detail(todo.id) == todo
    ensures Components.EditButtonActions(todo).Some?
    ensures Run(s, Components.EditButtonActions(todo).value, now, detail)
         == Outcome(ToDoState(todo.description, todo.lastUpdated, false, true, todo.id), [])
  {
    var s1 := Step(s, GetData(todo.id), now, detail).state;
    var s2 := Step(s1, Edit(todo.id), now, detail).state;
    RunCons(s, GetData(todo.id), [Edit(todo.id), ShowDialog], now, detail);
    RunCons(s1, Edit(todo.id), [ShowDialog], now, detail);
    RunCons(s2, ShowDialog, [], now, detail);
  }

  /** The row's checkbox saves the item with the new flag; its delete
      button deletes the item as shown. */
  lemma {:induction false} RowButtonsCallRepository(s: ToDoState, todo: ToDo, checked: bool, now: Int64, detail: Int32 -> ToDo)
    ensures Run(s, Components.CheckboxActions(todo, checked), now, detail).calls
         == [UpsertCall(ToDo(todo.description, now, checked, todo.id))]
    ensures Run(s, Components.DeleteButtonActions(todo), now, detail) == Outcome(ToDoState(), [DeleteCall(todo)])
  {
    RunCons(s, IsDone(todo.id, checked, todo.description), [], now, detail);
    RunCons(s, Delete(todo), [], now, detail);
  }
}
