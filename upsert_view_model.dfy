/** `UpsertViewModel`: the note editor's state, the note loaded for the
    route's id (`result`), and the save and delete it performs.  The
    repository is a ghost log of calls, the clock is the `now` argument, and
    the loaded note arrives as the sequence of results its flow emits.  A
    launched coroutine is taken to run when it is launched. */
module NoteUpsertViewModel {
  import opened Kotlin
  import opened Text
  import opened NoteDomain
  import opened UpsertAction
  import opened UpsertScreen

  /** A call on the note repository. */
  datatype RepositoryCall = UpsertCall(note: Note) | DeleteCall(note: Note)

  /** The last note the detail flow delivered, if any. */
  function LastLoaded(emissions: seq<Result<Note>>): Option<Note>
    decreases |emissions|
  {
    if emissions == [] then None
    else if emissions[|emissions| - 1].Success? then Some(emissions[|emissions| - 1].value)
    else LastLoaded(emissions[..|emissions| - 1])
  }

  /** `upsertNote`: save the trimmed text under the loaded note's id, or
      under 0 (a new note) when nothing was loaded, unless both fields are blank. */
  function UpsertCalls(state: UpsertState, result: Option<Note>, now: Int64): (calls: seq<RepositoryCall>)
    ensures |calls| <= 1
    ensures calls != [] <==> !IsBlank(state.title) || !IsBlank(state.description)
    ensures calls != [] ==>
      calls == [UpsertCall(Note(Trim(state.title), Trim(state.description), now,
                                if result.Some? then result.value.id else 0))]
  {
    if !IsBlank(state.title) || !IsBlank(state.description) then
      [UpsertCall(Note(Trim(state.title), Trim(state.description), now,
                       if result.Some? then result.value.id else 0))]
    else []
  }

  /** `deleteNote`: nothing without a loaded note; otherwise delete the
      untrimmed text with the loaded note's time and id, unless both fields
      are blank.  The condition is written `title.isNotBlank() ||
      description.isNotBlank() && result != null`. */
  function DeleteCalls(state: UpsertState, result: Option<Note>): (calls: seq<RepositoryCall>)
    ensures |calls| <= 1
    ensures calls != [] <==> result.Some? && (!IsBlank(state.title) || !IsBlank(state.description))
    ensures calls != [] ==>
      calls == [DeleteCall(Note(state.title, state.description, result.value.lastUpdated, result.value.id))]
  {
    if result.None? then []
    else if !IsBlank(state.title) || (!IsBlank(state.description) && result.Some?) then
      [DeleteCall(Note(state.title, state.description, result.value.lastUpdated, result.value.id))]
    else []
  }

  /** `onAction`. */
  function ActionCalls(state: UpsertState, result: Option<Note>, action: OnNoteUpsertAction, now: Int64): seq<RepositoryCall> {
    match action
    case Delete => DeleteCalls(state, result)
    case NoteUpsert => UpsertCalls(state, result, now)
  }

  /** Several actions in a row; none of them changes the state or the loaded note. */
  function Dispatched(state: UpsertState, result: Option<Note>, actions: seq<OnNoteUpsertAction>, now: Int64): seq<RepositoryCall>
    decreases |actions|
  {
    if actions == [] then []
    else ActionCalls(state, result, actions[0], now) + Dispatched(state, result, actions[1..], now)
  }

  class UpsertViewModel {
    const id: Option<Int32>
    var state: UpsertState
    var result: Option<Note>
    ghost var calls: seq<RepositoryCall>

    constructor(id: Option<Int32>)
      ensures this.id == id && state == UpsertState() && result == None && calls == []
    {
      this.id := id;
      state := UpsertState();
      result := None;
      calls := [];
    }

    /** `getData`: for a route with an id, every note the detail flow
      delivers becomes `result` and replaces the editor's text; failures
      are skipped. */
    method GetData(emissions: seq<Result<Note>>)
      modifies this
      ensures id.None? || LastLoaded(emissions).None? ==> state == old(state) && result == old(result)
      ensures id.Some? && LastLoaded(emissions).Some? ==>
        && result == LastLoaded(emissions)
        && state == UpsertState(result.value.title, result.value.description)
      ensures calls == old(calls)
    {
      if id.Some? {
        var i := 0;
        while i < |emissions|
          invariant 0 <= i <= |emissions|
          invariant LastLoaded(emissions[..i]).None? ==> state == old(state) && result == old(result)
          invariant LastLoaded(emissions[..i]).Some? ==>
            result == LastLoaded(emissions[..i]) && state == UpsertState(result.value.title, result.value.description)
          invariant calls == old(calls)
        {
          assert emissions[..i + 1][..i] == emissions[..i];
          match emissions[i] {
            case Success(note) =>
              result := Some(note);
              state := state.(title := result.value.title, description := result.value.description);
            case Failure =>
          }
          i := i + 1;
        }
        assert emissions[..i] == emissions;
      }
    }

    method OnAction(action: OnNoteUpsertAction, now: Int64)
      modifies this`calls
      ensures calls == old(calls) + ActionCalls(state, result, action, now)
    {
      match action
      case Delete => DeleteNote();
      case NoteUpsert => UpsertNote(now);
    }

    method UpsertNote(now: Int64)
      modifies this`calls
      ensures calls == old(calls) + UpsertCalls(state, result, now)
    {
      if !IsBlank(state.title) || !IsBlank(state.description) {
        calls := calls + [UpsertCall(Note(Trim(state.title), Trim(state.description), now,
                                          if result.Some? then result.value.id else 0))];
        return;
      }
    }

    method DeleteNote()
      modifies this`calls
      ensures calls == old(calls) + DeleteCalls(state, result)
    {
      if result.None? {
        return;
      }
      if !IsBlank(state.title) || (!IsBlank(state.description) && result.Some?) {
        calls := calls + [DeleteCall(Note(state.title, state.description, result.value.lastUpdated, result.value.id))];
        return;
      }
    }

    method OnTitleChange(title: string)
      modifies this`state
      ensures state == old(state).(title := title)
    {
      state := state.(title := title);
    }

    method OnTextChange(description: string)
      modifies this`state
      ensures state == old(state).(description := description)
    {
      state := state.(description := description);
    }
  }

  // ---------------------------------------------------------------------
  // What saving and deleting promise

  /** One step of `Dispatched`. */
  lemma DispatchedCons(state: UpsertState, result: Option<Note>, a: OnNoteUpsertAction, rest: seq<OnNoteUpsertAction>, now: Int64)
    ensures Dispatched(state, result, [a] + rest, now) == ActionCalls(state, result, a, now) + Dispatched(state, result, rest, now)
  {
    assert ([a] + rest)[1..] == rest;
  }

  /** Any menu click, then leaving the screen: `DeleteCalls` then
      `UpsertCalls`.  When a delete is sent, the save that follows carries
      the same id, so the log saves again the note it has just deleted
      (calls taken in launch order). */
  lemma {:induction false} MenuClickThenLeave(id: Option<Int32>, item: MenuItem, state: UpsertState, result: Option<Note>, now: Int64)
    requires item in MenuItems(id)
    ensures Dispatched(state, result, [MenuDispatch(item.text)] + DisposeActions(), now)
         == DeleteCalls(state, result) + UpsertCalls(state, result, now)
    ensures DeleteCalls(state, result) != [] ==>
      UpsertCalls(state, result, now) != [] && UpsertCalls(state, result, now)[0].note.id == DeleteCalls(state, result)[0].note.id
  {
    var d, u := DeleteCalls(state, result), UpsertCalls(state, result, now);
    assert MenuDispatch(item.text) == Delete by { EveryMenuItemDeletes(id); }
    calc {
      Dispatched(state, result, [MenuDispatch(item.text)] + DisposeActions(), now);
      { assert [MenuDispatch(item.text)] + DisposeActions() == [Delete] + [NoteUpsert]; }
      Dispatched(state, result, [Delete] + [NoteUpsert], now);
      { DispatchedCons(state, result, Delete, [NoteUpsert], now); }
      d + Dispatched(state, result, [NoteUpsert], now);
      { DispatchedCons(state, result, NoteUpsert, [], now); }
      d + (u + []);
    }
    if d != [] {
      assert result.Some? && u != [];
    }
  }

  /** The top bar's save button, then leaving the screen: the same save
      twice. */
  lemma {:induction false} SaveButtonThenLeave(state: UpsertState, result: Option<Note>, now: Int64)
    ensures Dispatched(state, result, [NoteUpsert] + DisposeActions(), now)
         == UpsertCalls(state, result, now) + UpsertCalls(state, result, now)
  {
    assert DisposeActions() == [NoteUpsert];
    DispatchedCons(state, result, NoteUpsert, [NoteUpsert], now);
    DispatchedCons(state, result, NoteUpsert, [], now);
  }
}
