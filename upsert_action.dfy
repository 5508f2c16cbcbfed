/** The two actions the note editor sends to its view model.  The editor
    screen and the view model name this type `OnNoteUpsertAction` and
    `OnNoteUpsertAcion`; the two declarations have the same two cases and
    are one type here. */
module UpsertAction {

  datatype OnNoteUpsertAction = Delete | NoteUpsert
}
