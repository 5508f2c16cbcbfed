/** The note as the app passes it around (`Note`) and as Room stores it in
    the `notes` table (`Notes`), with the two mappers between them. */
module NoteDomain {
  import opened Kotlin

  /** The domain note; `id` is 0 unless given. */
  datatype Note = Note(title: string, description: string, lastUpdated: Int64, id: Int32 := 0)

  /** The `notes` table row; `id` 0 asks Room to generate the key on insert. */
  datatype Notes = Notes(title: string, description: string, lastUpdated: Int64, id: Int32 := 0)

  /** `Notes.toNote()`: every column becomes the field of the same name. */
  function ToNote(e: Notes): (n: Note)
    ensures n.title == e.title && n.description == e.description
    ensures n.lastUpdated == e.lastUpdated && n.id == e.id
  {
    Note(e.title, e.description, e.lastUpdated, e.id)
  }

  /** `Note.toNotes()`: every field becomes the column of the same name, so
      mapping back gives the note again. */
  function ToNotes(n: Note): (e: Notes)
    ensures e.title == n.title && e.description == n.description
    ensures e.lastUpdated == n.lastUpdated && e.id == n.id
    ensures ToNote(e) == n
  {
    Notes(n.title, n.description, n.lastUpdated, n.id)
  }

  /** The other round trip: a stored row survives a trip through the domain. */
  lemma RowRoundTrip(e: Notes)
    ensures ToNotes(ToNote(e)) == e
  {
  }

  /** A note or row built without an id carries id 0. */
  lemma IdDefaultsToZero(title: string, description: string, lastUpdated: Int64)
    ensures Note(title, description, lastUpdated).id == 0
    ensures Notes(title, description, lastUpdated).id == 0
  {
  }
}
