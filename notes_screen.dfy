/** The notes list screen: the search filter over the notes and the
    highlighted title and description on each note card. */
module NotesScreen {
  import opened Kotlin
  import opened Text
  import opened Seqs
  import opened NoteDomain
  import opened Highlighter

  /** The filter's condition for one note, as written: the space-stripped
      title or description contains, or starts with, the space-stripped
      search text, ignoring case. */
  predicate NoteMatches(note: Note, searchText: string) {
    var title := StripSpaces(note.title);
    var description := StripSpaces(note.description);
    || ContainsIgnoreCase(title, searchText)
    || ContainsIgnoreCase(description, searchText)
    || StartsWithIgnoreCase(title, searchText)
    || StartsWithIgnoreCase(description, searchText)
  }

  /** `filteredNotes`: the notes unchanged when the search field holds only
      spaces and other whitespace, otherwise the matching notes. */
  function FilteredNotes(notes: seq<Note>, fieldText: string): (r: seq<Note>)
    ensures IsBlank(StripSpaces(fieldText)) ==> r == notes
    ensures IsSubsequence(r, notes)
  {
    var searchText := StripSpaces(fieldText);
    if IsBlank(searchText) then
      IsSubsequenceOfItself(notes);
      notes
    else Filter(notes, note => NoteMatches(note, searchText))
  }

  /** The `startsWith` tests add nothing to the `contains` tests. */
  lemma NoteMatchesIffContains(note: Note, searchText: string)
    ensures NoteMatches(note, searchText)
        <==> (ContainsIgnoreCase(StripSpaces(note.title), searchText)
              || ContainsIgnoreCase(StripSpaces(note.description), searchText))
  {
    ContainsIffOccurs(StripSpaces(note.title), searchText);
    ContainsIffOccurs(StripSpaces(note.description), searchText);
  }

  /** With a non-blank search, a note is kept exactly when its stripped title
      or description contains the stripped search text, and it is kept as
      often as it occurs. */
  lemma FilteredNotesKeepsMatches(notes: seq<Note>, fieldText: string)
    requires !IsBlank(StripSpaces(fieldText))
    ensures forall note :: (multiset(FilteredNotes(notes, fieldText))[note]
      == if ContainsIgnoreCase(StripSpaces(note.title), StripSpaces(fieldText))
            || ContainsIgnoreCase(StripSpaces(note.description), StripSpaces(fieldText))
         then multiset(notes)[note] else 0)
  {
    forall note: Note {
      NoteMatchesIffContains(note, StripSpaces(fieldText));
    }
  }

  /** One note card: the title and the description are each shown only when
      not empty, as the trimmed text with the search hits highlighted. */
  method NoteCard(note: Note, fieldText: string) returns (title: Option<Annotated>, description: Option<Annotated>)
    ensures title.Some? <==> note.title != []
    ensures title.Some? ==> title.value == Annotated(Trim(note.title), ExpectedRanges(Trim(note.title), SearchQuery(fieldText)))
    ensures title.Some? ==> WellFormed(title.value.text, SearchQuery(fieldText), title.value.spans) && Ordered(title.value.spans)
    ensures description.Some? <==> note.description != []
    ensures description.Some? ==> description.value == Annotated(Trim(note.description), ExpectedRanges(Trim(note.description), SearchQuery(fieldText)))
    ensures description.Some? ==> WellFormed(description.value.text, SearchQuery(fieldText), description.value.spans) && Ordered(description.value.spans)
  {
    var currentSearchText := SearchQuery(fieldText);
    title, description := None, None;
    if note.title != [] {
      var a := Annotate(note.title, currentSearchText);
      title := Some(a);
    }
    if note.description != [] {
      var a := Annotate(note.description, currentSearchText);
      description := Some(a);
    }
  }
}
