/** The note editor screen: its state record, the floating action menu and
    its items, the top-bar buttons, the back handler, and the save it sends
    when the screen goes away. */
module UpsertScreen {
  import opened Kotlin
  import opened UpsertAction
  import Components

  /** The editor's text; a new note starts empty. */
  datatype UpsertState = UpsertState(title: string := "", description: string := "")

  /** The screen edits a stored note: `id != -1 && id != null`. */
  predicate IsExistingNote(id: Option<Int32>) {
    id.Some? && id.value != -1
  }

  datatype MenuIcon = DeleteForever | Save

  /** One entry of the menu: its icon and its text. */
  datatype MenuItem = MenuItem(icon: MenuIcon, text: string)

  /** `items`: a stored note offers delete and save, a new one only save. */
  function MenuItems(id: Option<Int32>): (items: seq<MenuItem>)
    ensures |items| == if IsExistingNote(id) then 2 else 1
    ensures items[|items| - 1] == MenuItem(Save, "Save Note")
    ensures MenuItem(DeleteForever, "Delete Note") in items <==> IsExistingNote(id)
  {
    if IsExistingNote(id) then [MenuItem(DeleteForever, "Delete Note"), MenuItem(Save, "Save Note")]
    else [MenuItem(Save, "Save Note")]
  }

  /** A menu click dispatches on the item's text: "Add Note" saves, any
      other text deletes. */
  function MenuDispatch(text: string): (action: OnNoteUpsertAction)
    ensures action == NoteUpsert <==> text == "Add Note"
    ensures action == Delete <==> text != "Add Note"
  {
    if text == "Add Note" then NoteUpsert else Delete
  }

  /** No item is called "Add Note", so every menu click, "Save Note"
      included, sends `Delete`. */
  lemma EveryMenuItemDeletes(id: Option<Int32>)
    ensures forall item :: item in MenuItems(id) ==> MenuDispatch(item.text) == Delete
  {
  }

  /** The window counts as landscape when its height class is compact. */
  predicate IsLandscape(minHeightDp: int) {
    minHeightDp == Components.HeightCompact
  }

  /** The top bar's buttons show in landscape or with the keyboard open;
      the floating menu shows otherwise. */
  predicate TopBarVisible(isLandscape: bool, isKeyboardOpen: bool) {
    isLandscape || isKeyboardOpen
  }

  predicate FabVisible(isLandscape: bool, isKeyboardOpen: bool) {
    !isLandscape && !isKeyboardOpen
  }

  /** Exactly one of the two sets of controls is visible. */
  lemma OneSetOfControls(isLandscape: bool, isKeyboardOpen: bool)
    ensures TopBarVisible(isLandscape, isKeyboardOpen) != FabVisible(isLandscape, isKeyboardOpen)
  {
  }

  /** The actions of the top bar's buttons, left to right: delete for a
      stored note, then save. */
  function TopBarActions(id: Option<Int32>): (actions: seq<OnNoteUpsertAction>)
    ensures actions != [] && actions[|actions| - 1] == NoteUpsert
    ensures Delete in actions <==> IsExistingNote(id)
  {
    if IsExistingNote(id) then [Delete, NoteUpsert] else [NoteUpsert]
  }

  /** What leaving the screen sends: a save, and never a delete. */
  function DisposeActions(): (actions: seq<OnNoteUpsertAction>)
    ensures actions != [] && forall a :: a in actions ==> a == NoteUpsert
  {
    [NoteUpsert]
  }

  /** The back handler is on only while the menu is open and visible. */
  predicate BackHandlerEnabled(expanded: bool, isLandscape: bool, isKeyboardOpen: bool) {
    expanded && FabVisible(isLandscape, isKeyboardOpen)
  }

  /** The `fabMenuExpanded` flag and the callbacks that change it. */
  class FabMenu {
    var expanded: bool

    constructor()
      ensures !expanded
    {
      expanded := false;
    }

    /** The toggle button. */
    method Toggle()
      modifies this
      ensures expanded == !old(expanded)
    {
      expanded := !expanded;
    }

    /** A click on a menu item closes the menu and dispatches on its text. */
    method ItemClick(item: MenuItem) returns (action: OnNoteUpsertAction)
      modifies this
      ensures !expanded && action == MenuDispatch(item.text)
    {
      expanded := false;
      if item.text == "Add Note" {
        action := NoteUpsert;
      } else {
        action := Delete;
      }
    }

    /** The "Close menu" accessibility action of the last item. */
    method CloseMenu() returns (handled: bool)
      modifies this
      ensures !expanded && handled
    {
      expanded := false;
      handled := true;
    }

    /** The back key: the handler consumes it and closes the menu when it is
      enabled, otherwise the key goes on to the navigation. */
    method Back(isLandscape: bool, isKeyboardOpen: bool) returns (handled: bool)
      modifies this
      ensures handled == BackHandlerEnabled(old(expanded), isLandscape, isKeyboardOpen)
      ensures expanded == (old(expanded) && !handled)
    {
      handled := expanded && (!isLandscape && !isKeyboardOpen);
      if handled {
        expanded := false;
      }
    }
  }
}
