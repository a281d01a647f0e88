/**
 * The board sidebar (frontend/src/components/ListSidebar.tsx): the "New
 * Board" dialog with its name field, and the per-board delete control that
 * is shown only while more than one board exists.
 */
module ListSidebar {
  import opened Wrappers
  import opened Seqs
  import opened Text
  import opened Kanban
  import opened App

  /** `lists.length > 1 && <delete button>`: whether each board offers a delete control. */
  predicate DeleteOffered(lists: seq<TodoList>)
  {
    |lists| > 1
  }

  class Sidebar {
    var isAddDialogOpen: bool
    var newListName: string

    constructor ()
      ensures !isAddDialogOpen && newListName == ""
    {
      isAddDialogOpen := false;
      newListName := "";
    }

    /** The "New Board" button. */
    method OpenAddDialog()
      modifies this`isAddDialogOpen
      ensures isAddDialogOpen
    {
      isAddDialogOpen := true;
    }

    method SetNewListName(value: string)
      modifies this`newListName
      ensures newListName == value
    {
      newListName := value;
    }

    /** The Cancel button: closes the dialog and keeps the typed name. */
    method CancelAdd()
      modifies this`isAddDialogOpen
      ensures !isAddDialogOpen
    {
      isAddDialogOpen := false;
    }

    /**
     * `handleAddList`: a blank name sends nothing and changes nothing;
     * otherwise the trimmed name goes to `onAddList`, the field is cleared
     * and the dialog closes.
     */
    method AddList() returns (sent: Option<string>)
      modifies this
      ensures sent == NonBlankTrim(old(newListName))
      ensures sent.None? ==> unchanged(this)
      ensures sent.Some? ==> newListName == "" && !isAddDialogOpen
    {
      sent := NonBlankTrim(newListName);
      if sent.Some? {
        newListName := "";
        isAddDialogOpen := false;
      }
    }

    /** A key press in the name field: Enter is `handleAddList`, any other key does nothing here. */
    method KeyDown(key: string) returns (sent: Option<string>)
      modifies this
      ensures key == "Enter" ==> sent == NonBlankTrim(old(newListName))
      ensures key == "Enter" && sent.Some? ==> newListName == "" && !isAddDialogOpen
      ensures key != "Enter" || sent.None? ==> unchanged(this)
      ensures key != "Enter" ==> sent == None
    {
      if key == "Enter" {
        sent := AddList();
      } else {
        sent := None;
      }
    }
  }

  /**
   * A delete of a listed board removes exactly that one board, and the
   * delete control is shown exactly when that deletion would leave at least
   * one board, which is when the board's own `lists.length === 1` guard lets
   * it through and the deletion really removes a board.
   */
  lemma DeleteOfferedMatchesGuard(lists: seq<TodoList>, id: Id)
    requires |lists| > 0 && DistinctListIds(lists) && id in ListIds(lists)
    ensures |WithoutList(lists, id)| == |lists| - 1
    ensures DeleteOffered(lists) <==> |WithoutList(lists, id)| >= 1
    ensures DeleteOffered(lists) <==> |lists| != 1 && WithoutList(lists, id) != lists
  {
    DeleteListShape(lists, id);
  }

  /**
   * The dialog wired to the board (`onAddList={handleAddList}`), with the
   * fresh id `Date.now()` would give and the palette positions of the random
   * icon and color: a blank name leaves the board and the dialog alone;
   * otherwise a board with the trimmed, non-blank name is appended and made
   * current, and the dialog is cleared and closed.
   */
  method CreateBoard(sidebar: Sidebar, board: Board, id: Id, icon: nat, color: nat)
    requires board.Valid() && id != "" && id !in ListIds(board.lists)
    requires icon < |ListIcons| && color < |ListColors|
    modifies sidebar, board
    ensures board.Valid()
    ensures board.tasks == old(board.tasks) && board.users == old(board.users) && board.sortOrder == old(board.sortOrder)
    ensures IsBlank(old(sidebar.newListName)) ==> unchanged(board) && unchanged(sidebar)
    ensures !IsBlank(old(sidebar.newListName)) ==>
      && board.lists == old(board.lists) + [TodoList(id, Trim(old(sidebar.newListName)), ListIcons[icon], ListColors[color])]
      && board.currentListId == id
      && !IsBlank(board.lists[|old(board.lists)|].name)
      && sidebar.newListName == "" && !sidebar.isAddDialogOpen
  {
    var sent := sidebar.AddList();
    if sent.Some? {
      board.AddList(sent.value, id, icon, color);
    }
  }

  /**
   * A click on an offered delete control of a listed board: the guard of
   * `handleDeleteList` lets it through, so exactly that board and its tasks
   * go, another board is current afterwards, and the list state stays valid.
   */
  method DeleteBoard(board: Board, id: Id)
    requires board.Valid() && DeleteOffered(board.lists) && id in ListIds(board.lists)
    modifies board
    ensures board.Valid()
    ensures board.lists == WithoutList(old(board.lists), id)
    ensures board.tasks == WithoutListTasks(old(board.tasks), id)
    ensures board.currentListId ==
      if old(board.currentListId) == id then NextCurrentListId(old(board.lists), id) else old(board.currentListId)
    ensures board.users == old(board.users) && board.sortOrder == old(board.sortOrder)
    ensures |board.lists| == |old(board.lists)| - 1 && id !in ListIds(board.lists)
    ensures board.currentListId != id
  {
    DeleteOfferedMatchesGuard(board.lists, id);
    board.DeleteList(id);
  }
}
