/**
 * The user dialog (frontend/src/components/UserManagementDialog.tsx): the
 * add form (`isAdding`, `newUserName`, `selectedColor`) and the inline name
 * editor (`editingId`), which forward their results to the board's user
 * handlers.
 */
module UserManagement {
  import opened Wrappers
  import opened Text
  import opened Kanban
  import opened App

  /** The avatar colors a new user can be given. */
  const AvailableColors: seq<string> := [
    "bg-blue-300", "bg-pink-300", "bg-green-300", "bg-purple-300", "bg-yellow-300",
    "bg-red-300", "bg-indigo-300", "bg-orange-300", "bg-teal-300", "bg-cyan-300"]

  /** The edit button: `editingId === user.id ? null : user.id`. */
  function Toggled(editingId: Option<Id>, userId: Id): (r: Option<Id>)
    ensures r == Some(userId) <==> editingId != Some(userId)
    ensures r.Some? ==> r.value == userId
  {
    if editingId == Some(userId) then None else Some(userId)
  }

  /**
   * Pressing the same edit button twice closes the editor if it was open on
   * that user, and otherwise opens it on that user; a second user's button
   * always moves the editor to that user.
   */
  lemma ToggleTwice(editingId: Option<Id>, u: Id, v: Id)
    ensures Toggled(Toggled(editingId, u), u) == if editingId == Some(u) then Some(u) else None
    ensures u != v ==> Toggled(Toggled(editingId, u), v) == Some(v)
  {
  }

  class UserDialog {
    var isAdding: bool
    var editingId: Option<Id>
    var newUserName: string
    var selectedColor: string

    /** The selected color is always one of the palette's. */
    ghost predicate Valid()
      reads this
    {
      selectedColor in AvailableColors
    }

    constructor ()
      ensures Valid()
      ensures !isAdding && editingId == None && newUserName == "" && selectedColor == AvailableColors[0]
    {
      isAdding := false;
      editingId := None;
      newUserName := "";
      selectedColor := AvailableColors[0];
    }

    /** The "Add New User" button. */
    method StartAdding()
      requires Valid()
      modifies this`isAdding
      ensures Valid() && isAdding
    {
      isAdding := true;
    }

    method SetNewUserName(value: string)
      requires Valid()
      modifies this`newUserName
      ensures Valid() && newUserName == value
    {
      newUserName := value;
    }

    /** A click on one of the rendered color swatches. */
    method PickColor(color: string)
      requires Valid() && color in AvailableColors
      modifies this`selectedColor
      ensures Valid() && selectedColor == color
    {
      selectedColor := color;
    }

    /**
     * `handleAddUser`: a blank name sends nothing and changes nothing;
     * otherwise the trimmed name and the selected color go to `onAddUser`
     * and the form is reset: name cleared, first color, not adding.
     */
    method AddUser() returns (sent: Option<UserDraft>)
      requires Valid()
      modifies this
      ensures Valid()
      ensures sent.None? <==> IsBlank(old(newUserName))
      ensures sent.None? ==> unchanged(this)
      ensures sent.Some? ==>
        && sent.value == UserDraft(Trim(old(newUserName)), old(selectedColor))
        && newUserName == "" && selectedColor == AvailableColors[0] && !isAdding
        && editingId == old(editingId)
    {
      var name := NonBlankTrim(newUserName);
      if name.None? {
        return None;
      }
      sent := Some(UserDraft(name.value, selectedColor));
      ResetAddForm();
    }

    method ResetAddForm()
      modifies this`newUserName, this`selectedColor, this`isAdding
      ensures Valid()
      ensures newUserName == "" && selectedColor == AvailableColors[0] && !isAdding
    {
      newUserName := "";
      selectedColor := AvailableColors[0];
      isAdding := false;
    }

    /** The Cancel button of the add form: keeps the selected color. */
    method Cancel()
      requires Valid()
      modifies this`isAdding, this`newUserName
      ensures Valid() && !isAdding && newUserName == ""
    {
      isAdding := false;
      newUserName := "";
    }

    /** The edit button of a user's row. */
    method ToggleEdit(userId: Id)
      requires Valid()
      modifies this`editingId
      ensures Valid() && editingId == Toggled(old(editingId), userId)
    {
      editingId := Toggled(editingId, userId);
    }

    /**
     * A keystroke in the name field of the row being edited
     * (`handleUpdateUser({ ...user, name: value })`): the record forwarded
     * to `onUpdateUser` differs from the user only in its name, and the
     * editor closes.
     */
    method EditName(user: User, value: string) returns (forwarded: User)
      requires Valid() && editingId == Some(user.id)
      modifies this`editingId
      ensures Valid() && editingId == None
      ensures forwarded.id == user.id && forwarded.color == user.color && forwarded.name == value
    {
      forwarded := user.(name := value);
      editingId := None;
    }
  }

  /**
   * The add form wired to the board (`onAddUser={handleAddUser}`): a blank
   * name leaves the board and the dialog alone; otherwise one user is
   * appended, with the trimmed, non-blank name and the selected palette
   * color, and the add form resets. Only the users change on the board.
   */
  method CreateUser(dialog: UserDialog, board: Board, id: Id)
    requires dialog.Valid() && board.Valid()
    modifies dialog, board
    ensures dialog.Valid() && board.Valid()
    ensures board.tasks == old(board.tasks) && board.lists == old(board.lists)
    ensures board.currentListId == old(board.currentListId) && board.sortOrder == old(board.sortOrder)
    ensures IsBlank(old(dialog.newUserName)) ==> unchanged(board) && unchanged(dialog)
    ensures !IsBlank(old(dialog.newUserName)) ==>
      && dialog.newUserName == "" && dialog.selectedColor == AvailableColors[0] && !dialog.isAdding
      && dialog.editingId == old(dialog.editingId)
    ensures !IsBlank(old(dialog.newUserName)) ==>
      && |board.users| == |old(board.users)| + 1
      && board.users[..|old(board.users)|] == old(board.users)
      && board.users[|old(board.users)|].id == id
      && board.users[|old(board.users)|].name == Trim(old(dialog.newUserName))
      && !IsBlank(board.users[|old(board.users)|].name)
      && board.users[|old(board.users)|].color == old(dialog.selectedColor)
      && board.users[|old(board.users)|].color in AvailableColors
  {
    var sent := dialog.AddUser();
    if sent.Some? {
      board.AddUser(sent.value, id);
      assert board.users[..|old(board.users)|] == old(board.users);
    }
  }

  /**
   * A keystroke in the inline editor wired to the board
   * (`onUpdateUser={handleUpdateUser}`): the edited user keeps its id and
   * color and takes the typed name; every other user is unchanged.
   */
  method RenameUser(dialog: UserDialog, board: Board, k: nat, value: string)
    requires dialog.Valid() && board.Valid() && DistinctUserIds(board.users)
    requires k < |board.users| && dialog.editingId == Some(board.users[k].id)
    modifies dialog, board
    ensures dialog.Valid() && board.Valid() && dialog.editingId == None
    ensures board.users == old(board.users)[k := old(board.users[k]).(name := value)]
    ensures board.tasks == old(board.tasks) && board.lists == old(board.lists)
    ensures board.currentListId == old(board.currentListId) && board.sortOrder == old(board.sortOrder)
    ensures dialog.isAdding == old(dialog.isAdding) && dialog.newUserName == old(dialog.newUserName)
    ensures dialog.selectedColor == old(dialog.selectedColor)
  {
    var forwarded := dialog.EditName(board.users[k], value);
    UpdateReplacesOneUser(board.users, forwarded, k);
    board.UpdateUser(forwarded);
  }
}
