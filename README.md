# Kanban board and sticky-note to-do list, modelled in Dafny

This project models the client-side state of two front-ends of one repository.

- The kanban board (`frontend/src/App.tsx`) keeps three collections: tasks, boards (called lists) and users. It also keeps the id of the current board and a sort order. Its handlers add, update, delete and move tasks, add and delete boards, and add, update and delete users. Deleting a board takes its tasks with it, and the last board can never be deleted. Deleting a user clears that user from every task assigned to them. Each status column shows the current board's tasks with that status, sorted by creation time.
- The forms feed those handlers. The new-task dialog and the card's edit dialog share the tag editor and the assignee selector. Only the add forms guard names: the board sidebar, the new-user form and the new-task dialog drop a name or title that is empty once trimmed. The user dialog's inline rename forwards whatever is typed, blank or not.
- The sticky-note app (`sticky-todo/src/App.jsx`) keeps notes addressed by position, an edit cursor and a set of positions marked done. A deletion does not renumber the done marks or the cursor. The model reproduces this: a mark can end up on a different note, and an update through a stale cursor either overwrites whichever note now sits at that position or, when the cursor lies past the end, throws.

Layout, one module per file:

- `Wrappers`: `Option`.
- `Seqs`: a generic `Filter` (JavaScript's `Array.prototype.filter`) and lemmas about it; `Reverse`; `NoDuplicates`.
- `Text`: `String.prototype.trim` over the exact set of white-space and line-terminator code points ECMAScript strips.
- `Kanban`: the records and the pure transitions the `App` handlers compute with `map`, `filter` and spread.
- `Views`: `sortTasks` (a stable sort, as `Array.prototype.sort` is) and the status columns.
- `App`: class `Board`, the state of the `App` component. Its methods are the handlers; its invariant `Valid` says the board collection is never empty, board ids are distinct and non-empty, and the current id names a board.
- `TaskForm`: the tag and assignee logic shared by the two task dialogs.
- The form classes, one per component: `TaskCard.TaskEditor`, `AddTaskDialog.TaskDialog`, `ListSidebar.Sidebar`, `UserManagement.UserDialog`. Each module also has methods that wire its form to a `Board` as `App.tsx` does.
- `StickyTodo`: class `Todo`, plus the lemmas about index-based deletion.

Ids that the source takes from `Date.now()` are parameters of the methods. `new Date()` becomes an integer timestamp parameter. The board's random icon and color, `Math.floor(Math.random() * length)`, become palette-position parameters below the palette's length. The sticky note's random color is a free choice, stated as "the color is one of the palette's".

## Model

| member | source | states |
|---|---|---|
| App.Board.constructor | frontend/src/App.tsx:37-123 | The initial state is the seeded users, boards and tasks, with board "1" current and newest first; the invariant holds. |
| App.Board.CurrentTasks | frontend/src/App.tsx:126 | A task is among the current tasks exactly when it is stored and belongs to the current board. |
| App.Board.ColumnTasks | frontend/src/App.tsx:210-212 | A column is sorted in the selected order and is a permutation of the current tasks filtered by that status, so it holds exactly the current board's tasks with that status. |
| App.Board.AddTask | frontend/src/App.tsx:136-144 | Exactly one task is appended at the end. It has the draft's fields, the given id and timestamp, and the current board's id. Nothing else changes. |
| App.Board.UpdateTask | frontend/src/App.tsx:146-148 | The tasks become the map that swaps in the record for every task with its id; the invariant is kept. |
| App.Board.DeleteTask | frontend/src/App.tsx:150-152 | The tasks become the filter that drops every task with the id. |
| App.Board.MoveTask | frontend/src/App.tsx:154-158 | The tasks become the map that sets the status of the tasks with the id. |
| App.Board.AddList | frontend/src/App.tsx:160-179 | Exactly one board is appended, with the fresh non-empty id, the name, and the icon and color at the drawn palette positions, and it is made current. The invariant is kept. |
| App.Board.DeleteList | frontend/src/App.tsx:181-188 | With one board left, nothing changes. Otherwise the board and every task on it are removed. If it was current, the first other board (or the first board) becomes current. The invariant is kept. |
| App.Board.SelectList | frontend/src/App.tsx:221 | Selecting a listed board makes it current and keeps the invariant. |
| App.Board.AddUser | frontend/src/App.tsx:190-196 | Exactly one user, built from the draft and the given id, is appended. |
| App.Board.UpdateUser | frontend/src/App.tsx:198-200 | The users become the map that swaps in the record for every user with its id. |
| App.Board.DeleteUser | frontend/src/App.tsx:202-208 | The user is filtered out, and every task assigned to that user is unassigned. |
| App.Board.SetSortOrder | frontend/src/App.tsx:245 | The sort order becomes the selected one. |
| Kanban.TasksOfList | frontend/src/App.tsx:126 | The tasks of a board are exactly the stored tasks with that board's id. |
| Kanban.WithTaskReplaced | frontend/src/App.tsx:147 | The update keeps the length and every position's id; a task with the record's id becomes the record, any other task is unchanged. |
| Kanban.WithoutTask | frontend/src/App.tsx:151 | The remaining tasks are exactly the stored tasks with a different id. |
| Kanban.WithTaskMoved | frontend/src/App.tsx:154-158 | Moving keeps the length. Each task keeps every field but status. Status is the new one exactly on the tasks with the id. |
| Kanban.DeleteUndoesAdd | frontend/src/App.tsx:136-152 | Deleting a task just added under a fresh id gives back the tasks before the add. |
| Kanban.AddKeepsTaskIdsDistinct | frontend/src/App.tsx:136-144 | Appending a task under a fresh id keeps task ids distinct. |
| Kanban.DeleteTaskRemovesOne | frontend/src/App.tsx:150-152 | With distinct ids, deleting a task's id cuts out exactly that task and keeps the others in order. |
| Kanban.DeleteMissingTask | frontend/src/App.tsx:150-152 | Deleting an id no task has changes nothing. |
| Kanban.UpdateMissingTask | frontend/src/App.tsx:146-148 | An update whose id no task has changes nothing. |
| Kanban.UpdateReplacesOne | frontend/src/App.tsx:146-148 | With distinct ids, an update replaces the matching task with the whole record and changes no other position. |
| Kanban.UpdateKeepsTaskIds | frontend/src/App.tsx:146-148 | An update keeps the set of task ids, so distinct ids stay distinct. |
| Kanban.MoveTwice | frontend/src/App.tsx:154-158 | Two moves of one id equal a single move to the second status. |
| Kanban.MoveBack | frontend/src/App.tsx:154-158 | With distinct ids, moving a task back to its former status restores the tasks. |
| Kanban.WithoutList | frontend/src/App.tsx:183 | The remaining boards are exactly the boards with a different id. |
| Kanban.WithoutListTasks | frontend/src/App.tsx:184 | The remaining tasks are exactly the tasks of other boards. |
| Kanban.NextCurrentListId | frontend/src/App.tsx:186 | The next current id is always a listed board's id, and it is `lists[0].id` when every board has the deleted id. |
| Kanban.FirstOtherListAt | frontend/src/App.tsx:186 | `find` returns the first board, in order, whose id differs from the deleted one. |
| Kanban.NextCurrentPicksFirstOther | frontend/src/App.tsx:186 | The next current id is the id of the first board with a different id, or `lists[0].id` when that id is empty (the `||` fallback). |
| Kanban.FirstOtherList | frontend/src/App.tsx:186 | The board found is listed and has a different id. When none is found, every board has the deleted id. |
| Kanban.DeleteListShape | frontend/src/App.tsx:183 | With distinct ids, deleting a listed board cuts out exactly that board; deleting an unlisted id changes nothing. |
| Kanban.DeleteListKeepsDistinct | frontend/src/App.tsx:183 | Deleting a board keeps the remaining board ids distinct. |
| Kanban.DeleteListKeepsOther | frontend/src/App.tsx:183 | Deleting a board keeps every other board. |
| Kanban.DeleteListKeepsValid | frontend/src/App.tsx:181-188 | Deleting when more than one board exists keeps at least one board, keeps ids distinct and non-empty, and the next current id names a remaining board. |
| Kanban.AddListKeepsValid | frontend/src/App.tsx:171-178 | Appending a board under a fresh non-empty id and making it current keeps the board invariant. |
| Kanban.CascadeRemovesAll | frontend/src/App.tsx:184 | After the cascade the deleted board has no tasks left, and the tasks removed are exactly that board's tasks: the survivors and the board's tasks add up to all the tasks. |
| Kanban.CascadeKeepsOtherBoards | frontend/src/App.tsx:184 | Every other board's tasks are unchanged and in the same order. |
| Kanban.CascadeKeepsListRefs | frontend/src/App.tsx:183-184 | If every task named a listed board before, every remaining task names a remaining board. |
| Kanban.WithUserReplaced | frontend/src/App.tsx:199 | The update keeps the length and every position's id; a user with the record's id becomes the record, any other user is unchanged. |
| Kanban.WithoutUser | frontend/src/App.tsx:203 | The remaining users are exactly the users with a different id. |
| Kanban.WithUserUnassigned | frontend/src/App.tsx:205-207 | Unassigning keeps the length and changes only `assignedTo`. Every task assigned to the user becomes unassigned (`assignedTo` absent), so none stays assigned to it. Tasks assigned to anyone else are unchanged. |
| Kanban.DeleteUserRemovesOne | frontend/src/App.tsx:203 | With distinct ids, deleting a user cuts out exactly that user; the count drops by one. |
| Kanban.UpdateReplacesOneUser | frontend/src/App.tsx:198-200 | With distinct ids, a user update replaces exactly the matching user. |
| Kanban.UpdateMissingUser | frontend/src/App.tsx:198-200 | A user update whose id no user has changes nothing. |
| Kanban.DeleteUserKeepsUserRefs | frontend/src/App.tsx:202-208 | If every assignment named a user before, every assignment names a remaining user afterwards. |
| Views.Insert | frontend/src/App.tsx:128-134 | Inserting into a sorted sequence adds exactly that task and keeps it sorted. |
| Views.SortTasks | frontend/src/App.tsx:128-134 | `sortTasks` returns a permutation of its input, ordered by `createdAt` (non-increasing for newest, non-decreasing for oldest). |
| Views.InsertStable | frontend/src/App.tsx:128-134 | Insertion keeps the relative order of equal timestamps, with the inserted task first. |
| Views.SortStable | frontend/src/App.tsx:128-134 | The sort is stable: tasks that share a timestamp keep their order. |
| Views.OldestFirstSameHead | frontend/src/App.tsx:128-134 | Two oldest-first orders of the same tasks with distinct timestamps start with the same task. |
| Views.OldestFirstIsUnique | frontend/src/App.tsx:128-134 | With distinct timestamps there is only one oldest-first order. |
| Views.NewestIsReversedOldest | frontend/src/App.tsx:128-134 | With distinct timestamps, oldest first is exactly the reverse of newest first. |
| Views.Column | frontend/src/App.tsx:210-212 | A column is sorted in the chosen order and is a permutation of the board's tasks filtered by status. |
| Views.ColumnMembers | frontend/src/App.tsx:210-212 | A column holds exactly the tasks of that board with that status. |
| Views.ColumnsPartition | frontend/src/App.tsx:210-212 | The three columns together hold every task of the board, each exactly once. |
| Views.MoveScenario | frontend/src/App.tsx:154-158 | Two to-do tasks of one board: moving the older to done changes only its status. It leaves the to-do column with just the other task and puts the moved task in the done column. |
| Text.Trim | frontend/src/components/AddTaskDialog.tsx:42-43 | `trim` never lengthens a string, and what it returns neither starts nor ends with white space. |
| Text.TrimIsMiddle | frontend/src/components/AddTaskDialog.tsx:42-43 | What `trim` returns is the middle of the string, character for character: everything cut before it and after it is white space. |
| Text.BlankIffAllSpace | frontend/src/components/AddTaskDialog.tsx:39 | A string is blank once trimmed exactly when every character is white space. |
| Text.TrimIdempotent | frontend/src/components/AddTaskDialog.tsx:42-43 | Trimming twice is trimming once. |
| Text.NonBlankTrim | frontend/src/components/ListSidebar.tsx:26-28 | A name gets through the guard exactly when it is not blank. What gets through is the trimmed name, not blank and already trimmed. |
| TaskForm.WithTag | frontend/src/components/TaskCard.tsx:53-61 | Adding keeps the old tags as a prefix and adds at most one tag; the tags afterwards are the old ones plus, for a non-blank input, its trimmed form. |
| TaskForm.TagInputAfterAdd | frontend/src/components/TaskCard.tsx:53-61 | The tag input is either cleared or kept; it is empty afterwards exactly when the tag was added or the input was already empty. |
| TaskForm.WithoutTag | frontend/src/components/TaskCard.tsx:63-68 | The remaining tags are exactly the tags different from the removed one. |
| TaskForm.SelectValue | frontend/src/components/TaskCard.tsx:200 | The selector's value is never empty; it shows 'unassigned' exactly when no one is assigned or the assignee id is empty or 'unassigned'. |
| TaskForm.AddTagEffect | frontend/src/components/TaskCard.tsx:53-61 | The tags stay as they are exactly when the trimmed input is empty or already a tag; otherwise the trimmed input is appended. |
| TaskForm.AddTagKeepsNoDuplicates | frontend/src/components/TaskCard.tsx:54-58 | Duplicate-free tags stay duplicate-free. |
| TaskForm.AddTagIdempotent | frontend/src/components/TaskCard.tsx:54-58 | Adding the same input twice equals adding it once. |
| TaskForm.AddTagKeepsWellFormed | frontend/src/components/AddTaskDialog.tsx:27-32 | Every added tag is non-empty and trimmed, so tags of that form stay so. |
| TaskForm.RemoveUndoesAdd | frontend/src/components/TaskCard.tsx:53-68 | Removing a tag that was just added gives back the former tags. |
| TaskForm.RemoveTagRemovesOne | frontend/src/components/TaskCard.tsx:63-68 | In duplicate-free tags, removing a tag cuts out its one occurrence and keeps the others in order. |
| TaskForm.RemoveTagKeepsInvariant | frontend/src/components/AddTaskDialog.tsx:34-36 | Removing keeps tags duplicate-free, non-empty and trimmed. |
| TaskForm.AssigneeOf | frontend/src/components/TaskCard.tsx:204 | Selecting 'unassigned' clears the assignee; any other value is stored as the user id. |
| TaskForm.SelectRoundTrip | frontend/src/components/TaskCard.tsx:200-205 | The selector shows the stored assignee and selecting it stores it back. This holds for every assignee except the empty id and the id 'unassigned'. It also holds for every non-empty selected value. |
| TaskCard.TaskEditor.constructor | frontend/src/components/TaskCard.tsx:34-36 | The editor starts from the card's task, with an empty tag input and the dialog closed. |
| TaskCard.TaskEditor.Open | frontend/src/components/TaskCard.tsx:90 | The Edit menu item opens the dialog. |
| TaskCard.TaskEditor.Cancel | frontend/src/components/TaskCard.tsx:261 | Cancel closes the dialog and keeps the edits. |
| TaskCard.TaskEditor.SetTitle | frontend/src/components/TaskCard.tsx:143 | Only the title of the copy changes. |
| TaskCard.TaskEditor.SetDescription | frontend/src/components/TaskCard.tsx:153 | Only the description of the copy changes. |
| TaskCard.TaskEditor.SetPriority | frontend/src/components/TaskCard.tsx:163-165 | Only the priority of the copy changes. |
| TaskCard.TaskEditor.SetStatus | frontend/src/components/TaskCard.tsx:182-184 | Only the status of the copy changes. |
| TaskCard.TaskEditor.SelectAssignee | frontend/src/components/TaskCard.tsx:200-206 | Only `assignedTo` changes: 'unassigned' clears it, any other value stores that id. |
| TaskCard.TaskEditor.SetTagInput | frontend/src/components/TaskCard.tsx:230 | The tag input becomes the typed value. |
| TaskCard.TaskEditor.AddTag | frontend/src/components/TaskCard.tsx:53-61 | Only the copy's tags and the tag input change, as `handleAddTag` computes them. |
| TaskCard.TaskEditor.RemoveTag | frontend/src/components/TaskCard.tsx:63-68 | Only the copy's tags change: every tag equal to the removed one is filtered out. |
| TaskCard.TaskEditor.SaveEdit | frontend/src/components/TaskCard.tsx:48-51 | The record forwarded is the edited copy and still has the task's id, `createdAt` and `listId`. The dialog closes. |
| AddTaskDialog.TaskDialog.constructor | frontend/src/components/AddTaskDialog.tsx:19-25 | The form starts at its defaults with valid tags. |
| AddTaskDialog.TaskDialog.SetTitle | frontend/src/components/AddTaskDialog.tsx:73 | The title becomes the typed value. |
| AddTaskDialog.TaskDialog.SetDescription | frontend/src/components/AddTaskDialog.tsx:84 | The description becomes the typed value. |
| AddTaskDialog.TaskDialog.SetPriority | frontend/src/components/AddTaskDialog.tsx:93 | The priority becomes the selected one. |
| AddTaskDialog.TaskDialog.SetStatus | frontend/src/components/AddTaskDialog.tsx:107 | The status becomes the selected one. |
| AddTaskDialog.TaskDialog.SelectAssignee | frontend/src/components/AddTaskDialog.tsx:123-126 | 'unassigned' clears the assignee, any other value stores that id. |
| AddTaskDialog.TaskDialog.SetTagInput | frontend/src/components/AddTaskDialog.tsx:150 | The tag input becomes the typed value. |
| AddTaskDialog.TaskDialog.AddTag | frontend/src/components/AddTaskDialog.tsx:27-32 | Tags and tag input change as `handleAddTag` computes them. Tags stay duplicate-free, non-empty and trimmed. |
| AddTaskDialog.TaskDialog.RemoveTag | frontend/src/components/AddTaskDialog.tsx:34-36 | Every tag equal to the removed one is filtered out, and the tag invariant is kept. |
| AddTaskDialog.TaskDialog.Submit | frontend/src/components/AddTaskDialog.tsx:38-59 | The draft sent is the submission of the fields. When nothing is sent, nothing changes; otherwise the form is back at its defaults. |
| AddTaskDialog.TaskDialog.Reset | frontend/src/components/AddTaskDialog.tsx:50-57 | All seven fields return to their initial values. |
| AddTaskDialog.Submission | frontend/src/components/AddTaskDialog.tsx:38-48 | A draft is sent exactly when the title is not blank. Its title is then non-blank and trimmed, its description trimmed, and its other fields passed through. |
| AddTaskDialog.CreateTask | frontend/src/App.tsx:303-306 | Boards, users, current board and sort order never change. A blank title leaves the board and the dialog unchanged. Otherwise exactly the task built from the dialog's submission, with the given id and time, is appended on the current board: trimmed non-blank title, the dialog's tags. The dialog returns to its defaults. |
| ListSidebar.Sidebar.constructor | frontend/src/components/ListSidebar.tsx:23-24 | The dialog starts closed with an empty name. |
| ListSidebar.Sidebar.OpenAddDialog | frontend/src/components/ListSidebar.tsx:40 | "New Board" opens the dialog. |
| ListSidebar.Sidebar.SetNewListName | frontend/src/components/ListSidebar.tsx:93 | The name becomes the typed value. |
| ListSidebar.Sidebar.CancelAdd | frontend/src/components/ListSidebar.tsx:103 | Cancel closes the dialog. |
| ListSidebar.Sidebar.AddList | frontend/src/components/ListSidebar.tsx:26-32 | A blank name sends nothing and changes nothing. Otherwise the trimmed name is sent, the field is cleared and the dialog closes. |
| ListSidebar.Sidebar.KeyDown | frontend/src/components/ListSidebar.tsx:94-98 | Enter behaves exactly like `handleAddList`; any other key sends nothing and changes nothing. |
| ListSidebar.DeleteOfferedMatchesGuard | frontend/src/components/ListSidebar.tsx:69-74 | A delete of a listed board removes exactly one board, and the delete control is shown exactly when that deletion would leave at least one board: exactly when the board's own one-board guard lets the delete through and the deletion really changes the boards. |
| ListSidebar.CreateBoard | frontend/src/App.tsx:218-223 | Tasks, users and sort order never change. A blank name leaves the board and the sidebar unchanged. Otherwise the boards become exactly the old boards plus one: the fresh id, the trimmed non-blank name, and the icon and color at the drawn palette positions. That board is made current. The sidebar form is cleared and closed. |
| ListSidebar.DeleteBoard | frontend/src/components/ListSidebar.tsx:69-74 | An offered delete removes exactly that board and, by cascade, exactly its tasks. The current board stays unless it was the one deleted; then the first other board becomes current. Users and sort order do not change. |
| UserManagement.Toggled | frontend/src/components/UserManagementDialog.tsx:96 | The editor ends on the user exactly when it was not already on that user; otherwise it closes. |
| UserManagement.ToggleTwice | frontend/src/components/UserManagementDialog.tsx:96 | Pressing the same edit button twice restores an editor that was open on that user, and otherwise closes it. Pressing a second user's button opens the editor on that user. |
| UserManagement.UserDialog.constructor | frontend/src/components/UserManagementDialog.tsx:39-42 | The dialog starts not adding, not editing, with an empty name and the first palette color. |
| UserManagement.UserDialog.StartAdding | frontend/src/components/UserManagementDialog.tsx:159 | "Add New User" opens the add form. |
| UserManagement.UserDialog.SetNewUserName | frontend/src/components/UserManagementDialog.tsx:119 | The name becomes the typed value. |
| UserManagement.UserDialog.PickColor | frontend/src/components/UserManagementDialog.tsx:127-130 | Picking a swatch selects that palette color, so the selection stays in the palette. |
| UserManagement.UserDialog.AddUser | frontend/src/components/UserManagementDialog.tsx:44-54 | A blank name sends nothing and changes nothing. Otherwise the trimmed name and selected color are sent, the name is cleared, the color goes back to the first one, and adding ends. |
| UserManagement.UserDialog.ResetAddForm | frontend/src/components/UserManagementDialog.tsx:50-52 | Name cleared, first palette color, not adding. |
| UserManagement.UserDialog.Cancel | frontend/src/components/UserManagementDialog.tsx:143-146 | Cancel ends adding and clears the name. The selected color is outside the method's frame, so it is left as it was. |
| UserManagement.UserDialog.ToggleEdit | frontend/src/components/UserManagementDialog.tsx:96 | The editing id becomes the toggled one. |
| UserManagement.UserDialog.EditName | frontend/src/components/UserManagementDialog.tsx:56-59 | A keystroke forwards the user with only its name replaced, and the editor closes. |
| UserManagement.CreateUser | frontend/src/App.tsx:310-314 | Tasks, boards, current board and sort order never change. A blank name leaves the board and the dialog unchanged. Otherwise one user is appended, with the fresh id, the trimmed non-blank name and the color selected in the dialog. The form resets to an empty name and the first palette color and closes. |
| UserManagement.RenameUser | frontend/src/components/UserManagementDialog.tsx:81-85 | With distinct user ids, a keystroke in the editor renames exactly the edited user, unguarded, and closes the editor. Tasks, boards, current board, sort order and the add form do not change. |
| StickyTodo.WithoutIndex | sticky-todo/src/App.jsx:33 | Filtering by position removes one note when the position is listed and none otherwise. |
| StickyTodo.WithoutIndexIsSlice | sticky-todo/src/App.jsx:33 | Filtering out a position cuts out exactly the element there and keeps the others in order. A position outside the list removes nothing. |
| StickyTodo.WithoutIndexMultiset | sticky-todo/src/App.jsx:33 | Deleting a listed position removes exactly one occurrence of its note. |
| StickyTodo.LaterIndicesShift | sticky-todo/src/App.jsx:33 | After a deletion, a later position j holds the note that was at j + 1, and the last old position lies past the end. |
| StickyTodo.DoneMarkShifts | sticky-todo/src/App.jsx:33-36 | A done mark after the deleted position survives. It now marks the note that followed the marked one, or no note at all. |
| StickyTodo.DoneMarkMovesToAnotherNote | sticky-todo/src/App.jsx:32-36 | Take three different notes with the middle one done and delete the first. The notes are then the middle and the last; the note that was done shows not done, and the remaining mark shows on the last note. |
| StickyTodo.Todo.constructor | sticky-todo/src/App.jsx:12-15 | The list starts empty: no message, no cursor, no marks. |
| StickyTodo.Todo.SetMsg | sticky-todo/src/App.jsx:65 | The message becomes the typed value. |
| StickyTodo.Todo.AddOrUpdate | sticky-todo/src/App.jsx:17-30 | A blank message changes nothing. With a cursor in range, that note's text becomes the untrimmed message. With a cursor past the end, the call throws (`crashed`) and nothing changes. Without a cursor, the untrimmed message is appended with a palette color. After any success the message is cleared and the cursor is unset. |
| StickyTodo.Todo.UpdateText | sticky-todo/src/App.jsx:20-24 | Only the text of the note under the cursor changes; the cursor and the message are cleared. |
| StickyTodo.Todo.Append | sticky-todo/src/App.jsx:25-29 | Exactly one note is appended, with the untrimmed message and a palette color, and the message is cleared. |
| StickyTodo.Todo.Delete | sticky-todo/src/App.jsx:32-41 | The note at the position is filtered out and that position loses its mark. No other mark and not the cursor is renumbered. Deleting the note under the cursor unsets it and clears the message; any other deletion keeps both. |
| StickyTodo.Todo.MarkDone | sticky-todo/src/App.jsx:43-47 | The position is added to the marks; marking it again changes nothing. |
| StickyTodo.Todo.Edit | sticky-todo/src/App.jsx:49-52 | The message becomes the note's text and the cursor points at it. |

## Left out

- `index.js` is not part of this model. It is an Express server whose routes pass straight to PostgreSQL, so it is network and database I/O only.
- `frontend/src/components/BoardColumn.tsx` is not part of this model. It only wires drag and drop, and its drop calls `onMoveTask(id, status)`, which `App.Board.MoveTask` models.
- JSX rendering, CSS class strings, the priority and column color maps, and the open state of the dialogs that `App` owns (`isAddDialogOpen`, `isUserManagementOpen`). These are presentation.
- `Date.now()` and `new Date()`: ids and timestamps are method parameters. Only `App.Board.AddList` requires its id to be fresh, because the board invariant needs distinct board ids. Task and user ids are unconstrained, and freshness appears only as a lemma hypothesis.
- `Math.random()` palette picks are positions given by the caller (board icon and color) or a free choice (sticky-note color); no particular distribution is modelled.
- React's batching of `useState` setters and stale closures: each handler is one atomic transition of its object.
- The form components receive new props after the board changes; the model does not capture this. For example, `useState(task)` in the card editor is initialised once. The editor keeps its own copy (`TaskCard.TaskEditor.task` is fixed).
- The deletes filter out every record with the id; with distinct ids that is one record (`Kanban.DeleteListShape`, `Kanban.DeleteTaskRemovesOne`, `Kanban.DeleteUserRemovesOne`).
- `StickyTodo.Todo.AddOrUpdate`: the source mutates the note object in place through a shallow copy of the array (`updated[editIndex].text = msg`). The model replaces the note by value. No other holder of the object observes the difference.
- `StickyTodo.Todo.Edit` requires a listed position, as the Edit button of a rendered note guarantees. Calling it with any other position would throw in the source.
- `UserManagement.UserDialog.EditName` requires the editor to be open on that user, as only then is the name field rendered.
