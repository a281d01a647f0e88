/**
 * The state of the App component (frontend/src/App.tsx): the three
 * collections, the current board and the sort order, and the handlers that
 * replace them. Each handler is one atomic transition of the object; the new
 * collections are the functions of module `Kanban`, whose lemmas state what
 * the handlers promise.
 */
module App {
  import opened Wrappers
  import opened Seqs
  import opened Kanban
  import opened Views

  /** The color themes a new board draws from. */
  const IndigoBlue := "from-indigo-200 to-blue-200"
  const OrangeRed := "from-orange-200 to-red-200"
  const TealCyan := "from-teal-200 to-cyan-200"
  const YellowAmber := "from-yellow-200 to-amber-200"
  const VioletFuchsia := "from-violet-200 to-fuchsia-200"
  const LimeGreen := "from-lime-200 to-green-200"
  const ListColors: seq<string> := [IndigoBlue, OrangeRed, TealCyan, YellowAmber, VioletFuchsia, LimeGreen]

  /** The icons a new board draws from (clipboard, sparkles, rocket, light bulb, palette, books). */
  const ListIcons: seq<string> := ["\U{1F4CB}", "\U{2728}", "\U{1F680}", "\U{1F4A1}", "\U{1F3A8}", "\U{1F4DA}"]

  const InitialUsers: seq<User> := [
    User("1", "John Doe", "bg-blue-300"),
    User("2", "Jane Smith", "bg-pink-300"),
    User("3", "Mike Johnson", "bg-green-300")]

  const InitialLists: seq<TodoList> := [
    TodoList("1", "Work Projects", "\U{1F4BC}", "from-blue-200 to-purple-200"),
    TodoList("2", "Family Tasks", "\U{1F3E0}", "from-pink-200 to-rose-200"),
    TodoList("3", "Personal Goals", "\U{1F3AF}", "from-green-200 to-emerald-200")]

  /** The seeded tasks; `new Date('2024-10-DD')` is midnight UTC, in milliseconds. */
  const InitialTasks: seq<Task> := [
    Task("1", "Design new landing page", "Create mockups for the new landing page with updated branding",
      InProgress, High, ["design", "urgent"], None, 1730073600000, "1"),
    Task("2", "Update documentation", "Add examples and improve clarity in the API docs",
      Todo, Medium, ["docs"], None, 1730160000000, "1"),
    Task("3", "Fix login bug", "Users report issues with OAuth login on mobile",
      Todo, High, ["bug", "urgent"], None, 1730246400000, "1"),
    Task("4", "Grocery shopping", "Buy groceries for the week",
      Todo, Medium, ["shopping"], Some("1"), 1730160000000, "2"),
    Task("5", "Clean garage", "Organize and clean the garage this weekend",
      InProgress, Low, ["chores"], Some("2"), 1729987200000, "2"),
    Task("6", "Learn Spanish", "Practice Spanish for 30 minutes daily",
      InProgress, Medium, ["learning"], None, 1729900800000, "3")]

  class Board {
    var tasks: seq<Task>
    var lists: seq<TodoList>
    var users: seq<User>
    var currentListId: Id
    var sortOrder: SortOrder

    /** The list collection is never empty and the current board is one of its lists. */
    ghost predicate Valid()
      reads this
    {
      ListsValid(lists, currentListId)
    }

    constructor ()
      ensures Valid()
      ensures tasks == InitialTasks && lists == InitialLists && users == InitialUsers
      ensures currentListId == "1" && sortOrder == Newest
    {
      tasks := InitialTasks;
      lists := InitialLists;
      users := InitialUsers;
      currentListId := "1";
      sortOrder := Newest;
      assert InitialLists[0] in InitialLists;
    }

    /** `currentTasks`: the tasks of the current board, in stored order. */
    function CurrentTasks(): (r: seq<Task>)
      reads this
      ensures forall t :: t in r <==> t in tasks && t.listId == currentListId
    {
      TasksOfList(tasks, currentListId)
    }

    /** `todoTasks`, `inProgressTasks` and `doneTasks`: one status column of the current board. */
    function ColumnTasks(status: Status): (r: seq<Task>)
      reads this
      ensures SortedBy(sortOrder, r)
      ensures multiset(r) == multiset(Filter(HasStatus(status), CurrentTasks()))
      ensures forall t :: t in r <==> t in tasks && t.listId == currentListId && t.status == status
    {
      ColumnMembers(sortOrder, tasks, currentListId, status);
      Column(sortOrder, tasks, currentListId, status)
    }

    /** `handleAddTask`: appends the draft as a new task of the current board. */
    method AddTask(draft: TaskDraft, id: Id, now: int)
      requires Valid()
      modifies this
      ensures Valid()
      ensures tasks == old(tasks) + [NewTask(draft, id, now, currentListId)]
      ensures lists == old(lists) && users == old(users)
      ensures currentListId == old(currentListId) && sortOrder == old(sortOrder)
    {
      tasks := tasks + [NewTask(draft, id, now, currentListId)];
    }

    /** `handleUpdateTask`: replaces every task with the record's id by the record. */
    method UpdateTask(updated: Task)
      requires Valid()
      modifies this`tasks
      ensures Valid()
      ensures tasks == WithTaskReplaced(old(tasks), updated)
    {
      tasks := WithTaskReplaced(tasks, updated);
    }

    /** `handleDeleteTask` */
    method DeleteTask(id: Id)
      requires Valid()
      modifies this`tasks
      ensures Valid()
      ensures tasks == WithoutTask(old(tasks), id)
    {
      tasks := WithoutTask(tasks, id);
    }

    /** `handleMoveTask`: the drop of a card on a column. */
    method MoveTask(id: Id, status: Status)
      requires Valid()
      modifies this`tasks
      ensures Valid()
      ensures tasks == WithTaskMoved(old(tasks), id, status)
    {
      tasks := WithTaskMoved(tasks, id, status);
    }

    /**
     * `handleAddList`: appends a board with a random icon and color and makes
     * it current. `id` is the value of `Date.now()`, assumed fresh; `icon` and
     * `color` are the palette positions `Math.floor(Math.random() * length)`
     * picks.
     */
    method AddList(name: string, id: Id, icon: nat, color: nat)
      requires Valid() && id != "" && id !in ListIds(lists)
      requires icon < |ListIcons| && color < |ListColors|
      modifies this`lists, this`currentListId
      ensures Valid()
      ensures |lists| == |old(lists)| + 1 && lists[..|old(lists)|] == old(lists)
      ensures lists[|old(lists)|].id == id && lists[|old(lists)|].name == name
      ensures lists[|old(lists)|].icon == ListIcons[icon] && lists[|old(lists)|].color == ListColors[color]
      ensures lists == old(lists) + [TodoList(id, name, ListIcons[icon], ListColors[color])]
      ensures currentListId == id
    {
      var list := TodoList(id, name, ListIcons[icon], ListColors[color]);
      AddListKeepsValid(lists, currentListId, list);
      lists := lists + [list];
      currentListId := id;
    }

    /**
     * `handleDeleteList`: nothing happens when one board is left; otherwise
     * the board and its tasks go, and if it was current another becomes
     * current.
     */
    method DeleteList(id: Id)
      requires Valid()
      modifies this`lists, this`tasks, this`currentListId
      ensures Valid()
      ensures |old(lists)| == 1 ==> unchanged(this)
      ensures |old(lists)| != 1 ==>
        && lists == WithoutList(old(lists), id)
        && tasks == WithoutListTasks(old(tasks), id)
        && currentListId == if old(currentListId) == id then NextCurrentListId(old(lists), id) else old(currentListId)
    {
      if |lists| == 1 {
        return;
      }
      var next := if currentListId == id then NextCurrentListId(lists, id) else currentListId;
      DeleteListKeepsValid(lists, currentListId, id);
      lists := WithoutList(lists, id);
      tasks := WithoutListTasks(tasks, id);
      currentListId := next;
    }

    /** `setCurrentListId` as the sidebar calls it, with the id of a listed board. */
    method SelectList(id: Id)
      requires Valid() && id in ListIds(lists)
      modifies this`currentListId
      ensures Valid() && currentListId == id
    {
      currentListId := id;
    }

    /** `handleAddUser` */
    method AddUser(draft: UserDraft, id: Id)
      requires Valid()
      modifies this`users
      ensures Valid()
      ensures users == old(users) + [NewUser(draft, id)]
    {
      users := users + [NewUser(draft, id)];
    }

    /** `handleUpdateUser` */
    method UpdateUser(updated: User)
      requires Valid()
      modifies this`users
      ensures Valid()
      ensures users == WithUserReplaced(old(users), updated)
    {
      users := WithUserReplaced(users, updated);
    }

    /** `handleDeleteUser`: removes the user and clears it from every task assigned to it. */
    method DeleteUser(id: Id)
      requires Valid()
      modifies this`users, this`tasks
      ensures Valid()
      ensures users == WithoutUser(old(users), id)
      ensures tasks == WithUserUnassigned(old(tasks), id)
    {
      users := WithoutUser(users, id);
      tasks := WithUserUnassigned(tasks, id);
    }

    /** `setSortOrder` from the sort selector. */
    method SetSortOrder(order: SortOrder)
      requires Valid()
      modifies this`sortOrder
      ensures Valid() && sortOrder == order
    {
      sortOrder := order;
    }
  }
}
