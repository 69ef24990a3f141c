/** The `TodoApp` controller: the list, the current filter name and the id of
    the item being edited, updated in place by the operations the page's
    controls invoke. Values read from the page, the clock and the browser
    store arrive as parameters. */
module App {
  import opened Sequences
  import opened Text
  import opened Todos

  /** What an export document carries besides its date stamp. */
  datatype Export = Export(
    todos: seq<Todo>,
    exportDate: int,
    totalCount: nat,
    completedCount: nat,
    activeCount: nat)

  class TodoApp {
    var todos: seq<Todo>
    var currentFilter: string
    var editingId: Option<Id>

    /** The constructor with `loadTodos`: `saved` is the list recovered from
        the browser store, `None` when nothing was stored. */
    constructor (saved: Option<seq<Todo>>)
      ensures todos == (if saved.Some? then saved.value else [])
      ensures currentFilter == "all" && editingId == None
    {
      todos := [];
      currentFilter := "all";
      editingId := None;
      if saved.Some? {
        todos := saved.value;
      }
    }

    /** `addTodo`: `input` is the text field's value, `id` the clock reading
        and `createdAt` the creation timestamp. Whitespace-only input is
        ignored; otherwise one new, not-done item with the trimmed text is
        appended and every earlier item stays as it was. */
    method AddTodo(input: string, id: Id, createdAt: int)
      modifies this
      ensures Trim(input) == [] ==> todos == old(todos)
      ensures Trim(input) != [] ==>
                todos == old(todos) + [Todo(id, Trim(input), false, createdAt)]
      ensures currentFilter == old(currentFilter) && editingId == old(editingId)
      ensures TextsValid(old(todos)) ==> TextsValid(todos)
      ensures UniqueIds(old(todos)) && !HasId(old(todos), id) ==> UniqueIds(todos)
    {
      var text := Trim(input);
      if text != [] {
        var todo := Todo(id, text, false, createdAt);
        todos := todos + [todo];
      }
    }

    /** The deferred body of `deleteTodo`: drop every item with this id. */
    method DeleteTodo(id: Id)
      modifies this
      ensures todos == Without(old(todos), id)
      ensures currentFilter == old(currentFilter) && editingId == old(editingId)
      ensures TextsValid(old(todos)) ==> TextsValid(todos)
      ensures UniqueIds(old(todos)) ==> UniqueIds(todos)
    {
      if TextsValid(todos) { FilterTextsValid(todos, (t: Todo) => t.id != id); }
      if UniqueIds(todos) { FilterUniqueIds(todos, (t: Todo) => t.id != id); }
      todos := Without(todos, id);
    }

    /** `toggleComplete`: flip `completed` on every item with this id. */
    method ToggleComplete(id: Id)
      modifies this
      ensures todos == Toggled(old(todos), id)
      ensures currentFilter == old(currentFilter) && editingId == old(editingId)
      ensures TextsValid(old(todos)) ==> TextsValid(todos)
      ensures UniqueIds(old(todos)) ==> UniqueIds(todos)
    {
      todos := Toggled(todos, id);
    }

    /** `startEditing`: mark this id as the one being edited, overwriting any
        edit already in progress without saving it. */
    method StartEditing(id: Id)
      modifies this
      ensures editingId == Some(id)
      ensures todos == old(todos) && currentFilter == old(currentFilter)
    {
      editingId := Some(id);
    }

    /** `saveEdit`: `editText` is the edit field's value. A non-blank trimmed
        text replaces the text of the item being edited; the edit ends in
        every case. */
    method SaveEdit(editText: string)
      modifies this
      ensures Trim(editText) != [] ==> todos == Renamed(old(todos), old(editingId), Trim(editText))
      ensures Trim(editText) == [] ==> todos == old(todos)
      ensures old(editingId) == None ==> todos == old(todos)
      ensures editingId == None && currentFilter == old(currentFilter)
      ensures TextsValid(old(todos)) ==> TextsValid(todos)
      ensures UniqueIds(old(todos)) ==> UniqueIds(todos)
    {
      var newText := Trim(editText);
      if newText != [] {
        todos := Renamed(todos, editingId, newText);
      }
      editingId := None;
    }

    /** `cancelEdit`: end the edit without changing any item. */
    method CancelEdit()
      modifies this
      ensures editingId == None
      ensures todos == old(todos) && currentFilter == old(currentFilter)
    {
      editingId := None;
    }

    /** `setFilter`: store the filter name as given. */
    method SetFilter(filter: string)
      modifies this
      ensures currentFilter == filter
      ensures todos == old(todos) && editingId == old(editingId)
    {
      currentFilter := filter;
    }

    /** `clearCompleted`: keep only the items that are not done. */
    method ClearCompleted()
      modifies this
      ensures todos == ActiveTodos(old(todos))
      ensures CompletedCount(todos) == 0 && ActiveCount(todos) == ActiveCount(old(todos))
      ensures currentFilter == old(currentFilter) && editingId == old(editingId)
      ensures TextsValid(old(todos)) ==> TextsValid(todos)
      ensures UniqueIds(old(todos)) ==> UniqueIds(todos)
    {
      ActiveTodosSpec(todos);
      if TextsValid(todos) { FilterTextsValid(todos, IsActive); }
      if UniqueIds(todos) { FilterUniqueIds(todos, IsActive); }
      todos := ActiveTodos(todos);
    }

    /** The document `downloadTodos` builds: the whole list, the export date
        and counts that partition it. */
    method DownloadTodos(exportDate: int) returns (e: Export)
      ensures e.todos == todos && e.exportDate == exportDate
      ensures e.totalCount == |todos| && e.completedCount + e.activeCount == e.totalCount
      ensures e.completedCount == |FilteredTodos(todos, "completed")|
      ensures e.activeCount == |FilteredTodos(todos, "active")|
    {
      e := Export(todos, exportDate, |todos|, CompletedCount(todos), ActiveCount(todos));
    }
  }
}
