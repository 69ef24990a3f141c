/** Short sessions with the controller, proved from the operations'
    contracts alone. Each starts from an empty store; the typed texts are
    parameters, already trimmed and non-blank unless said otherwise. */
module Scenarios {
  import opened Sequences
  import opened Text
  import opened Todos
  import opened App

  /** A blank add after a real one leaves exactly the first item. */
  method AddThenBlank(text: string, id1: Id, id2: Id, at1: int, at2: int) returns (s: seq<Todo>)
    requires text != [] && IsTrimmed(text)
    ensures s == [Todo(id1, text, false, at1)]
  {
    var app := new TodoApp(None);
    TrimTrimmed(text);
    app.AddTodo(text, id1, at1);
    app.AddTodo("", id2, at2);
    s := app.todos;
  }

  /** Completing one of two items splits the counts one and one, and the
      "completed" view shows just that item. */
  method ToggleOneOfTwo(a: string, b: string, idA: Id, idB: Id, at: int)
    returns (active: nat, completed: nat, view: seq<Todo>)
    requires a != [] && IsTrimmed(a) && b != [] && IsTrimmed(b)
    requires idA != idB
    ensures active == 1 && completed == 1
    ensures view == [Todo(idA, a, true, at)]
  {
    var app := new TodoApp(None);
    TrimTrimmed(a);
    TrimTrimmed(b);
    app.AddTodo(a, idA, at);
    app.AddTodo(b, idB, at);
    assert app.todos == [Todo(idA, a, false, at), Todo(idB, b, false, at)];
    app.ToggleComplete(idA);
    var s := app.todos;
    assert s == [Todo(idA, a, true, at), Todo(idB, b, false, at)];
    assert CompletedTodos(s) == [s[0]] + CompletedTodos(s[1..]);
    assert CompletedTodos(s[1..]) == CompletedTodos(s[2..]);
    active, completed := ActiveCount(s), CompletedCount(s);
    view := FilteredTodos(s, "completed");
  }

  /** Clearing when nothing is done keeps the list. */
  method ClearNothingDone(text: string, id: Id, at: int) returns (s: seq<Todo>)
    requires text != [] && IsTrimmed(text)
    ensures s == [Todo(id, text, false, at)]
  {
    var app := new TodoApp(None);
    TrimTrimmed(text);
    app.AddTodo(text, id, at);
    var x := Todo(id, text, false, at);
    assert app.todos == [x];
    FilterIdentity([x], IsActive);
    app.ClearCompleted();
    s := app.todos;
  }

  /** After completing the one item, clearing empties the list. */
  method ClearAfterToggle(text: string, id: Id, at: int) returns (s: seq<Todo>)
    requires text != [] && IsTrimmed(text)
    ensures s == []
  {
    var app := new TodoApp(None);
    TrimTrimmed(text);
    app.AddTodo(text, id, at);
    var x := Todo(id, text, false, at);
    assert app.todos == [x];
    app.ToggleComplete(id);
    assert app.todos == [x.(completed := true)];
    FilterEmpty(app.todos, IsActive);
    app.ClearCompleted();
    s := app.todos;
  }

  /** Saving a blank edit keeps the text and still ends the edit. */
  method BlankEdit(text: string, id: Id, at: int) returns (s: seq<Todo>, editing: Option<Id>)
    requires text != [] && IsTrimmed(text)
    ensures s == [Todo(id, text, false, at)] && editing == None
  {
    var app := new TodoApp(None);
    TrimTrimmed(text);
    app.AddTodo(text, id, at);
    app.StartEditing(id);
    app.SaveEdit("");
    s, editing := app.todos, app.editingId;
  }

  /** Starting a second edit discards the first; the save then renames only
      the second item, with the trimmed text. */
  method SecondEditWins(a: string, b: string, edit: string, idA: Id, idB: Id, at: int)
    returns (s: seq<Todo>)
    requires a != [] && IsTrimmed(a) && b != [] && IsTrimmed(b)
    requires Trim(edit) != []
    requires idA != idB
    ensures s == [Todo(idA, a, false, at), Todo(idB, Trim(edit), false, at)]
  {
    var app := new TodoApp(None);
    TrimTrimmed(a);
    TrimTrimmed(b);
    app.AddTodo(a, idA, at);
    app.AddTodo(b, idB, at);
    app.StartEditing(idA);
    app.StartEditing(idB);
    var before := app.todos;
    assert before == [Todo(idA, a, false, at), Todo(idB, b, false, at)];
    app.SaveEdit(edit);
    assert app.todos == Renamed(before, Some(idB), Trim(edit));
    s := app.todos;
  }

  /** The export of two items, one done, counts two, one and one. */
  method ExportTwo(a: string, b: string, idA: Id, idB: Id, at: int, date: int) returns (e: Export)
    requires a != [] && IsTrimmed(a) && b != [] && IsTrimmed(b)
    requires idA != idB
    ensures e.totalCount == 2 && e.completedCount == 1 && e.activeCount == 1
  {
    var app := new TodoApp(None);
    TrimTrimmed(a);
    TrimTrimmed(b);
    app.AddTodo(a, idA, at);
    app.AddTodo(b, idB, at);
    assert app.todos == [Todo(idA, a, false, at), Todo(idB, b, false, at)];
    app.ToggleComplete(idB);
    var s := app.todos;
    assert s == [Todo(idA, a, false, at), Todo(idB, b, true, at)];
    assert CompletedTodos(s) == CompletedTodos(s[1..]);
    assert CompletedTodos(s[1..]) == [s[1]] + CompletedTodos(s[2..]);
    e := app.DownloadTodos(date);
  }
}
